/** Character-level string helpers standing in for Python's `str.lower`,
    `str.strip` and `str.isalpha`. `Upper` is not used by the analyser; it
    is here only to state that syllable counting ignores case.

    Letters and case are ASCII only. Whitespace is Python's `str.isspace`
    restricted to the Latin-1 range, the encoding the word lists are read in. */
module Chars {

  /** Python whitespace within Latin-1: tab, line feed, vertical tab, form
      feed, carriage return, the four separators 0x1C-0x1F, space, NEL and
      no-break space. */
  predicate IsSpace(c: char) {
    || ('\t' <= c <= '\r')
    || ('\U{001C}' <= c <= '\U{001F}')
    || c == ' '
    || c == '\U{0085}'
    || c == '\U{00A0}'
  }

  predicate IsUpper(c: char) { 'A' <= c <= 'Z' }

  predicate IsLower(c: char) { 'a' <= c <= 'z' }

  predicate IsLetter(c: char) { IsUpper(c) || IsLower(c) }

  function LowerChar(c: char): (d: char)
    ensures !IsUpper(d)
    ensures IsLetter(c) <==> IsLetter(d)
    ensures IsSpace(c) <==> IsSpace(d)
    ensures !IsUpper(c) ==> d == c
  {
    if IsUpper(c) then (c as int + 32) as char else c
  }

  function UpperChar(c: char): (d: char)
    ensures !IsLower(d)
    ensures LowerChar(d) == LowerChar(c)
  {
    if IsLower(c) then (c as int - 32) as char else c
  }

  /** `s.lower()` */
  function Lower(s: string): (r: string)
    ensures |r| == |s|
    ensures forall i :: 0 <= i < |s| ==> r[i] == LowerChar(s[i])
  {
    seq(|s|, i requires 0 <= i < |s| => LowerChar(s[i]))
  }

  /** ASCII upper-casing, the counterpart of `Lower`. */
  function Upper(s: string): (r: string)
    ensures |r| == |s|
    ensures forall i :: 0 <= i < |s| ==> r[i] == UpperChar(s[i])
  {
    seq(|s|, i requires 0 <= i < |s| => UpperChar(s[i]))
  }

  /** No character of `s` is an upper-case letter, i.e. `s.lower() == s`. */
  predicate NoUpper(s: string) {
    forall i :: 0 <= i < |s| ==> !IsUpper(s[i])
  }

  /** `s.isalpha()`: non-empty and made of letters only. */
  predicate IsAlpha(s: string) {
    |s| > 0 && forall i :: 0 <= i < |s| ==> IsLetter(s[i])
  }

  predicate AllSpace(s: string) {
    forall i :: 0 <= i < |s| ==> IsSpace(s[i])
  }

  /** Neither end of `s` is whitespace, i.e. `s.strip() == s`. */
  predicate IsStripped(s: string) {
    |s| == 0 || (!IsSpace(s[0]) && !IsSpace(s[|s| - 1]))
  }

  /** `s.lstrip()`: the suffix left after removing the leading whitespace. */
  function StripLeft(s: string): (r: string)
    ensures |r| <= |s| && r == s[|s| - |r|..]
    ensures AllSpace(s[..|s| - |r|])
    ensures |r| == 0 || !IsSpace(r[0])
  {
    if |s| > 0 && IsSpace(s[0]) then StripLeft(s[1..]) else s
  }

  /** `s.rstrip()`: the prefix left after removing the trailing whitespace. */
  function StripRight(s: string): (r: string)
    ensures |r| <= |s| && r == s[..|r|]
    ensures AllSpace(s[|r|..])
    ensures |r| == 0 || !IsSpace(r[|r| - 1])
  {
    if |s| > 0 && IsSpace(s[|s| - 1]) then StripRight(s[..|s| - 1]) else s
  }

  /** `s.strip()`: what is left of `s` between its leading and its trailing
      whitespace. */
  function Strip(s: string): (r: string)
    ensures IsStripped(r)
    ensures |r| <= |s|
    ensures var k := |s| - |StripLeft(s)|;
      && k + |r| <= |s|
      && s == s[..k] + r + s[k + |r|..]
      && AllSpace(s[..k])
      && AllSpace(s[k + |r|..])
    ensures IsStripped(s) ==> r == s
  {
    var t := StripLeft(s);
    var r := StripRight(t);
    assert |r| > 0 ==> r[0] == t[0];
    StripSplits(s);
    r
  }

  lemma Regroup(s: string, a: string, t: string, r: string, b: string)
    requires s == a + t && t == r + b
    ensures s == a + r + b && s[..|a|] == a && s[|a| + |r|..] == b
  {
    assert s == a + r + b;
  }

  /** `s` is its leading whitespace, then what both strips leave, then the
      trailing whitespace. */
  lemma StripSplits(s: string)
    ensures var t := StripLeft(s);
      var r := StripRight(t);
      var k := |s| - |t|;
      && k + |r| <= |s|
      && s == s[..k] + r + s[k + |r|..]
      && AllSpace(s[..k])
      && AllSpace(s[k + |r|..])
  {
    var t := StripLeft(s);
    var r := StripRight(t);
    var k := |s| - |t|;
    StripLeftSplits(s);
    StripRightSplits(t);
    Regroup(s, s[..k], t, r, t[|r|..]);
  }

  lemma StripLeftSplits(s: string)
    ensures s == s[..|s| - |StripLeft(s)|] + StripLeft(s)
  {
  }

  lemma StripRightSplits(t: string)
    ensures t == StripRight(t) + t[|StripRight(t)|..]
    ensures AllSpace(t[|StripRight(t)|..])
  {
  }

  /** Leading whitespace in front of a string that does not start with
      whitespace is exactly what `StripLeft` removes. */
  lemma {:induction false} StripLeftPastSpace(a: string, t: string)
    requires AllSpace(a)
    requires |t| == 0 || !IsSpace(t[0])
    ensures StripLeft(a + t) == t
  {
    if |a| == 0 {
      assert a + t == t;
    } else {
      assert (a + t)[0] == a[0];
      assert (a + t)[1..] == a[1..] + t;
      StripLeftPastSpace(a[1..], t);
    }
  }

  /** Trailing whitespace after a string that does not end with whitespace
      is exactly what `StripRight` removes. */
  lemma {:induction false} StripRightPastSpace(t: string, b: string)
    requires AllSpace(b)
    requires |t| == 0 || !IsSpace(t[|t| - 1])
    ensures StripRight(t + b) == t
  {
    if |b| == 0 {
      assert t + b == t;
    } else {
      var c := b[..|b| - 1];
      assert (t + b)[|t + b| - 1] == b[|b| - 1];
      assert (t + b)[..|t + b| - 1] == t + c;
      StripRightPastSpace(t, c);
    }
  }

  /** Whatever way `s` splits into whitespace, a stripped middle and
      whitespace, `Strip` returns that middle: the stripped core is unique. */
  lemma StripIsTheCore(s: string, a: string, m: string, b: string)
    requires s == a + m + b
    requires AllSpace(a) && AllSpace(b) && IsStripped(m)
    ensures Strip(s) == m
  {
    if |m| == 0 {
      assert s == a + b + [];
      StripLeftPastSpace(a + b, []);
    } else {
      assert s == a + (m + b);
      StripLeftPastSpace(a, m + b);
      StripRightPastSpace(m, b);
    }
  }

  lemma LowerIdempotent(s: string)
    ensures Lower(Lower(s)) == Lower(s)
  {
  }

  lemma NoUpperLower(s: string)
    ensures NoUpper(Lower(s))
    ensures NoUpper(s) <==> Lower(s) == s
  {
    if NoUpper(s) {
      assert Lower(s) == s;
    }
  }

  lemma LowerOfUpper(s: string)
    ensures Lower(Upper(s)) == Lower(s)
  {
  }

  lemma LowerKeepsStripped(s: string)
    requires IsStripped(s)
    ensures IsStripped(Lower(s))
  {
  }

  lemma LowerOfAlpha(s: string)
    requires IsAlpha(s)
    ensures IsAlpha(Lower(s)) && NoUpper(Lower(s))
  {
  }

  /** A word made of letters has no whitespace to strip, and neither has its
      lower-cased form. */
  lemma AlphaIsStripped(s: string)
    requires IsAlpha(s)
    ensures IsAlpha(Lower(s)) && NoUpper(Lower(s))
    ensures Strip(s) == s && Strip(Lower(s)) == Lower(s)
  {
    LowerOfAlpha(s);
    var l := Lower(s);
    assert IsLetter(s[0]) && IsLetter(s[|s| - 1]);
    assert IsStripped(s);
    assert IsLetter(l[0]) && IsLetter(l[|l| - 1]);
    assert IsStripped(l);
  }
}
