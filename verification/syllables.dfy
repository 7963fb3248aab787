/** The syllable estimator `count_syllables` (Code_TextAnalysis.py, lines 68-86):
    normalise the word, drop one silent `es`/`ed` ending, count the starts of
    vowel groups and never report fewer than one syllable for a non-empty word. */
module Syllables {
  import opened Chars

  predicate IsVowel(c: char) {
    c == 'a' || c == 'e' || c == 'i' || c == 'o' || c == 'u' || c == 'y'
  }

  /** Position `i` of `s` holds a vowel that does not follow another vowel. */
  predicate IsGroupStart(s: string, i: nat)
    requires i < |s|
  {
    IsVowel(s[i]) && (i == 0 || !IsVowel(s[i - 1]))
  }

  predicate HasVowel(s: string) {
    exists i :: 0 <= i < |s| && IsVowel(s[i])
  }

  /** The number of vowel groups of `s`, read left to right one character at
      a time. */
  function VowelGroupStarts(s: string): (n: nat)
    ensures n <= |s|
    ensures n == 0 <==> !HasVowel(s)
  {
    if |s| == 0 then 0
    else
      var p := s[..|s| - 1];
      assert forall i :: 0 <= i < |p| ==> p[i] == s[i];
      VowelGroupStarts(p) + (if IsGroupStart(s, |s| - 1) then 1 else 0)
  }

  /** The positions where a vowel group begins: an independent, set-based
      reading of what `VowelGroupStarts` counts. */
  function GroupStartPositions(s: string): set<nat> {
    set i: nat | i < |s| && IsGroupStart(s, i)
  }

  /** `word.lower().strip()` */
  function Normalize(w: string): string {
    Strip(Lower(w))
  }

  predicate HasSilentEnding(w: string) {
    |w| >= 2 && (w[|w| - 2..] == "es" || w[|w| - 2..] == "ed")
  }

  /** `word[:-2]` when the word ends with `es` or `ed`, otherwise the word. */
  function DropSilentEnding(w: string): (r: string)
    ensures HasSilentEnding(w) ==> |r| == |w| - 2 && w == r + w[|w| - 2..]
    ensures !HasSilentEnding(w) ==> r == w
  {
    if HasSilentEnding(w) then w[..|w| - 2] else w
  }

  function Max(a: int, b: int): int {
    if a >= b then a else b
  }

  /** `count_syllables(word)` */
  function CountSyllables(w: string): (n: nat)
    ensures n == 0 <==> Normalize(w) == []
    ensures n <= |Normalize(w)|
    ensures n <= Max(1, |DropSilentEnding(Normalize(w))|)
    ensures Normalize(w) != [] && !HasVowel(DropSilentEnding(Normalize(w))) ==> n == 1
  {
    var word := Normalize(w);
    if word == [] then 0
    else Max(1, VowelGroupStarts(DropSilentEnding(word)))
  }

  /** Counting group starts one prefix at a time agrees with the size of the
      set of group-start positions. */
  lemma {:induction false} VowelGroupStartsCounted(s: string)
    ensures VowelGroupStarts(s) == |GroupStartPositions(s)|
  {
    if |s| > 0 {
      var p := s[..|s| - 1];
      VowelGroupStartsCounted(p);
      var last := |s| - 1;
      assert forall i :: 0 <= i < |p| ==> p[i] == s[i];
      assert forall i: nat :: i < |p| ==> (IsGroupStart(p, i) <==> IsGroupStart(s, i));
      if IsGroupStart(s, last) {
        assert GroupStartPositions(s) == GroupStartPositions(p) + {last};
      } else {
        assert GroupStartPositions(s) == GroupStartPositions(p);
      }
    }
  }

  /** Two group starts are separated by at least one non-vowel, so a string
      of `n` characters has at most `(n + 1) / 2` vowel groups. */
  lemma {:induction false} VowelGroupStartsAtMostHalf(s: string)
    ensures 2 * VowelGroupStarts(s) <= |s| + (if |s| > 0 && IsVowel(s[|s| - 1]) then 1 else 0)
    ensures VowelGroupStarts(s) <= (|s| + 1) / 2
  {
    if |s| > 0 {
      var p := s[..|s| - 1];
      VowelGroupStartsAtMostHalf(p);
      assert |p| > 0 ==> p[|p| - 1] == s[|s| - 2];
    }
  }

  /** Upper- or lower-casing a word first never changes its syllable count. */
  lemma CountSyllablesCaseInsensitive(w: string)
    ensures CountSyllables(Upper(w)) == CountSyllables(w)
    ensures CountSyllables(Lower(w)) == CountSyllables(w)
  {
    LowerOfUpper(w);
    LowerIdempotent(w);
  }

  /** For a word that is not blank, the estimate is the number of vowel-group
      start positions of the root left after dropping one `es`/`ed` ending,
      raised to one; and it is never more than half the root, rounded up. */
  lemma CountSyllablesOfRoot(w: string)
    ensures var root := DropSilentEnding(Normalize(w));
      Normalize(w) != [] ==>
        && CountSyllables(w) == Max(1, |GroupStartPositions(root)|)
        && CountSyllables(w) <= Max(1, (|root| + 1) / 2)
  {
    var root := DropSilentEnding(Normalize(w));
    if Normalize(w) != [] {
      assert CountSyllables(w) == Max(1, VowelGroupStarts(root));
      VowelGroupStartsCounted(root);
      VowelGroupStartsAtMostHalf(root);
    }
  }

  /** A non-blank word already in lower case with no surrounding whitespace
      is counted as it stands. */
  lemma CountSyllablesOfNormalWord(w: string)
    requires w != [] && NoUpper(w) && IsStripped(w)
    ensures CountSyllables(w) == Max(1, VowelGroupStarts(DropSilentEnding(w)))
  {
    NoUpperLower(w);
  }

  /** "cake": both `a` and `e` follow a consonant, so two syllables. */
  lemma CakeHasTwoSyllables()
    ensures CountSyllables("cake") == 2
  {
    assert DropSilentEnding("cake") == "cake" by { assert "cake"[2..] == "ke"; }
    assert VowelGroupStarts("c") == 0 by { assert "c"[..0] == ""; }
    assert VowelGroupStarts("ca") == 1 by { assert "ca"[..1] == "c"; }
    assert VowelGroupStarts("cak") == 1 by { assert "cak"[..2] == "ca"; }
    assert VowelGroupStarts("cake") == 2 by { assert "cake"[..3] == "cak"; }
    CountSyllablesOfNormalWord("cake");
  }

  /** "happy": `a` and the final `y` each follow a consonant, and `y`
      counts as a vowel, so two syllables. */
  lemma HappyHasTwoSyllables()
    ensures CountSyllables("happy") == 2
  {
    assert DropSilentEnding("happy") == "happy" by { assert "happy"[3..] == "py"; }
    assert VowelGroupStarts("h") == 0 by { assert "h"[..0] == ""; }
    assert VowelGroupStarts("ha") == 1 by { assert "ha"[..1] == "h"; }
    assert VowelGroupStarts("hap") == 1 by { assert "hap"[..2] == "ha"; }
    assert VowelGroupStarts("happ") == 1 by { assert "happ"[..3] == "hap"; }
    assert VowelGroupStarts("happy") == 2 by { assert "happy"[..4] == "happ"; }
    CountSyllablesOfNormalWord("happy");
  }

  /** "created" loses its `ed` and "creat" has one vowel group. */
  lemma CreatedHasOneSyllable()
    ensures CountSyllables("created") == 1
  {
    assert DropSilentEnding("created") == "creat" by { assert "created"[5..] == "ed"; }
    assert VowelGroupStarts("c") == 0 by { assert "c"[..0] == ""; }
    assert VowelGroupStarts("cr") == 0 by { assert "cr"[..1] == "c"; }
    assert VowelGroupStarts("cre") == 1 by { assert "cre"[..2] == "cr"; }
    assert VowelGroupStarts("crea") == 1 by { assert "crea"[..3] == "cre"; }
    assert VowelGroupStarts("creat") == 1 by { assert "creat"[..4] == "crea"; }
    CountSyllablesOfNormalWord("created");
  }

  /** "es" is not blank when tested, so it still counts as one syllable even
      though nothing is left once its ending is dropped. */
  lemma EsHasOneSyllable()
    ensures CountSyllables("es") == 1
    ensures CountSyllables("") == 0
  {
    assert DropSilentEnding("es") == "";
    CountSyllablesOfNormalWord("es");
  }

  /** The counting loop of lines 77-83, as written: one pass with a running
      count of vowels that do not follow a vowel. */
  method CountGroupStarts(word: string) returns (count: nat)
    ensures count == VowelGroupStarts(word)
  {
    count := 0;
    if |word| == 0 {
      return;
    }
    if IsVowel(word[0]) {
      count := count + 1;
    }
    assert VowelGroupStarts(word[..1]) == count by {
      assert word[..1][..0] == [];
    }
    var index := 1;
    while index < |word|
      invariant index <= |word|
      invariant count == VowelGroupStarts(word[..index])
    {
      assert word[..index + 1][..index] == word[..index];
      if IsVowel(word[index]) && !IsVowel(word[index - 1]) {
        count := count + 1;
      }
      index := index + 1;
    }
    assert word[..index] == word;
  }

  /** `count_syllables`, lines 70-86, as a procedure. Only the counting loop
      is written out step by step (in `CountGroupStarts`); normalising the
      word and dropping its ending reuse the functions `Normalize` and
      `DropSilentEnding`. */
  method CountSyllablesLoop(w: string) returns (n: nat)
    ensures n == CountSyllables(w)
  {
    var word := Normalize(w);
    if word == [] {
      return 0;
    }
    word := DropSilentEnding(word);
    var count := CountGroupStarts(word);
    n := Max(1, count);
  }
}
