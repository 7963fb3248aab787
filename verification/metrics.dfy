/** The metrics calculator `calculate_text_metrics` (Code_TextAnalysis.py,
    lines 88-140).

    The sentence splitter and word tokenizer are a foreign library, so their
    outputs arrive as `sentences` and `tokens`; the regular-expression count
    of personal pronouns arrives as `pronouns`. Ratios are exact reals. */
module Metrics {
  import opened Chars
  import opened Syllables

  /** The thirteen numeric fields of the returned record, in source order. */
  datatype TextMetrics = TextMetrics(
    positiveScore: nat,
    negativeScore: nat,
    polarityScore: real,
    subjectivityScore: real,
    avgSentenceLength: real,
    percentageOfComplexWords: real,
    fogIndex: real,
    avgWordsPerSentence: real,
    complexWordCount: nat,
    wordCount: nat,
    syllablePerWord: real,
    personalPronouns: nat,
    avgWordLength: real)

  /** The record returned when there is nothing to measure (lines 95-103). */
  const Zero := TextMetrics(0, 0, 0.0, 0.0, 0.0, 0.0, 0.0, 0.0, 0, 0, 0.0, 0, 0.0)

  /** The guard added to the denominators of the two sentiment ratios. */
  const Epsilon: real := 0.000001

  /** The weight of the Gunning fog index. */
  const FogWeight: real := 0.4

  /** How many elements of `s` satisfy `p`: `sum(1 for x in s if p(x))`. */
  function Count<T>(s: seq<T>, p: T -> bool): (n: nat)
    ensures n <= |s|
    ensures n == 0 <==> forall i :: 0 <= i < |s| ==> !p(s[i])
    ensures n == |s| <==> forall i :: 0 <= i < |s| ==> p(s[i])
  {
    if |s| == 0 then 0
    else
      assert forall i :: 1 <= i < |s| ==> s[i] == s[1..][i - 1];
      (if p(s[0]) then 1 else 0) + Count(s[1..], p)
  }

  /** `sum(f(x) for x in s)` */
  function Sum<T>(s: seq<T>, f: T -> nat): nat {
    if |s| == 0 then 0 else f(s[0]) + Sum(s[1..], f)
  }

  /** A sum of terms that are each at least one is at least the number of
      terms. */
  lemma {:induction false} SumAtLeastLength<T>(s: seq<T>, f: T -> nat)
    requires forall i :: 0 <= i < |s| ==> f(s[i]) >= 1
    ensures Sum(s, f) >= |s|
  {
    if |s| > 0 {
      assert forall i :: 1 <= i < |s| ==> s[i] == s[1..][i - 1];
      SumAtLeastLength(s[1..], f);
    }
  }

  /** Summing over a concatenation adds the two sums. */
  lemma {:induction false} SumAppend<T>(a: seq<T>, b: seq<T>, f: T -> nat)
    ensures Sum(a + b, f) == Sum(a, f) + Sum(b, f)
  {
    if |a| == 0 {
      assert a + b == b;
    } else {
      assert (a + b)[1..] == a[1..] + b;
      SumAppend(a[1..], b, f);
    }
  }

  /** A single element sums to its own term. */
  lemma SumSingle<T>(x: T, f: T -> nat)
    ensures Sum([x], f) == f(x)
  {
    assert [x][1..] == [];
  }

  /** What the token filter lets through: an alphabetic, lower-case word
      that is not a stop word. */
  predicate IsWord(w: string, stopwords: set<string>) {
    IsAlpha(w) && NoUpper(w) && w !in stopwords
  }

  /** The test line 92 applies to a raw token. */
  predicate Keeps(t: string, stopwords: set<string>) {
    IsAlpha(t) && Lower(t) !in stopwords
  }

  /** The words of line 92: the lower-cased form of every alphabetic token
      whose lower-cased form is not a stop word, in token order. */
  function FilterWords(tokens: seq<string>, stopwords: set<string>): (words: seq<string>)
    ensures |words| <= |tokens|
    ensures forall i :: 0 <= i < |words| ==> IsWord(words[i], stopwords)
    ensures forall t :: t in tokens && Keeps(t, stopwords) ==> Lower(t) in words
    ensures forall w :: w in words ==> exists t :: t in tokens && Keeps(t, stopwords) && w == Lower(t)
  {
    if |tokens| == 0 then []
    else
      var t := tokens[0];
      var rest := FilterWords(tokens[1..], stopwords);
      assert tokens == [t] + tokens[1..];
      if Keeps(t, stopwords) then
        LowerOfAlpha(t);
        var words := [Lower(t)] + rest;
        assert forall i :: 1 <= i < |words| ==> words[i] == rest[i - 1];
        words
      else rest
  }

  /** Filtering is applied token by token, so it distributes over
      concatenation: the words keep the order of their tokens. */
  lemma {:induction false} FilterWordsAppend(a: seq<string>, b: seq<string>, stopwords: set<string>)
    ensures FilterWords(a + b, stopwords) == FilterWords(a, stopwords) + FilterWords(b, stopwords)
  {
    if |a| > 0 {
      assert (a + b)[1..] == a[1..] + b;
      FilterWordsAppend(a[1..], b, stopwords);
    } else {
      assert a + b == b;
    }
  }

  /** A single token yields its lower-cased form when it passes the test of
      line 92, and nothing otherwise. */
  lemma FilterWordsSingle(t: string, stopwords: set<string>)
    ensures FilterWords([t], stopwords) == if Keeps(t, stopwords) then [Lower(t)] else []
  {
    assert [t][1..] == [];
  }

  /** The number of words is the number of tokens that pass the filter. */
  lemma {:induction false} FilterWordsCount(tokens: seq<string>, stopwords: set<string>)
    ensures |FilterWords(tokens, stopwords)| == Count(tokens, t => Keeps(t, stopwords))
  {
    if |tokens| > 0 {
      FilterWordsCount(tokens[1..], stopwords);
    }
  }

  /** Filtering the words again keeps every one of them. */
  lemma {:induction false} FilterWordsIdempotent(tokens: seq<string>, stopwords: set<string>)
    ensures FilterWords(FilterWords(tokens, stopwords), stopwords) == FilterWords(tokens, stopwords)
  {
    if |tokens| > 0 {
      var t := tokens[0];
      var rest := FilterWords(tokens[1..], stopwords);
      FilterWordsIdempotent(tokens[1..], stopwords);
      if Keeps(t, stopwords) {
        var w := Lower(t);
        LowerOfAlpha(t);
        NoUpperLower(w);
        assert Keeps(w, stopwords) && Lower(w) == w;
        var words := [w] + rest;
        assert words[1..] == rest;
        assert FilterWords(words, stopwords) == [w] + FilterWords(rest, stopwords);
      }
    }
  }

  /** Counting filtered words that belong to a lexicon is counting the
      tokens that pass the filter and whose lower-cased form belongs to it. */
  lemma {:induction false} FilterWordsCountIn(tokens: seq<string>, stopwords: set<string>, lexicon: set<string>)
    ensures Count(FilterWords(tokens, stopwords), w => w in lexicon)
         == Count(tokens, t => Keeps(t, stopwords) && Lower(t) in lexicon)
  {
    if |tokens| > 0 {
      FilterWordsCountIn(tokens[1..], stopwords, lexicon);
      var rest := FilterWords(tokens[1..], stopwords);
      assert ([Lower(tokens[0])] + rest)[1..] == rest;
    }
  }

  /** `count_syllables(word) > 2` */
  predicate IsComplex(w: string) {
    CountSyllables(w) > 2
  }

  /** Counting complex filtered words is counting the tokens that pass the
      filter and whose lower-cased form is complex. */
  lemma {:induction false} FilterWordsCountComplex(tokens: seq<string>, stopwords: set<string>)
    ensures Count(FilterWords(tokens, stopwords), IsComplex)
         == Count(tokens, t => Keeps(t, stopwords) && IsComplex(Lower(t)))
  {
    if |tokens| > 0 {
      FilterWordsCountComplex(tokens[1..], stopwords);
      var rest := FilterWords(tokens[1..], stopwords);
      assert ([Lower(tokens[0])] + rest)[1..] == rest;
    }
  }

  /** The syllables of the filtered words are the syllables of the tokens
      that pass the filter: lower-casing never changes a count. */
  lemma {:induction false} FilterWordsSyllables(tokens: seq<string>, stopwords: set<string>)
    ensures Sum(FilterWords(tokens, stopwords), CountSyllables)
         == Sum(tokens, t => if Keeps(t, stopwords) then CountSyllables(t) else 0)
  {
    if |tokens| > 0 {
      FilterWordsSyllables(tokens[1..], stopwords);
      var rest := FilterWords(tokens[1..], stopwords);
      assert ([Lower(tokens[0])] + rest)[1..] == rest;
      CountSyllablesCaseInsensitive(tokens[0]);
    }
  }

  /** The letters of the filtered words are the letters of the tokens that
      pass the filter. */
  lemma {:induction false} FilterWordsLetters(tokens: seq<string>, stopwords: set<string>)
    ensures Sum(FilterWords(tokens, stopwords), w => |w|)
         == Sum(tokens, t => if Keeps(t, stopwords) then |t| else 0)
  {
    if |tokens| > 0 {
      FilterWordsLetters(tokens[1..], stopwords);
      var rest := FilterWords(tokens[1..], stopwords);
      assert ([Lower(tokens[0])] + rest)[1..] == rest;
    }
  }

  /** Every filtered word has at least one syllable. */
  lemma WordHasSyllable(w: string, stopwords: set<string>)
    requires IsWord(w, stopwords)
    ensures CountSyllables(w) >= 1
  {
    AlphaIsStripped(w);
  }

  /** `a / b` as a real number. */
  function Ratio(a: nat, b: nat): (r: real)
    requires b > 0
    ensures r * (b as real) == a as real
    ensures r >= 0.0
    ensures a <= b ==> r <= 1.0
    ensures a >= b ==> r >= 1.0
  {
    (a as real) / (b as real)
  }

  /** A quotient whose numerator is smaller in magnitude than `k` times its
      positive denominator lies strictly between `-k` and `k`. */
  lemma QuotientBelow(x: real, d: real, k: real)
    requires d > 0.0 && k > 0.0 && -(k * d) < x < k * d
    ensures -k < x / d < k
  {
    assert (x / d) * d == x;
  }

  /** Polarity, line 111: the margin of positive over negative words,
      relative to all scoring words, with the guard in the denominator. */
  function Polarity(positive: nat, negative: nat): (r: real)
    ensures -1.0 < r < 1.0
    ensures positive > negative <==> r > 0.0
    ensures positive < negative <==> r < 0.0
    ensures r * ((positive + negative) as real + Epsilon) == (positive - negative) as real
  {
    var d := (positive + negative) as real + Epsilon;
    var x := (positive - negative) as real;
    QuotientBelow(x, d, 1.0);
    x / d
  }

  /** Subjectivity, line 112: the share of scoring words among all words,
      with the guard in the denominator. */
  function Subjectivity(positive: nat, negative: nat, wordCount: nat): (r: real)
    ensures r >= 0.0
    ensures positive + negative == 0 <==> r == 0.0
    ensures positive + negative <= wordCount ==> r < 1.0
    ensures positive <= wordCount && negative <= wordCount ==> r < 2.0
    ensures r * (wordCount as real + Epsilon) == (positive + negative) as real
  {
    var d := wordCount as real + Epsilon;
    var x := (positive + negative) as real;
    var r := x / d;
    if positive + negative <= wordCount then
      QuotientBelow(x, d, 1.0);
      r
    else if positive <= wordCount && negative <= wordCount then
      QuotientBelow(x, d, 2.0);
      r
    else
      r
  }

  /** The bounds and identities every non-degenerate record satisfies. */
  predicate Consistent(m: TextMetrics) {
    && m.wordCount > 0
    && m.positiveScore <= m.wordCount
    && m.negativeScore <= m.wordCount
    && m.complexWordCount <= m.wordCount
    && -1.0 < m.polarityScore < 1.0
    && 0.0 <= m.subjectivityScore < 2.0
    && 0.0 <= m.percentageOfComplexWords <= 1.0
    && m.avgSentenceLength == m.avgWordsPerSentence
    && m.fogIndex == FogWeight * (m.avgSentenceLength + m.percentageOfComplexWords)
    && m.syllablePerWord >= 1.0
    && m.avgWordLength >= 1.0
  }

  /** Line 122: the syllables of the words, averaged over the word count. */
  function SyllablesPerWord(words: seq<string>): (r: real)
    requires |words| > 0
    requires forall i :: 0 <= i < |words| ==> CountSyllables(words[i]) >= 1
    ensures r >= 1.0
  {
    SumAtLeastLength(words, CountSyllables);
    Ratio(Sum(words, CountSyllables), |words|)
  }

  /** Line 124: the letters of the words, averaged over the word count. */
  function AverageWordLength(words: seq<string>): (r: real)
    requires |words| > 0
    requires forall i :: 0 <= i < |words| ==> |words[i]| >= 1
    ensures r >= 1.0
    ensures r * (|words| as real) == Sum(words, w => |w|) as real
  {
    SumAtLeastLength(words, w => |w|);
    Ratio(Sum(words, w => |w|), |words|)
  }

  /** The computation of lines 105-124 on a non-empty list of filtered
      words and a non-zero sentence count. */
  function Measure(
    sentenceCount: nat, words: seq<string>, pronouns: nat,
    positive: set<string>, negative: set<string>): (m: TextMetrics)
    requires sentenceCount > 0 && |words| > 0
    requires forall i :: 0 <= i < |words| ==> CountSyllables(words[i]) >= 1 && |words[i]| >= 1
    ensures Consistent(m)
    ensures m.wordCount == |words| && m.personalPronouns == pronouns
    ensures m.positiveScore == Count(words, w => w in positive)
    ensures m.negativeScore == Count(words, w => w in negative)
    ensures m.complexWordCount == Count(words, IsComplex)
    ensures m.polarityScore == Polarity(m.positiveScore, m.negativeScore)
    ensures m.subjectivityScore == Subjectivity(m.positiveScore, m.negativeScore, m.wordCount)
    ensures m.avgSentenceLength == Ratio(|words|, sentenceCount)
    ensures m.percentageOfComplexWords == Ratio(m.complexWordCount, |words|)
  {
    var wordCount := |words|;
    var positiveScore := Count(words, w => w in positive);
    var negativeScore := Count(words, w => w in negative);
    var avgSentenceLength := Ratio(wordCount, sentenceCount);
    var complexWordCount := Count(words, IsComplex);
    var percentageOfComplexWords := Ratio(complexWordCount, wordCount);
    TextMetrics(
      positiveScore,
      negativeScore,
      Polarity(positiveScore, negativeScore),
      Subjectivity(positiveScore, negativeScore, wordCount),
      avgSentenceLength,
      percentageOfComplexWords,
      FogWeight * (avgSentenceLength + percentageOfComplexWords),
      avgSentenceLength,
      complexWordCount,
      wordCount,
      SyllablesPerWord(words),
      pronouns,
      AverageWordLength(words))
  }

  /** `calculate_text_metrics(text, stopwords, positive_dict, negative_dict)`,
      given the sentences and raw tokens of `text` and its pronoun count.
      Every field of a non-degenerate record is stated over the raw tokens. */
  function CalculateTextMetrics(
    sentences: seq<string>, tokens: seq<string>, pronouns: nat,
    stopwords: set<string>, positive: set<string>, negative: set<string>): (m: TextMetrics)
    ensures |FilterWords(tokens, stopwords)| == 0 || |sentences| == 0 <==> m == Zero
    ensures m != Zero ==> Consistent(m)
    ensures m != Zero ==> m.wordCount == Count(tokens, t => Keeps(t, stopwords))
    ensures m != Zero ==> m.personalPronouns == pronouns
    ensures m != Zero ==>
      && m.positiveScore == Count(tokens, t => Keeps(t, stopwords) && Lower(t) in positive)
      && m.negativeScore == Count(tokens, t => Keeps(t, stopwords) && Lower(t) in negative)
      && m.complexWordCount == Count(tokens, t => Keeps(t, stopwords) && IsComplex(Lower(t)))
    ensures m != Zero ==>
      && m.polarityScore == Polarity(m.positiveScore, m.negativeScore)
      && m.subjectivityScore == Subjectivity(m.positiveScore, m.negativeScore, m.wordCount)
    ensures m != Zero ==>
      && m.avgSentenceLength == Ratio(m.wordCount, |sentences|)
      && m.percentageOfComplexWords == Ratio(m.complexWordCount, m.wordCount)
    ensures m != Zero ==>
      && m.syllablePerWord == Ratio(TokenSyllables(tokens, stopwords), m.wordCount)
      && m.avgWordLength == Ratio(TokenLetters(tokens, stopwords), m.wordCount)
  {
    var words := FilterWords(tokens, stopwords);
    if |words| == 0 || |sentences| == 0 then Zero
    else
      FilterWordsCount(tokens, stopwords);
      FilteredWordsHaveSyllables(words, stopwords);
      FilterWordsCountIn(tokens, stopwords, positive);
      FilterWordsCountIn(tokens, stopwords, negative);
      FilterWordsCountComplex(tokens, stopwords);
      FilterWordsSyllables(tokens, stopwords);
      FilterWordsLetters(tokens, stopwords);
      Measure(|sentences|, words, pronouns, positive, negative)
  }

  /** The syllables and letters of the tokens that pass the filter, the
      totals behind the two per-word averages. */
  function TokenSyllables(tokens: seq<string>, stopwords: set<string>): nat {
    Sum(tokens, t => if Keeps(t, stopwords) then CountSyllables(t) else 0)
  }

  function TokenLetters(tokens: seq<string>, stopwords: set<string>): nat {
    Sum(tokens, t => if Keeps(t, stopwords) then |t| else 0)
  }

  /** Each average of a non-degenerate record, multiplied back by its
      denominator, gives the total it averages over the raw tokens: words
      per sentence, complex words per word, syllables per word and letters
      per word. */
  lemma CalculateTextMetricsAverages(
    sentences: seq<string>, tokens: seq<string>, pronouns: nat,
    stopwords: set<string>, positive: set<string>, negative: set<string>, m: TextMetrics)
    requires m == CalculateTextMetrics(sentences, tokens, pronouns, stopwords, positive, negative)
    ensures m != Zero ==>
      && m.avgSentenceLength * (|sentences| as real) == m.wordCount as real
      && m.percentageOfComplexWords * (m.wordCount as real) == m.complexWordCount as real
      && m.syllablePerWord * (m.wordCount as real) == TokenSyllables(tokens, stopwords) as real
      && m.avgWordLength * (m.wordCount as real) == TokenLetters(tokens, stopwords) as real
  {
    if m != Zero {
      FilterWordsSyllables(tokens, stopwords);
      FilterWordsLetters(tokens, stopwords);
      SentenceLengthTimesSentences(m, sentences);
      ComplexShareTimesWords(m);
      SyllablesPerWordTimesWords(m, tokens, stopwords);
      WordLengthTimesWords(m, tokens, stopwords);
    }
  }

  // The four averages multiplied back by their denominators, one per lemma
  // so that each nonlinear step stays small.

  lemma SentenceLengthTimesSentences<S>(m: TextMetrics, sentences: seq<S>)
    requires |sentences| > 0 && m.avgSentenceLength == Ratio(m.wordCount, |sentences|)
    ensures m.avgSentenceLength * (|sentences| as real) == m.wordCount as real
  {
  }

  lemma ComplexShareTimesWords(m: TextMetrics)
    requires m.wordCount > 0 && m.percentageOfComplexWords == Ratio(m.complexWordCount, m.wordCount)
    ensures m.percentageOfComplexWords * (m.wordCount as real) == m.complexWordCount as real
  {
  }

  lemma SyllablesPerWordTimesWords(m: TextMetrics, tokens: seq<string>, stopwords: set<string>)
    requires m.wordCount > 0 && m.syllablePerWord == Ratio(TokenSyllables(tokens, stopwords), m.wordCount)
    ensures m.syllablePerWord * (m.wordCount as real) == TokenSyllables(tokens, stopwords) as real
  {
    SyllablesPerWordTimesWordsOf(m, tokens, t => if Keeps(t, stopwords) then CountSyllables(t) else 0);
  }

  lemma SyllablesPerWordTimesWordsOf<T>(m: TextMetrics, tokens: seq<T>, syllables: T -> nat)
    requires m.wordCount > 0 && m.syllablePerWord == Ratio(Sum(tokens, syllables), m.wordCount)
    ensures m.syllablePerWord * (m.wordCount as real) == Sum(tokens, syllables) as real
  {
  }

  lemma WordLengthTimesWords(m: TextMetrics, tokens: seq<string>, stopwords: set<string>)
    requires m.wordCount > 0 && m.avgWordLength == Ratio(TokenLetters(tokens, stopwords), m.wordCount)
    ensures m.avgWordLength * (m.wordCount as real) == TokenLetters(tokens, stopwords) as real
  {
  }

  lemma FilteredWordsHaveSyllables(words: seq<string>, stopwords: set<string>)
    requires forall i :: 0 <= i < |words| ==> IsWord(words[i], stopwords)
    ensures forall i :: 0 <= i < |words| ==> CountSyllables(words[i]) >= 1 && |words[i]| >= 1
  {
    forall i | 0 <= i < |words|
      ensures CountSyllables(words[i]) >= 1 && |words[i]| >= 1
    {
      WordHasSyllable(words[i], stopwords);
    }
  }

  /** The entries of a lexicon that could ever equal a filtered word. */
  function LowerCaseEntries(lexicon: set<string>): (r: set<string>)
    ensures r <= lexicon
    ensures forall e :: e in r ==> NoUpper(e)
  {
    set e | e in lexicon && NoUpper(e)
  }

  /** Against lower-case words, a lexicon scores exactly as its lower-case
      entries do. */
  lemma {:induction false} CountIgnoresUpperCaseEntries(words: seq<string>, lexicon: set<string>)
    requires forall i :: 0 <= i < |words| ==> NoUpper(words[i])
    ensures Count(words, w => w in lexicon) == Count(words, w => w in LowerCaseEntries(lexicon))
  {
    if |words| > 0 {
      CountIgnoresUpperCaseEntries(words[1..], lexicon);
    }
  }

  /** A sentiment entry holding an upper-case letter never contributes to a
      score: dropping all such entries leaves every metric unchanged. */
  lemma UpperCaseEntriesNeverScore(
    sentences: seq<string>, tokens: seq<string>, pronouns: nat,
    stopwords: set<string>, positive: set<string>, negative: set<string>)
    ensures CalculateTextMetrics(sentences, tokens, pronouns, stopwords, positive, negative)
         == CalculateTextMetrics(sentences, tokens, pronouns, stopwords, LowerCaseEntries(positive), LowerCaseEntries(negative))
  {
    var words := FilterWords(tokens, stopwords);
    CountIgnoresUpperCaseEntries(words, positive);
    CountIgnoresUpperCaseEntries(words, negative);
  }

  /** Counting against two lexicons counts the words of their union once and
      those of their intersection twice. */
  lemma {:induction false} CountTwoLexicons(words: seq<string>, a: set<string>, b: set<string>)
    ensures Count(words, w => w in a) + Count(words, w => w in b)
         == Count(words, w => w in a + b) + Count(words, w => w in a * b)
  {
    if |words| > 0 {
      CountTwoLexicons(words[1..], a, b);
    }
  }

  /** With disjoint sentiment lexicons no word scores twice, so the
      subjectivity of a non-degenerate text stays below one. */
  lemma SubjectivityBelowOneWhenDisjoint(
    sentences: seq<string>, tokens: seq<string>, pronouns: nat,
    stopwords: set<string>, positive: set<string>, negative: set<string>)
    requires positive !! negative
    ensures var m := CalculateTextMetrics(sentences, tokens, pronouns, stopwords, positive, negative);
      m != Zero ==> m.positiveScore + m.negativeScore <= m.wordCount && m.subjectivityScore < 1.0
  {
    var words := FilterWords(tokens, stopwords);
    CountTwoLexicons(words, positive, negative);
    assert positive * negative == {};
    assert Count(words, w => w in positive * negative) == 0;
  }
}
