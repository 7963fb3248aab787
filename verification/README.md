# Text metrics engine — a Dafny model

This project models the deterministic core of `Code_TextAnalysis.py`. That
core turns the text of an article into thirteen numbers: sentiment scores,
readability indices and word statistics. It has three parts, plus a module
of string helpers.

- `Chars` (`chars.dfy`): the Python string operations the core calls. These
  are `str.lower`, `str.strip` and `str.isalpha`. The module also defines
  `Upper`, standing for `str.upper`. The code never calls `str.upper`;
  `Upper` is there only to state that the syllable count ignores case.
- `Syllables` (`syllables.dfy`): the syllable estimator `count_syllables`.
  It lower-cases and trims the word. A blank word has 0 syllables. Otherwise
  it drops one trailing `es` or `ed`, counts the vowel groups over
  `aeiouy`, and reports at least 1.
- `Lexicon` (`lexicon.dfy`): the per-line logic of `load_stop_words` and
  `load_sentiment_words`. A resource that may be absent is an `Option`, and
  `None` gives the empty set. Stop words are stripped and lower-cased.
  Sentiment words are stripped, keep their case, and are dropped when their
  lower-cased form is a stop word.
- `Metrics` (`metrics.dfy`): `calculate_text_metrics`. It filters the tokens
  into words and returns the all-zero record when there are no words or no
  sentences. Otherwise it counts positive, negative and complex words and
  derives the ratios. Ratios are exact `real`s, and the denominator guard
  `0.000001` is kept.

Everything is a pure function except two methods. `CountGroupStarts` is the
counting loop of lines 77-83 as written, and it is proved equal to the
functional definition. `CountSyllablesLoop` is `count_syllables` as a
procedure built on that loop, and it is proved equal to `CountSyllables`.

Some consequences of the code that the model proves:

- `count_syllables("cake")` is 2, because both `a` and `e` follow a
  consonant.
- `count_syllables("created")` is 1, because the `ed` ending is dropped and
  "creat" has one vowel group.
- The record has thirteen numeric fields. "AVG SENTENCE LENGTH" and
  "AVG NUMBER OF WORDS PER SENTENCE" always hold the same value.
- Sentiment lexicon entries keep their case while the words are
  lower-cased. As a result, an entry with an upper-case letter can never
  score (`UpperCaseEntriesNeverScore`).

## Model

| member | source | states |
|---|---|---|
| Chars.Lower | Code_TextAnalysis.py:70 | The result has the input's length, and each character is the lowered form of the input's character at that position. Only ASCII capitals change. |
| Chars.Strip | Code_TextAnalysis.py:70 | The result has no whitespace at either end. The input is its leading whitespace, then the result, then its trailing whitespace. A string with no whitespace at its ends is returned unchanged. |
| Chars.StripIsTheCore | Code_TextAnalysis.py:70 | Whenever a string is whitespace, then a middle with no whitespace at its ends, then whitespace, stripping returns exactly that middle. So the stripped form is unique. |
| Syllables.VowelGroupStarts | Code_TextAnalysis.py:77-83 | The number of vowel groups is at most the length of the string. It is zero exactly when the string has no vowel from `aeiouy`. |
| Syllables.DropSilentEnding | Code_TextAnalysis.py:74-75 | A word ending in `es` or `ed` loses exactly those two characters. Any other word is returned unchanged. |
| Syllables.CountSyllables | Code_TextAnalysis.py:68-86 | The result is 0 exactly when the lower-cased, trimmed word is empty. It is never more than that word's length, nor more than max(1, length of the root left after the ending is dropped). A root with no vowel gives exactly 1. |
| Syllables.VowelGroupStartsCounted | Code_TextAnalysis.py:79-83 | The count equals the size of the set of positions where a vowel follows a non-vowel or starts the string. |
| Syllables.VowelGroupStartsAtMostHalf | Code_TextAnalysis.py:79-83 | Two group starts always have a non-vowel between them. So a string of n characters has at most (n+1)/2 vowel groups. |
| Syllables.CountSyllablesCaseInsensitive | Code_TextAnalysis.py:70 | Upper-casing or lower-casing the word first never changes its syllable count. |
| Syllables.CountSyllablesOfRoot | Code_TextAnalysis.py:74-86 | For a non-blank word, the count is max(1, number of group-start positions) of the root. The `es`/`ed` ending is dropped once. The count is at most max(1, ceil(length of root / 2)). |
| Syllables.CakeHasTwoSyllables | Code_TextAnalysis.py:77-86 | `count_syllables("cake")` is 2. |
| Syllables.HappyHasTwoSyllables | Code_TextAnalysis.py:77-86 | `count_syllables("happy")` is 2, because `y` counts as a vowel. |
| Syllables.CreatedHasOneSyllable | Code_TextAnalysis.py:74-86 | `count_syllables("created")` is 1, computed on "creat". |
| Syllables.EsHasOneSyllable | Code_TextAnalysis.py:71-86 | `"es"` gives 1, because the blank test runs before the ending is dropped. `""` gives 0. |
| Syllables.CountGroupStarts | Code_TextAnalysis.py:77-83 | The loop as written, with its running count, computes the vowel-group count. |
| Syllables.CountSyllablesLoop | Code_TextAnalysis.py:68-86 | The procedure as written gives the same result as the functional estimator on every word. |
| Lexicon.StopWordFormIdempotent | Code_TextAnalysis.py:25 | Stripping and lower-casing a stored stop word again changes nothing. A stored stop word has no upper-case letter. |
| Lexicon.LoadStopWords | Code_TextAnalysis.py:18-28 | A missing directory gives the empty set. Every line of every `.txt` file contributes its stripped, lower-cased form. Every stop word comes from such a line and is its own normal form. |
| Lexicon.LoadSentimentWords | Code_TextAnalysis.py:30-37 | A missing file gives the empty set. Each entry is a stripped line that keeps its case, and its lower-cased form is not a stop word. Every line whose normal form is not a stop word is kept. |
| Lexicon.SentimentExcludesStopWords | Code_TextAnalysis.py:18-37 | A sentiment lexicon built against the loaded stop words shares no element with them. |
| Metrics.Count | Code_TextAnalysis.py:109-110 | The count of matching elements is at most the length. It is 0 exactly when nothing matches, and equals the length exactly when everything matches. |
| Metrics.SumAppend | Code_TextAnalysis.py:122-124 | The sum over a concatenation is the sum of the two sums. |
| Metrics.SumSingle | Code_TextAnalysis.py:122-124 | A single element sums to its own term. |
| Metrics.SumAtLeastLength | Code_TextAnalysis.py:122-124 | A sum of terms that are each at least 1 is at least the number of terms. |
| Metrics.FilterWords | Code_TextAnalysis.py:92 | Every word is alphabetic, lower-case and not a stop word. Every token that passes the test appears lower-cased. Every word is the lower-cased form of a passing token. There are no more words than tokens. |
| Metrics.FilterWordsAppend | Code_TextAnalysis.py:92 | Filtering distributes over concatenation of token lists, so the words keep their tokens' order. |
| Metrics.FilterWordsSingle | Code_TextAnalysis.py:92 | One token gives its lower-cased form if it is alphabetic and that form is not a stop word, and nothing otherwise. |
| Metrics.FilterWordsCount | Code_TextAnalysis.py:92 | The number of words equals the number of tokens that pass the test. |
| Metrics.FilterWordsIdempotent | Code_TextAnalysis.py:92 | Filtering the filtered words again returns them unchanged. |
| Metrics.FilterWordsCountIn | Code_TextAnalysis.py:92-110 | Counting the words that are in a lexicon gives the same number as counting the tokens that pass the filter and whose lower-cased form is in it. |
| Metrics.FilterWordsCountComplex | Code_TextAnalysis.py:92-117 | Counting the complex words gives the same number as counting the tokens that pass the filter and whose lower-cased form is complex. |
| Metrics.FilterWordsSyllables | Code_TextAnalysis.py:92-122 | The syllables of the words add up to the syllables of the passing tokens, since lower-casing never changes a count. |
| Metrics.FilterWordsLetters | Code_TextAnalysis.py:92-124 | The letters of the words add up to the letters of the passing tokens. |
| Metrics.WordHasSyllable | Code_TextAnalysis.py:116-122 | Every word that passes the filter has at least one syllable. |
| Metrics.Ratio | Code_TextAnalysis.py:115-118 | The quotient times the denominator gives back the numerator. It is non-negative, at most 1 when the numerator is at most the denominator, and at least 1 when the numerator is at least the denominator. |
| Metrics.Polarity | Code_TextAnalysis.py:111 | Polarity times (positives + negatives + 0.000001) is positives minus negatives. It lies strictly between -1 and 1. It is positive exactly when positives outnumber negatives, and negative exactly when negatives outnumber positives. |
| Metrics.Subjectivity | Code_TextAnalysis.py:112 | Subjectivity times (word count + 0.000001) is the sum of the two scores. It is non-negative and is 0 exactly when nothing scored. It is below 1 when the two scores together do not exceed the word count, and below 2 when each score is at most the word count. |
| Metrics.SyllablesPerWord | Code_TextAnalysis.py:122 | When every word has at least one syllable, the average is at least 1. |
| Metrics.AverageWordLength | Code_TextAnalysis.py:124 | When every word is non-empty, the average length is at least 1. The average times the word count is the total length of the words. |
| Metrics.Measure | Code_TextAnalysis.py:105-140 | Given words and sentences, the scores are the numbers of words found in each lexicon, and the complex-word count is the number of words with more than two syllables. Polarity and subjectivity are computed from those scores. Sentence length is the word count over the sentence count, and the complex share is the complex-word count over the word count. The record meets these bounds: the scores and the complex-word count are at most the word count; polarity is in (-1,1), subjectivity in [0,2) and the complex-word share in [0,1]; both sentence-length fields are equal; fog is 0.4 times (sentence length + complex share); syllables per word and average word length are at least 1. |
| Metrics.CalculateTextMetrics | Code_TextAnalysis.py:88-140 | The result is the all-zero record exactly when no token passes the filter or there is no sentence. Otherwise every field is stated over the raw tokens. The word count is the number of passing tokens. Each score is the number of passing tokens whose lower-cased form is in that lexicon. The complex-word count is the number of passing tokens whose lower-cased form has more than two syllables. Sentence length is word count over sentence count, and the complex share is complex count over word count. Syllables per word and average word length are the syllable and letter totals of the passing tokens over the word count. The pronoun count is passed through, and the bounds above hold. |
| Metrics.CalculateTextMetricsAverages | Code_TextAnalysis.py:115-124 | For a non-degenerate record, each average times its denominator gives back its total. Sentence length times the sentence count is the word count. The complex share times the word count is the complex count. Syllables per word times the word count is the syllable total of the passing tokens. Average word length times the word count is their letter total. |
| Metrics.CountIgnoresUpperCaseEntries | Code_TextAnalysis.py:109-110 | Against lower-case words, a lexicon scores exactly as its lower-case entries alone do. |
| Metrics.UpperCaseEntriesNeverScore | Code_TextAnalysis.py:92-110 | Removing every sentiment entry that holds an upper-case letter leaves every metric unchanged. |
| Metrics.CountTwoLexicons | Code_TextAnalysis.py:109-110 | The two scores together equal the count against the union of the lexicons plus the count against their intersection. |
| Metrics.SubjectivityBelowOneWhenDisjoint | Code_TextAnalysis.py:109-112 | With disjoint lexicons, the two scores together never exceed the word count. The subjectivity of a non-degenerate text is then below 1. |

## Left out

- `extract_article_text` (lines 39-66): network I/O and HTML scraping. The core receives text that was already fetched.
- `main` (lines 142-201): spreadsheet and CSV I/O, resume bookkeeping, the random delay and the tokenizer data download.
- Directory listing and file reading in the loaders (lines 22-24, 33): a directory is given as a sequence of (file name, lines) pairs, and a file as its lines. The `.txt` name filter is modelled.
- Opening a listed `.txt` entry can fail. A `FileNotFoundError` (a dangling link, or a file removed after the listing) is caught at line 26, and the words read from earlier files are returned. Other errors (`IsADirectoryError`, `PermissionError`, or `NotADirectoryError` from `os.listdir`) propagate. The model has neither case: every listed file is read in full.
- Sentence and word tokenization (lines 91-92): these are a foreign library. Their outputs are inputs to `CalculateTextMetrics`.
- The pronoun count (line 123): a regular expression with word-boundary and case-folding semantics. It is an opaque natural-number input, passed through to the record.
- Floating point: ratios are exact reals. Rounding in the source can differ in the last bits, and the bounds are proved for the exact values.
- Chars.Lower: lowers ASCII letters only. Python also lowers accented Latin-1 and other Unicode capitals.
- Chars.IsAlpha: accepts ASCII letters only. Python's `isalpha` also accepts other Unicode letters, so such tokens are dropped here but kept by the source.
- Chars.Strip: strips Python's whitespace characters within the Latin-1 range only. That range covers everything a Latin-1 word list can hold, but a token could contain other Unicode spaces.
- The error messages printed when the stop-word directory or a sentiment file is missing (lines 27, 36): console output. The model keeps the empty set that follows.
- Metrics.SyllablesPerWord: its contract gives only the lower bound of 1, not the value of line 122. The value, syllable total over word count, is stated by `CalculateTextMetrics` and `CalculateTextMetricsAverages` over the raw tokens. Multiplying this function's result back by the word count, with the syllable counter's definition in scope, exhausts the solver.
- Metrics.Measure: its contract does not give the values of the per-word syllable average or the average word length. Both are stated only by `CalculateTextMetrics` over the raw tokens, which unfolds `Measure`. Adding either equation to `Measure`'s own contract exhausts the solver.
