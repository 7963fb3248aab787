/** The lexicon builders `load_stop_words` and `load_sentiment_words`
    (Code_TextAnalysis.py, lines 18-37), reduced to their per-line logic.
    A resource that may be absent is an `Option`: `None` stands for the
    `FileNotFoundError` branch, which yields the empty set. */
module Lexicon {
  import opened Chars

  datatype Option<T> = None | Some(value: T)

  /** One entry of the stop-word directory: its file name and its lines. */
  datatype ListFile = ListFile(name: string, lines: seq<string>)

  /** `filename.endswith('.txt')` */
  predicate IsTextFile(name: string) {
    |name| >= 4 && name[|name| - 4..] == ".txt"
  }

  /** `word.strip().lower()`, the form a stop word is stored in. */
  function StopWordForm(line: string): string {
    Lower(Strip(line))
  }

  /** Normalising a stored stop word again changes nothing, and a stored
      stop word has no upper-case letter. */
  lemma StopWordFormIdempotent(line: string)
    ensures StopWordForm(StopWordForm(line)) == StopWordForm(line)
    ensures NoUpper(StopWordForm(line))
  {
    var s := Strip(line);
    LowerKeepsStripped(s);
    LowerIdempotent(s);
    NoUpperLower(s);
  }

  lemma StoredFormsIdempotent(files: seq<ListFile>)
    ensures forall f, line :: f in files && line in f.lines ==>
              StopWordForm(StopWordForm(line)) == StopWordForm(line) && NoUpper(StopWordForm(line))
  {
    forall f, line | f in files && line in f.lines
      ensures StopWordForm(StopWordForm(line)) == StopWordForm(line) && NoUpper(StopWordForm(line))
    {
      StopWordFormIdempotent(line);
    }
  }

  /** `load_stop_words(stopwords_dir)`: the union, over the `.txt` files of
      the directory, of the stripped and lower-cased lines. `None` is a
      missing directory. */
  function LoadStopWords(dir: Option<seq<ListFile>>): (r: set<string>)
    ensures dir.None? ==> r == {}
    ensures dir.Some? ==>
              forall f, line :: f in dir.value && IsTextFile(f.name) && line in f.lines
                ==> StopWordForm(line) in r
    ensures dir.Some? ==>
              forall w :: w in r
                ==> exists f, line :: f in dir.value && IsTextFile(f.name) && line in f.lines && w == StopWordForm(line)
    ensures forall w :: w in r ==> StopWordForm(w) == w && NoUpper(w)
  {
    match dir
    case None => {}
    case Some(files) =>
      StoredFormsIdempotent(files);
      set f, line | f in files && IsTextFile(f.name) && line in f.lines :: StopWordForm(line)
  }

  /** `load_sentiment_words(file_path, stopwords)`: `None` is a missing file.
      Entries are stripped but keep their case. */
  function LoadSentimentWords(file: Option<seq<string>>, stopwords: set<string>): (r: set<string>)
    ensures file.None? ==> r == {}
    ensures forall w :: w in r ==> Strip(w) == w && Lower(w) !in stopwords
    ensures file.Some? ==>
              forall line :: line in file.value && StopWordForm(line) !in stopwords ==> Strip(line) in r
    ensures file.Some? ==> forall w :: w in r ==> exists line :: line in file.value && w == Strip(line)
  {
    match file
    case None => {}
    case Some(lines) =>
      set line | line in lines && StopWordForm(line) !in stopwords :: Strip(line)
  }

  /** No stop word survives into a sentiment lexicon built against the same
      stop-word set, whatever the sentiment file holds. */
  lemma SentimentExcludesStopWords(dir: Option<seq<ListFile>>, file: Option<seq<string>>)
    ensures LoadStopWords(dir) !! LoadSentimentWords(file, LoadStopWords(dir))
  {
  }
}
