/** Loading a word list from a local file (`load_words_from_file`) and choosing, per word
    category, between that file and the remote list (`get_words`). */
module WordList {
  import opened Common
  import opened Text

  /** One line's contribution: its stripped form, unless that is empty. */
  function LineWord(line: string): seq<string>
  {
    var w := Strip(line);
    if w == [] then [] else [w]
  }

  /** The list comprehension of `load_words_from_file`: the stripped lines whose stripped form
      is not empty, in file order. */
  function LoadWords(lines: seq<string>): (words: seq<string>)
    ensures forall w :: w in words ==> w != [] && IsStripped(w)
    ensures |words| <= |lines|
  {
    if lines == [] then [] else LineWord(lines[0]) + LoadWords(lines[1..])
  }

  /** The filter maps concatenated files to concatenated lists; with `LoadWords([line]) ==
      LineWord(line)` this says the result keeps the order of the lines. */
  lemma {:induction false} LoadWordsAppend(a: seq<string>, b: seq<string>)
    ensures LoadWords(a + b) == LoadWords(a) + LoadWords(b)
    decreases |a|
  {
    if a == [] {
      assert a + b == b;
    } else {
      assert (a + b)[0] == a[0] && (a + b)[1..] == a[1..] + b;
      LoadWordsAppend(a[1..], b);
    }
  }

  lemma LoadWordsSingle(line: string)
    ensures LoadWords([line]) == LineWord(line)
  {
    assert [line][1..] == [];
  }

  /** A word is loaded exactly when some line strips to it and it is not empty. */
  lemma {:induction false} LoadWordsMember(lines: seq<string>, w: string)
    ensures w in LoadWords(lines) <==> w != [] && exists i :: 0 <= i < |lines| && Strip(lines[i]) == w
    decreases |lines|
  {
    if lines != [] {
      assert LoadWords(lines) == LineWord(lines[0]) + LoadWords(lines[1..]);
      LoadWordsMember(lines[1..], w);
      if w != [] && Strip(lines[0]) != w {
        if i :| 0 <= i < |lines| && Strip(lines[i]) == w {
          assert Strip(lines[1..][i - 1]) == w;
        }
      }
      forall i | 1 <= i < |lines| && Strip(lines[i]) == w
        ensures exists j :: 0 <= j < |lines[1..]| && Strip(lines[1..][j]) == w
      {
        assert lines[1..][i - 1] == lines[i];
      }
    }
  }

  /** A file that already holds one clean word per line loads unchanged. */
  lemma {:induction false} LoadWordsOfCleanLines(lines: seq<string>)
    requires forall i :: 0 <= i < |lines| ==> lines[i] != [] && IsStripped(lines[i])
    ensures LoadWords(lines) == lines
    decreases |lines|
  {
    if lines != [] {
      var head, tail := lines[0], lines[1..];
      StripIdempotent(head);
      assert LineWord(head) == [head];
      LoadWordsOfCleanLines(tail);
      assert LoadWords(lines) == [head] + tail;
      assert lines == [head] + tail;
    }
  }

  /** `load_words_from_file`: a missing file and a file that does not decode are reported and
      give the empty list; any other error opening or reading the file is not caught. */
  function LoadWordsFromFile(file: FileRead): (r: Result<seq<string>>)
    ensures r.Crash? <==> file.Unreadable?
    ensures file.Lines? ==> r == Ok(LoadWords(file.lines))
    ensures file.NotFound? || file.Undecodable? ==> r == Ok([])
  {
    match file
    case Lines(lines) => Ok(LoadWords(lines))
    case NotFound => Ok([])
    case Undecodable => Ok([])
    case Unreadable => Crash
  }

  /** `LoadWordsMember` for every word of a readable file at once. */
  lemma LoadWordsMembers(read: FileRead)
    ensures read.Lines? ==> forall w :: w in LoadWords(read.lines) <==>
      w != [] && exists i :: 0 <= i < |read.lines| && Strip(read.lines[i]) == w
  {
    if read.Lines? {
      forall w: string
        ensures w in LoadWords(read.lines) <==> w != [] && exists i :: 0 <= i < |read.lines| && Strip(read.lines[i]) == w
      {
        LoadWordsMember(read.lines, w);
      }
    }
  }

  /** One word category in `get_words`. With a path, the local file decides: an unreadable file
      is the only crash, a missing or undecodable one gives no words, and a readable one gives
      exactly its non-empty stripped lines, no more of them than the file has lines. Without a
      path, the list the remote fetch produced is used as it is. */
  function GetWords(file: Option<string>, read: FileRead, fetched: seq<string>): (r: Result<seq<string>>)
    ensures r.Crash? <==> Given(file) && read.Unreadable?
    ensures Given(file) && (read.NotFound? || read.Undecodable?) ==> r == Ok([])
    ensures Given(file) && read.Lines? ==>
      && r.Ok? && |r.value| <= |read.lines|
      && forall w :: w in r.value <==> w != [] && exists i :: 0 <= i < |read.lines| && Strip(read.lines[i]) == w
    ensures !Given(file) ==> r == Ok(fetched)
  {
    if Given(file) then LoadWordsMembers(read); LoadWordsFromFile(read) else Ok(fetched)
  }
}
