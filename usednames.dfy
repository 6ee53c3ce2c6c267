/** Reading the log of code names already handed out (`load_used_code_names`) into the set of
    used adjectives and the set of used nouns. */
module UsedNames {
  import opened Common
  import opened Text

  /** Column 0 holds adjectives, column 1 nouns. */
  type Column = c: nat | c < 2

  /** A log line that records a name: exactly two whitespace-separated tokens. */
  predicate IsNameLine(line: string)
  {
    |Split(line)| == 2
  }

  /** What one line adds to the set of column `c`. */
  function LineEntry(line: string, c: Column): set<string>
  {
    if IsNameLine(line) then {Lower(Split(line)[c])} else {}
  }

  /** The set of column `c` after reading `lines` in order. */
  function UsedWords(lines: seq<string>, c: Column): set<string>
    decreases |lines|
  {
    if lines == [] then {}
    else UsedWords(lines[..|lines| - 1], c) + LineEntry(lines[|lines| - 1], c)
  }

  /** The used sets are exactly the lower-cased tokens of the two-token lines: a word is in
      column `c`'s set iff some line has two tokens and its token `c` lower-cases to the word.
      Lines with any other number of tokens contribute nothing. */
  lemma {:induction false} UsedWordsMember(lines: seq<string>, c: Column, w: string)
    ensures w in UsedWords(lines, c) <==>
      exists i :: 0 <= i < |lines| && IsNameLine(lines[i]) && Lower(Split(lines[i])[c]) == w
    decreases |lines|
  {
    if lines != [] {
      var init, last := lines[..|lines| - 1], lines[|lines| - 1];
      UsedWordsMember(init, c, w);
      if w in UsedWords(init, c) {
        var i :| 0 <= i < |init| && IsNameLine(init[i]) && Lower(Split(init[i])[c]) == w;
        assert lines[i] == init[i];
      }
      forall i | 0 <= i < |lines| - 1 && IsNameLine(lines[i]) && Lower(Split(lines[i])[c]) == w
        ensures w in UsedWords(init, c)
      {
        assert init[i] == lines[i];
      }
    }
  }

  /** Reading one more line adds that line's entry and nothing else. */
  lemma UsedWordsSnoc(lines: seq<string>, line: string, c: Column)
    ensures UsedWords(lines + [line], c) == UsedWords(lines, c) + LineEntry(line, c)
  {
    assert (lines + [line])[..|lines|] == lines;
  }

  /** A line that is not a two-token line leaves both sets unchanged. */
  lemma SkippedLine(lines: seq<string>, line: string)
    requires !IsNameLine(line)
    ensures UsedWords(lines + [line], 0) == UsedWords(lines, 0)
    ensures UsedWords(lines + [line], 1) == UsedWords(lines, 1)
  {
    UsedWordsSnoc(lines, line, 0);
    UsedWordsSnoc(lines, line, 1);
  }

  /** Reading the log as `load_used_code_names` does. A missing file gives two empty sets; a
      file that does not decode, and any other error, escape the function. */
  function Exclusions(log: FileRead): Result<(set<string>, set<string>)>
  {
    match log
    case Lines(lines) => Ok((UsedWords(lines, 0), UsedWords(lines, 1)))
    case NotFound => Ok(({}, {}))
    case Undecodable => Crash
    case Unreadable => Crash
  }

  /** `load_used_code_names`: one pass over the lines, adding the lower-cased first and second
      token of every line whose stripped text splits into exactly two tokens. */
  method LoadUsedCodeNames(log: FileRead) returns (r: Result<(set<string>, set<string>)>)
    ensures r == Exclusions(log)
    ensures r.Ok? ==> forall w :: w in r.value.0 ==> w == Lower(w)
    ensures r.Ok? ==> forall w :: w in r.value.1 ==> w == Lower(w)
  {
    match log {
      case NotFound =>
        return Ok(({}, {}));
      case Undecodable =>
        return Crash;
      case Unreadable =>
        return Crash;
      case Lines(lines) =>
        var usedAdjectives: set<string> := {};
        var usedNouns: set<string> := {};
        for k := 0 to |lines|
          invariant usedAdjectives == UsedWords(lines[..k], 0)
          invariant usedNouns == UsedWords(lines[..k], 1)
          invariant forall w :: w in usedAdjectives ==> w == Lower(w)
          invariant forall w :: w in usedNouns ==> w == Lower(w)
        {
          var words := Split(Strip(lines[k]));
          SplitStrip(lines[k]);
          if |words| == 2 {
            var adj, noun := words[0], words[1];
            LowerIdempotent(adj);
            LowerIdempotent(noun);
            usedAdjectives := usedAdjectives + {Lower(adj)};
            usedNouns := usedNouns + {Lower(noun)};
          }
          assert lines[..k + 1] == lines[..k] + [lines[k]];
          UsedWordsSnoc(lines[..k], lines[k], 0);
          UsedWordsSnoc(lines[..k], lines[k], 1);
        }
        assert lines[..|lines|] == lines;
        return Ok((usedAdjectives, usedNouns));
    }
  }

  /** A line made of two tokens, a space and a line terminator splits into those tokens. */
  lemma SplitNameLine(a: string, n: string)
    requires IsToken(a) && IsToken(n)
    ensures Split(a + " " + n + "\n") == [a, n]
  {
    var line := Join([a, n], [" "]);
    assert line == a + " " + n by {
      assert [a, n][1..] == [n] && [" "][1..] == [];
      assert Join([n], []) == n;
    }
    assert a + " " + n + "\n" == line + "\n";
    SplitTrailingSpace(line, "\n");
    SplitJoin([a, n], [" "]);
  }

  /** A generated name written back as its own log line (`"ADJ NOUN\n"`) is read as the two
      words it was made of, lower-cased, provided each word is a single token. */
  lemma AppendedNameIsRead(lines: seq<string>, adjective: string, noun: string)
    requires IsToken(adjective) && IsToken(noun)
    ensures UsedWords(lines + [Upper(adjective + " " + noun) + "\n"], 0) ==
            UsedWords(lines, 0) + {Lower(adjective)}
    ensures UsedWords(lines + [Upper(adjective + " " + noun) + "\n"], 1) ==
            UsedWords(lines, 1) + {Lower(noun)}
  {
    var a, n := Upper(adjective), Upper(noun);
    var line := Upper(adjective + " " + noun) + "\n";
    UpperConcat(adjective + " ", noun);
    UpperConcat(adjective, " ");
    UpperKeepsToken(adjective);
    UpperKeepsToken(noun);
    assert line == a + " " + n + "\n";
    SplitNameLine(a, n);
    LowerOfUpper(adjective);
    LowerOfUpper(noun);
    UsedWordsSnoc(lines, line, 0);
    UsedWordsSnoc(lines, line, 1);
  }

  /** A name whose adjective itself holds a space (a word list entry such as `ice cold`) is
      written as a line of three or more tokens, which the next run skips: such a name is
      never excluded again. */
  lemma MultiWordAdjectiveNotRecorded(lines: seq<string>, first: string, second: string, noun: string)
    requires IsToken(first) && IsToken(second) && IsToken(noun)
    ensures UsedWords(lines + [Upper(first + " " + second + " " + noun) + "\n"], 0) == UsedWords(lines, 0)
    ensures UsedWords(lines + [Upper(first + " " + second + " " + noun) + "\n"], 1) == UsedWords(lines, 1)
  {
    var f, s, n := Upper(first), Upper(second), Upper(noun);
    var line := Upper(first + " " + second + " " + noun) + "\n";
    UpperConcat(first + " " + second + " ", noun);
    UpperConcat(first + " " + second, " ");
    UpperConcat(first + " ", second);
    UpperConcat(first, " ");
    UpperKeepsToken(first);
    UpperKeepsToken(second);
    UpperKeepsToken(noun);
    var joined := Join([f, s, n], [" ", " "]);
    assert Upper(" ") == " ";
    assert joined == f + " " + s + " " + n by {
      assert [f, s, n][1..] == [s, n] && [s, n][1..] == [n];
      assert [" ", " "][1..] == [" "] && [" "][1..] == [];
      assert Join([s, n], [" "]) == s + " " + n;
    }
    assert line == joined + "\n";
    SplitTrailingSpace(joined, "\n");
    SplitJoin([f, s, n], [" ", " "]);
    SkippedLine(lines, line);
  }

  lemma TwoLines(l1: string, l2: string, c: Column)
    ensures UsedWords([l1, l2], c) == LineEntry(l1, c) + LineEntry(l2, c)
  {
    UsedWordsSnoc([], l1, c);
    UsedWordsSnoc([l1], l2, c);
    assert [] + [l1] == [l1] && [l1] + [l2] == [l1, l2];
  }

  lemma NameLineEntries(a: string, n: string, la: string, ln: string)
    requires IsToken(a) && IsToken(n) && Lower(a) == la && Lower(n) == ln
    ensures LineEntry(a + " " + n + "\n", 0) == {la}
    ensures LineEntry(a + " " + n + "\n", 1) == {ln}
  {
    SplitNameLine(a, n);
  }

  lemma RedFoxLine()
    ensures LineEntry("RED FOX\n", 0) == {"red"} && LineEntry("RED FOX\n", 1) == {"fox"}
  {
    assert IsToken("RED") && IsToken("FOX");
    assert Lower("RED") == "red" && Lower("FOX") == "fox";
    assert "RED" + " " + "FOX" + "\n" == "RED FOX\n";
    NameLineEntries("RED", "FOX", "red", "fox");
  }

  lemma BlueCatLine()
    ensures LineEntry("blue cat\n", 0) == {"blue"} && LineEntry("blue cat\n", 1) == {"cat"}
  {
    assert IsToken("blue") && IsToken("cat");
    assert Lower("blue") == "blue" && Lower("cat") == "cat";
    assert "blue" + " " + "cat" + "\n" == "blue cat\n";
    NameLineEntries("blue", "cat", "blue", "cat");
  }

  /** The log lines `RED FOX` and `blue cat` give the adjectives {red, blue} and the nouns
      {fox, cat}: the log is read case-insensitively. */
  lemma ExampleLog()
    ensures Exclusions(Lines(["RED FOX\n", "blue cat\n"])) == Ok(({"red", "blue"}, {"fox", "cat"}))
  {
    RedFoxLine();
    BlueCatLine();
    TwoLines("RED FOX\n", "blue cat\n", 0);
    TwoLines("RED FOX\n", "blue cat\n", 1);
    assert UsedWords(["RED FOX\n", "blue cat\n"], 0) == {"red", "blue"};
    assert UsedWords(["RED FOX\n", "blue cat\n"], 1) == {"fox", "cat"};
  }
}
