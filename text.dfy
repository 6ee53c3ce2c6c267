/** The string operations the generator relies on: Python's whitespace class, `str.strip()`,
    `str.split()` with no argument, and `str.lower()` / `str.upper()` restricted to ASCII. */
module Text {

  /** Python's `str.isspace`, the class that `strip()` and `split()` remove and split on. */
  predicate IsSpace(c: char)
  {
    var k := c as int;
    k == 0x20 || 0x09 <= k <= 0x0D || 0x1C <= k <= 0x1F || k == 0x85 || k == 0xA0 ||
    k == 0x1680 || 0x2000 <= k <= 0x200A || k == 0x2028 || k == 0x2029 || k == 0x202F ||
    k == 0x205F || k == 0x3000
  }

  predicate AllSpace(s: string)
  {
    forall i :: 0 <= i < |s| ==> IsSpace(s[i])
  }

  predicate NoSpace(s: string)
  {
    forall i :: 0 <= i < |s| ==> !IsSpace(s[i])
  }

  /** A piece that `split()` can produce: non-empty and free of whitespace. */
  predicate IsToken(s: string)
  {
    s != [] && NoSpace(s)
  }

  /** What `strip()` leaves: no whitespace at either end. */
  predicate IsStripped(s: string)
  {
    s == [] || (!IsSpace(s[0]) && !IsSpace(s[|s| - 1]))
  }

  // ---------------------------------------------------------------- case mapping

  function LowerChar(c: char): char
  {
    if 'A' <= c <= 'Z' then (c as int + 32) as char else c
  }

  function UpperChar(c: char): char
  {
    if 'a' <= c <= 'z' then (c as int - 32) as char else c
  }

  function Lower(s: string): string
  {
    seq(|s|, i requires 0 <= i < |s| => LowerChar(s[i]))
  }

  function Upper(s: string): string
  {
    seq(|s|, i requires 0 <= i < |s| => UpperChar(s[i]))
  }

  /** Lower-casing twice is lower-casing once. */
  lemma LowerIdempotent(s: string)
    ensures Lower(Lower(s)) == Lower(s)
  {
  }

  /** A word read back from an upper-cased log line lower-cases to the word's own
      lower-case form. */
  lemma LowerOfUpper(s: string)
    ensures Lower(Upper(s)) == Lower(s)
  {
  }

  lemma UpperConcat(a: string, b: string)
    ensures Upper(a + b) == Upper(a) + Upper(b)
  {
  }

  /** Case mapping neither creates nor removes whitespace, so a token stays a token. */
  lemma UpperKeepsToken(s: string)
    ensures IsToken(Upper(s)) <==> IsToken(s)
  {
    assert forall i :: 0 <= i < |s| ==> (IsSpace(Upper(s)[i]) <==> IsSpace(s[i]));
  }

  // ---------------------------------------------------------------- strip()

  /** How many whitespace characters `s` starts with. */
  function LeadingSpaces(s: string): (k: nat)
    ensures k <= |s| && AllSpace(s[..k])
    ensures k < |s| ==> !IsSpace(s[k])
  {
    if s != [] && IsSpace(s[0]) then 1 + LeadingSpaces(s[1..]) else 0
  }

  /** How many whitespace characters `s` ends with. */
  function TrailingSpaces(s: string): (k: nat)
    ensures k <= |s| && AllSpace(s[|s| - k..])
    ensures k < |s| ==> !IsSpace(s[|s| - 1 - k])
  {
    if s != [] && IsSpace(s[|s| - 1]) then 1 + TrailingSpaces(s[..|s| - 1]) else 0
  }

  /** `r` sits in `s` at offset `i`, with only whitespace before and after it. */
  predicate Flanks(s: string, i: int, r: string)
  {
    0 <= i && i + |r| <= |s| && s[i..i + |r|] == r && AllSpace(s[..i]) && AllSpace(s[i + |r|..])
  }

  /** Python's `s.strip()`: `s` without its leading and trailing whitespace. */
  function Strip(s: string): (r: string)
    ensures IsStripped(r)
    ensures exists i :: Flanks(s, i, r)
  {
    var lead := LeadingSpaces(s);
    var t := s[lead..];
    var trail := TrailingSpaces(t);
    var r := t[..|t| - trail];
    assert Flanks(s, lead, r) by {
      assert s[lead + |r|..] == t[|t| - trail..];
    }
    r
  }

  /** The two properties in Strip's contract determine its result: any stripped piece of `s`
      surrounded by whitespace alone is `Strip(s)`. */
  lemma StripUnique(s: string, i: int, r: string)
    requires IsStripped(r) && Flanks(s, i, r)
    ensures r == Strip(s)
  {
    var r0 := Strip(s);
    var i0 :| Flanks(s, i0, r0);
    FlankedSpan(s, i, r);
    FlankedSpan(s, i0, r0);
    if r != [] {
      assert i == i0;
      assert i + |r| == i0 + |r0|;
    }
  }

  /** Where a stripped piece flanked by whitespace lies in `s`: nowhere when `s` is all
      whitespace, otherwise from the first to the last character that is not whitespace. */
  lemma FlankedSpan(s: string, i: int, r: string)
    requires IsStripped(r) && Flanks(s, i, r)
    ensures r == [] <==> AllSpace(s)
    ensures r != [] ==>
      && (forall k :: 0 <= k < i ==> IsSpace(s[k]))
      && !IsSpace(s[i]) && !IsSpace(s[i + |r| - 1])
      && (forall k :: i + |r| <= k < |s| ==> IsSpace(s[k]))
  {
    forall k | 0 <= k < i
      ensures IsSpace(s[k])
    {
      assert s[..i][k] == s[k];
    }
    forall k | i + |r| <= k < |s|
      ensures IsSpace(s[k])
    {
      assert s[i + |r|..][k - i - |r|] == s[k];
    }
    if r != [] {
      assert s[i] == r[0] && s[i + |r| - 1] == r[|r| - 1];
    }
  }

  /** A string that is already stripped is left alone, so stripping twice is stripping once. */
  lemma StripIdempotent(s: string)
    ensures Strip(s) == s <==> IsStripped(s)
    ensures Strip(Strip(s)) == Strip(s)
  {
    if IsStripped(s) {
      assert s[0..|s|] == s;
      StripUnique(s, 0, s);
    }
    var r := Strip(s);
    assert r[0..|r|] == r;
    StripUnique(r, 0, r);
  }

  // ---------------------------------------------------------------- split()

  /** Length of the maximal whitespace-free prefix of `s`. */
  function WordLength(s: string): (k: nat)
    ensures k <= |s| && NoSpace(s[..k])
    ensures k < |s| ==> IsSpace(s[k])
  {
    if s == [] || IsSpace(s[0]) then 0 else 1 + WordLength(s[1..])
  }

  /** Python's `s.split()` with no separator: the maximal runs of non-whitespace, in order. */
  function Split(s: string): (r: seq<string>)
    ensures forall t :: t in r ==> IsToken(t)
    decreases |s|
  {
    if s == [] then []
    else if IsSpace(s[0]) then Split(s[1..])
    else
      var k := WordLength(s);
      [s[..k]] + Split(s[k..])
  }

  /** The tokens with one separator between each neighbouring pair; a separator may be any
      run of whitespace, such as a single space, a tab or several spaces. */
  function Join(tokens: seq<string>, separators: seq<string>): string
    requires |separators| == if tokens == [] then 0 else |tokens| - 1
  {
    if |tokens| <= 1 then (if tokens == [] then "" else tokens[0])
    else tokens[0] + separators[0] + Join(tokens[1..], separators[1..])
  }

  lemma {:induction false} WordLengthExtend(s: string, u: string)
    requires WordLength(s) < |s| || u == [] || IsSpace(u[0])
    ensures WordLength(s + u) == WordLength(s)
  {
    if s == [] {
    } else if IsSpace(s[0]) {
    } else {
      assert (s + u)[1..] == s[1..] + u;
      WordLengthExtend(s[1..], u);
    }
  }

  lemma {:induction false} SplitAllSpace(s: string)
    requires AllSpace(s)
    ensures Split(s) == []
    decreases |s|
  {
    if s != [] {
      SplitAllSpace(s[1..]);
    }
  }

  /** Leading whitespace does not change the tokens. */
  lemma {:induction false} SplitLeadingSpace(w: string, s: string)
    requires AllSpace(w)
    ensures Split(w + s) == Split(s)
    decreases |w|
  {
    if w == [] {
      assert w + s == s;
    } else {
      assert (w + s)[1..] == w[1..] + s;
      SplitLeadingSpace(w[1..], s);
    }
  }

  /** Trailing whitespace does not change the tokens. */
  lemma {:induction false} SplitTrailingSpace(s: string, w: string)
    requires AllSpace(w)
    ensures Split(s + w) == Split(s)
    decreases |s|
  {
    if s == [] {
      assert s + w == w;
      SplitAllSpace(w);
    } else if IsSpace(s[0]) {
      assert (s + w)[1..] == s[1..] + w;
      SplitTrailingSpace(s[1..], w);
    } else {
      var k := WordLength(s);
      WordLengthExtend(s, w);
      assert (s + w)[..k] == s[..k];
      assert (s + w)[k..] == s[k..] + w;
      SplitTrailingSpace(s[k..], w);
    }
  }

  /** `line.strip().split()` and `line.split()` give the same tokens. */
  lemma SplitStrip(s: string)
    ensures Split(Strip(s)) == Split(s)
  {
    var r := Strip(s);
    var i :| Flanks(s, i, r);
    SplitFlanked(s, i, r);
  }

  lemma SplitFlanked(s: string, i: int, r: string)
    requires Flanks(s, i, r)
    ensures Split(r) == Split(s)
  {
    var pre, post := s[..i], s[i + |r|..];
    assert s[i..] == r + post by {
      assert s[i..] == s[i..i + |r|] + s[i + |r|..];
    }
    assert s == pre + s[i..];
    SplitLeadingSpace(pre, r + post);
    SplitTrailingSpace(r, post);
  }

  /** A single token splits to itself, also when followed by whitespace and more text. */
  lemma SplitToken(t: string, rest: string)
    requires IsToken(t)
    requires rest == [] || IsSpace(rest[0])
    ensures Split(t + rest) == [t] + Split(rest)
  {
    WordLengthExtend(t, rest);
    assert WordLength(t) == |t|;
    assert (t + rest)[..|t|] == t;
    assert (t + rest)[|t|..] == rest;
  }

  /** Splitting undoes joining, whatever run of whitespace separates the tokens: `RED FOX`,
      `RED\tFOX` and `RED   FOX` all split into `RED` and `FOX`. */
  lemma {:induction false} SplitJoin(tokens: seq<string>, separators: seq<string>)
    requires |separators| == if tokens == [] then 0 else |tokens| - 1
    requires forall t :: t in tokens ==> IsToken(t)
    requires forall w :: w in separators ==> w != [] && AllSpace(w)
    ensures Split(Join(tokens, separators)) == tokens
    decreases |tokens|
  {
    if tokens == [] {
    } else if |tokens| == 1 {
      SplitToken(tokens[0], "");
      assert tokens[0] + "" == tokens[0];
    } else {
      var sep, rest := separators[0], Join(tokens[1..], separators[1..]);
      assert separators[0] in separators;
      assert forall w :: w in separators[1..] ==> w in separators;
      assert tokens[0] + sep + rest == tokens[0] + (sep + rest);
      SplitToken(tokens[0], sep + rest);
      SplitLeadingSpace(sep, rest);
      SplitJoin(tokens[1..], separators[1..]);
      assert tokens == [tokens[0]] + tokens[1..];
    }
  }
}
