/** Java's String.split("\\s+"): splitting a line around runs of whitespace. */
module WhitespaceSplit {

  /** The characters of the regular-expression class \s: space, tab, newline, vertical tab, form feed, carriage return. */
  predicate IsWhitespace(c: char)
  {
    c == ' ' || c == '\t' || c == '\n' || c == '\r' || c as int == 11 || c as int == 12
  }

  /** A string without whitespace. */
  predicate IsWord(w: string)
  {
    forall i :: 0 <= i < |w| ==> !IsWhitespace(w[i])
  }

  /** A non-empty run of whitespace. */
  predicate IsSeparator(sep: string)
  {
    |sep| > 0 && forall i :: 0 <= i < |sep| ==> IsWhitespace(sep[i])
  }

  /** The length of the longest prefix of s without whitespace. */
  function WordLength(s: string): (n: nat)
    ensures n <= |s|
    ensures IsWord(s[..n])
    ensures n < |s| ==> IsWhitespace(s[n])
  {
    if s == [] || IsWhitespace(s[0]) then 0
    else
      var n := 1 + WordLength(s[1..]);
      assert s[..n] == [s[0]] + s[1..][..n - 1];
      n
  }

  /** The length of the longest prefix of s made of whitespace. */
  function RunLength(s: string): (n: nat)
    ensures n <= |s|
    ensures forall i :: 0 <= i < n ==> IsWhitespace(s[i])
    ensures n < |s| ==> !IsWhitespace(s[n])
    ensures |s| > 0 && IsWhitespace(s[0]) ==> n > 0
  {
    if s == [] || !IsWhitespace(s[0]) then 0 else 1 + RunLength(s[1..])
  }

  /** The pieces between the maximal whitespace runs of s, before Java drops trailing empty strings. */
  function Pieces(s: string): seq<string>
    decreases |s|
  {
    var w := WordLength(s);
    if w == |s| then [s]
    else
      var rest := s[w..];
      [s[..w]] + Pieces(rest[RunLength(rest)..])
  }

  /** Drops the empty strings at the end of a list of pieces. */
  function DropTrailingEmpty(ts: seq<string>): (r: seq<string>)
    ensures |r| <= |ts| && r == ts[..|r|]
    ensures r == [] || r[|r| - 1] != ""
    ensures forall i :: |r| <= i < |ts| ==> ts[i] == ""
  {
    if ts != [] && ts[|ts| - 1] == "" then DropTrailingEmpty(ts[..|ts| - 1]) else ts
  }

  /** String.split("\\s+"): a line without whitespace splits into itself (even the empty line);
      otherwise into the pieces around the whitespace runs, trailing empty pieces dropped. A
      leading run gives a leading empty piece. */
  function Split(s: string): seq<string>
  {
    if WordLength(s) == |s| then [s] else DropTrailingEmpty(Pieces(s))
  }

  /** Words joined by separators: words[0] + seps[0] + words[1] + ... */
  function Join(words: seq<string>, seps: seq<string>): string
    requires |words| == |seps| + 1
    decreases |seps|
  {
    if seps == [] then words[0] else words[0] + seps[0] + Join(words[1..], seps[1..])
  }

  lemma {:induction false} WordLengthOfWord(w: string, t: string)
    requires IsWord(w)
    requires t == [] || IsWhitespace(t[0])
    ensures WordLength(w + t) == |w|
    decreases |w|
  {
    if w != [] {
      assert (w + t)[1..] == w[1..] + t;
      WordLengthOfWord(w[1..], t);
    } else {
      assert w + t == t;
    }
  }

  lemma {:induction false} RunLengthOfSeparator(sep: string, t: string)
    requires forall i :: 0 <= i < |sep| ==> IsWhitespace(sep[i])
    requires t == [] || !IsWhitespace(t[0])
    ensures RunLength(sep + t) == |sep|
    decreases |sep|
  {
    if sep != [] {
      assert (sep + t)[1..] == sep[1..] + t;
      RunLengthOfSeparator(sep[1..], t);
    } else {
      assert sep + t == t;
    }
  }

  /** Splitting is the inverse of joining: words without whitespace, joined by whitespace runs,
      come back as the same pieces, provided no inner word is empty (two runs would merge). */
  lemma {:induction false} PiecesOfJoin(words: seq<string>, seps: seq<string>)
    requires |words| == |seps| + 1
    requires forall i :: 0 <= i < |words| ==> IsWord(words[i])
    requires forall i :: 0 <= i < |seps| ==> IsSeparator(seps[i])
    requires forall i :: 0 < i < |words| - 1 ==> words[i] != ""
    ensures Pieces(Join(words, seps)) == words
    decreases |seps|
  {
    var s := Join(words, seps);
    if seps == [] {
      assert s == words[0] + [];
      WordLengthOfWord(words[0], []);
    } else {
      var tail := Join(words[1..], seps[1..]);
      assert s == words[0] + (seps[0] + tail);
      assert tail == [] || !IsWhitespace(tail[0]) by {
        if seps[1..] == [] {
          assert tail == words[1];
        } else {
          assert words[1] != "";
          assert tail == words[1] + (seps[1] + Join(words[2..], seps[2..]));
          assert tail[0] == words[1][0];
        }
      }
      WordLengthOfWord(words[0], seps[0] + tail);
      assert s[|words[0]|..] == seps[0] + tail;
      RunLengthOfSeparator(seps[0], tail);
      assert (seps[0] + tail)[|seps[0]|..] == tail;
      assert s[..|words[0]|] == words[0];
      PiecesOfJoin(words[1..], seps[1..]);
    }
  }

  /** When there is a separator, the first word ends before the end of the line. */
  lemma FirstWordEndsEarly(words: seq<string>, seps: seq<string>)
    requires |words| == |seps| + 1 && seps != []
    requires IsWord(words[0]) && IsSeparator(seps[0])
    ensures WordLength(Join(words, seps)) < |Join(words, seps)|
  {
    var tail := seps[0] + Join(words[1..], seps[1..]);
    assert Join(words, seps) == words[0] + tail;
    WordLengthOfWord(words[0], tail);
  }

  /** A line of words separated by whitespace runs, its last word non-empty, splits back into those words. */
  lemma SplitOfJoin(words: seq<string>, seps: seq<string>)
    requires |words| == |seps| + 1
    requires forall i :: 0 <= i < |words| ==> IsWord(words[i])
    requires forall i :: 0 <= i < |seps| ==> IsSeparator(seps[i])
    requires forall i :: 0 < i < |words| ==> words[i] != ""
    ensures Split(Join(words, seps)) == words
  {
    if seps == [] {
      assert Join(words, seps) == words[0] + [];
      WordLengthOfWord(words[0], []);
    } else {
      FirstWordEndsEarly(words, seps);
      PiecesOfJoin(words, seps);
      DropNothing(words);
    }
  }

  /** Joining one more word appends its separator and the word. */
  lemma {:induction false} JoinSnoc(words: seq<string>, seps: seq<string>, sep: string, w: string)
    requires |words| == |seps| + 1
    ensures Join(words + [w], seps + [sep]) == Join(words, seps) + sep + w
    decreases |seps|
  {
    if seps == [] {
      assert (words + [w])[1..] == [w];
      assert (seps + [sep])[1..] == [];
    } else {
      assert (words + [w])[1..] == words[1..] + [w];
      assert (seps + [sep])[1..] == seps[1..] + [sep];
      JoinSnoc(words[1..], seps[1..], sep, w);
    }
  }

  /** Trailing whitespace yields no token: a line of words followed by a whitespace run splits
      into the same words as the line without it. */
  lemma SplitOfJoinWithTrailing(words: seq<string>, seps: seq<string>, trailing: string)
    requires |words| == |seps| + 1
    requires forall i :: 0 <= i < |words| ==> IsWord(words[i])
    requires forall i :: 0 <= i < |seps| ==> IsSeparator(seps[i])
    requires forall i :: 0 < i < |words| ==> words[i] != ""
    requires words[|words| - 1] != ""
    requires IsSeparator(trailing)
    ensures Split(Join(words, seps) + trailing) == words
  {
    var ws := words + [""];
    var ss := seps + [trailing];
    JoinSnoc(words, seps, trailing, "");
    assert Join(words, seps) + trailing + "" == Join(words, seps) + trailing;
    WithTrailingShape(words, seps, trailing);
    FirstWordEndsEarly(ws, ss);
    PiecesOfJoin(ws, ss);
    assert ws[..|ws| - 1] == words;
    DropNothing(words);
  }

  lemma WithTrailingShape(words: seq<string>, seps: seq<string>, trailing: string)
    requires |words| == |seps| + 1
    requires forall i :: 0 <= i < |words| ==> IsWord(words[i])
    requires forall i :: 0 <= i < |seps| ==> IsSeparator(seps[i])
    requires forall i :: 0 < i < |words| ==> words[i] != ""
    requires IsSeparator(trailing)
    ensures forall i :: 0 <= i < |words + [""]| ==> IsWord((words + [""])[i])
    ensures forall i :: 0 <= i < |seps + [trailing]| ==> IsSeparator((seps + [trailing])[i])
    ensures forall i :: 0 < i < |words + [""]| - 1 ==> (words + [""])[i] != ""
  {
    forall i | 0 <= i < |words + [""]| ensures IsWord((words + [""])[i]) {
      if i < |words| { assert (words + [""])[i] == words[i]; }
    }
    forall i | 0 <= i < |seps + [trailing]| ensures IsSeparator((seps + [trailing])[i]) {
      if i < |seps| { assert (seps + [trailing])[i] == seps[i]; }
    }
  }

  lemma DropNothing(ts: seq<string>)
    requires ts != [] && ts[|ts| - 1] != ""
    ensures DropTrailingEmpty(ts) == ts
  {
  }

  /** Every piece is a word, and every piece strictly between the first and the last is non-empty. */
  lemma {:induction false} PiecesShape(s: string)
    ensures forall i :: 0 <= i < |Pieces(s)| ==> IsWord(Pieces(s)[i])
    ensures forall i :: 0 < i < |Pieces(s)| - 1 ==> Pieces(s)[i] != ""
    decreases |s|
  {
    var w := WordLength(s);
    if w < |s| {
      var rest := s[w..];
      var next := rest[RunLength(rest)..];
      PiecesShape(next);
      assert Pieces(s) == [s[..w]] + Pieces(next);
      if |Pieces(next)| > 1 {
        assert next != [];
        assert !IsWhitespace(next[0]);
        assert WordLength(next) > 0;
        assert Pieces(next)[0] == next[..WordLength(next)];
      }
    }
  }

  /** The tokens split yields contain no whitespace, and all but the first are non-empty. */
  lemma SplitShape(s: string)
    ensures forall i :: 0 <= i < |Split(s)| ==> IsWord(Split(s)[i])
    ensures forall i :: 0 < i < |Split(s)| ==> Split(s)[i] != ""
  {
    if WordLength(s) < |s| {
      PiecesShape(s);
      var ps := Pieces(s);
      var r := DropTrailingEmpty(ps);
      assert forall i :: 0 <= i < |r| ==> r[i] == ps[i];
    }
  }

  /** A line of whitespace only yields no token at all. */
  lemma {:induction false} SplitOfBlank(s: string)
    requires IsSeparator(s)
    ensures Split(s) == []
  {
    assert WordLength(s) == 0;
    RunLengthOfSeparator(s, []);
    assert s + [] == s;
    assert s[0..] == s;
    assert s[|s|..] == [];
    assert Pieces(s) == [[]] + Pieces([]);
    assert Pieces([]) == [[]];
  }
}
