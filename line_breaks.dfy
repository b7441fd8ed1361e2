/** The line-terminator rules of `java.io.BufferedReader.readLine`: a line
    ends at a line feed, at a carriage return, or at a carriage return
    followed by a line feed, and the terminator is not part of the line.
    These pure definitions specify the reader that `Metadata.getContent`
    drains. */
module LineBreaks {
  import opened Base

  predicate IsLineBreak(c: char) {
    c == '\n' || c == '\r'
  }

  predicate BreakFree(t: string) {
    forall k :: 0 <= k < |t| ==> !IsLineBreak(t[k])
  }

  /** The text with every carriage return and line feed removed. */
  function StripLineBreaks(t: string): (r: string)
    ensures |r| <= |t|
  {
    if t == [] then []
    else if IsLineBreak(t[0]) then StripLineBreaks(t[1..])
    else [t[0]] + StripLineBreaks(t[1..])
  }

  /** No line break survives. */
  lemma {:induction false} StripLeavesNoBreak(t: string)
    ensures BreakFree(StripLineBreaks(t))
  {
    if t != [] {
      StripLeavesNoBreak(t[1..]);
    }
  }

  /** A text without line breaks is kept as it is. */
  lemma {:induction false} StripKeepsBreakFree(t: string)
    requires BreakFree(t)
    ensures StripLineBreaks(t) == t
  {
    if t != [] {
      StripKeepsBreakFree(t[1..]);
      assert [t[0]] + t[1..] == t;
    }
  }

  /** The index of the first line break at or after i, or |t| if there is none. */
  function LineEnd(t: string, i: nat): (j: nat)
    requires i <= |t|
    ensures i <= j <= |t|
    ensures j < |t| ==> IsLineBreak(t[j])
    decreases |t| - i
  {
    if i == |t| || IsLineBreak(t[i]) then i else LineEnd(t, i + 1)
  }

  /** No line break comes before the end of the line. */
  lemma {:induction false} LineEndIsFirstBreak(t: string, i: nat)
    requires i <= |t|
    ensures BreakFree(t[i..LineEnd(t, i)])
    decreases |t| - i
  {
    if i < |t| && !IsLineBreak(t[i]) {
      LineEndIsFirstBreak(t, i + 1);
      assert t[i..LineEnd(t, i)] == [t[i]] + t[i + 1..LineEnd(t, i)];
    }
  }

  /** What `readLine` returns when the unread text starts at index i: None at
      the end of the text, otherwise the line and the index just past its
      terminator (a carriage return and a following line feed count as one
      terminator). */
  function NextLine(t: string, i: nat): (r: Option<(string, nat)>)
    requires i <= |t|
    ensures r.None? <==> i == |t|
    ensures r.Some? ==> i < r.value.1 <= |t| && i + |r.value.0| <= r.value.1
    ensures r.Some? ==> r.value.0 == t[i..i + |r.value.0|]
    ensures r.Some? ==> var e := i + |r.value.0|; e < |t| ==> IsLineBreak(t[e])
  {
    if i == |t| then None
    else
      var j := LineEnd(t, i);
      var next :=
        if j == |t| then j
        else if t[j] == '\r' && j + 1 < |t| && t[j + 1] == '\n' then j + 2
        else j + 1;
      Some((t[i..j], next))
  }

  /** Every line `readLine` returns, in order, starting at index i. */
  function LinesFrom(t: string, i: nat): (r: seq<string>)
    requires i <= |t|
    ensures r == [] <==> i == |t|
    ensures |r| <= |t| - i
    decreases |t| - i
  {
    match NextLine(t, i)
    case None => []
    case Some((line, next)) => [line] + LinesFrom(t, next)
  }

  /** Every line `readLine` returns from the start of the text: none for the
      empty text, and never more lines than characters. */
  function Lines(t: string): (r: seq<string>)
    ensures r == [] <==> t == []
    ensures |r| <= |t|
  {
    LinesFrom(t, 0)
  }

  /** The lines joined with no separator, as a StringBuilder fed by `append(line)` holds them. */
  function Concat(lines: seq<string>): (r: string)
    ensures forall k :: 0 <= k < |lines| ==> |lines[k]| <= |r|
  {
    if lines == [] then [] else lines[0] + Concat(lines[1..])
  }

  lemma {:induction false} StripAppend(a: string, b: string)
    ensures StripLineBreaks(a + b) == StripLineBreaks(a) + StripLineBreaks(b)
  {
    if a == [] {
      assert a + b == b;
    } else {
      assert (a + b)[1..] == a[1..] + b;
      StripAppend(a[1..], b);
    }
  }

  /** The terminator that NextLine skips after the line ending at LineEnd(t, i)
      consists of line breaks only. */
  lemma TerminatorIsBreaks(t: string, i: nat)
    requires i < |t|
    ensures var j, next := LineEnd(t, i), NextLine(t, i).value.1;
      j <= next <= |t| && next - j <= 2 && (j < |t| ==> j < next) &&
      forall k :: j <= k < next ==> IsLineBreak(t[k])
  {
    var j := LineEnd(t, i);
    if j < |t| && t[j] == '\r' && j + 1 < |t| && t[j + 1] == '\n' {
      assert NextLine(t, i).value.1 == j + 2;
    } else if j < |t| {
      assert NextLine(t, i).value.1 == j + 1;
    } else {
      assert NextLine(t, i).value.1 == j;
    }
  }

  /** Where the next line starts: at the end of the text when the line runs to
      it; two characters past the line when a carriage return is followed by a
      line feed, so that the pair is one terminator; one character past it
      otherwise. */
  lemma NextLineStart(t: string, i: nat)
    requires i < |t|
    ensures var e, next := i + |NextLine(t, i).value.0|, NextLine(t, i).value.1;
      (e == |t| ==> next == e) &&
      (e < |t| ==> (next == e + 2 <==> t[e] == '\r' && e + 1 < |t| && t[e + 1] == '\n')) &&
      (e < |t| ==> (next == e + 1 <==> !(t[e] == '\r' && e + 1 < |t| && t[e + 1] == '\n')))
  {
    assert i + |NextLine(t, i).value.0| == LineEnd(t, i);
  }

  /** A line terminator disappears when line breaks are dropped. */
  lemma StripTerminator(t: string, j: nat, next: nat)
    requires j <= next <= |t| && next - j <= 2
    requires forall k :: j <= k < next ==> IsLineBreak(t[k])
    ensures StripLineBreaks(t[j..next]) == []
  {
    var term := t[j..next];
    if term != [] {
      assert term[1..] == t[j + 1..next];
      if |term| == 2 {
        assert term[1..][1..] == [];
      }
    }
  }

  /** Reading one line and dropping the line breaks of what follows it gives
      the unread text with its line breaks dropped. */
  lemma NextLineStrip(t: string, i: nat)
    requires i < |t|
    ensures StripLineBreaks(t[i..]) == NextLine(t, i).value.0 + StripLineBreaks(t[NextLine(t, i).value.1..])
  {
    var j := LineEnd(t, i);
    var next := NextLine(t, i).value.1;
    var line, term, rest := t[i..j], t[j..next], t[next..];
    TerminatorIsBreaks(t, i);
    StripTerminator(t, j, next);
    assert t[i..] == line + term + rest;
    StripAppend(line + term, rest);
    StripAppend(line, term);
    LineEndIsFirstBreak(t, i);
    StripKeepsBreakFree(line);
  }

  /** The lines `readLine` yields, concatenated, are the text with every
      carriage return and line feed removed. */
  lemma {:induction false} ConcatLinesFrom(t: string, i: nat)
    requires i <= |t|
    ensures Concat(LinesFrom(t, i)) == StripLineBreaks(t[i..])
    decreases |t| - i
  {
    if i < |t| {
      var next := NextLine(t, i).value.1;
      NextLineStrip(t, i);
      ConcatLinesFrom(t, next);
      assert LinesFrom(t, i)[1..] == LinesFrom(t, next);
    }
  }

  lemma ConcatLines(t: string)
    ensures Concat(Lines(t)) == StripLineBreaks(t)
  {
    ConcatLinesFrom(t, 0);
    assert t[0..] == t;
  }

  /** No line `readLine` yields contains a line break. */
  lemma {:induction false} LinesBreakFree(t: string, i: nat)
    requires i <= |t|
    ensures forall k :: 0 <= k < |LinesFrom(t, i)| ==> BreakFree(LinesFrom(t, i)[k])
    decreases |t| - i
  {
    if i < |t| {
      LineEndIsFirstBreak(t, i);
      LinesBreakFree(t, NextLine(t, i).value.1);
    }
  }

  /** Three newline-separated lines are read as three lines and collapse to
      their concatenation. */
  lemma ThreeLines()
    ensures Lines("a\nb\nc") == ["a", "b", "c"]
    ensures StripLineBreaks("a\nb\nc") == "abc"
  {
    var t := "a\nb\nc";
    assert LineEnd(t, 0) == 1 && LineEnd(t, 2) == 3 && LineEnd(t, 4) == 5;
    assert t[0..1] == "a" && t[2..3] == "b" && t[4..5] == "c";
    assert NextLine(t, 4) == Some(("c", 5));
    assert NextLine(t, 2) == Some(("b", 4));
    assert NextLine(t, 0) == Some(("a", 2));
    assert LinesFrom(t, 5) == [];
    assert LinesFrom(t, 4) == ["c"];
    assert LinesFrom(t, 2) == ["b", "c"];
    assert StripLineBreaks(t[4..]) == "c";
    assert StripLineBreaks(t[2..]) == "bc";
  }

  /** A carriage return followed by a line feed ends one line. */
  lemma CrLfIsOneTerminator()
    ensures Lines("a\r\nb") == ["a", "b"]
  {
    var t := "a\r\nb";
    assert LineEnd(t, 0) == 1 && LineEnd(t, 3) == 4;
    assert t[0..1] == "a" && t[3..4] == "b";
    assert NextLine(t, 3) == Some(("b", 4));
    assert NextLine(t, 0) == Some(("a", 3));
    assert LinesFrom(t, 4) == [];
    assert LinesFrom(t, 3) == ["b"];
  }

  /** Two carriage returns, or two line feeds, in a row end a line and then an
      empty line. */
  lemma TwoBreaksAreTwoTerminators()
    ensures Lines("a\r\rb") == ["a", "", "b"]
    ensures Lines("a\n\nb") == ["a", "", "b"]
  {
    var t, u := "a\r\rb", "a\n\nb";
    assert LineEnd(t, 0) == 1 && LineEnd(t, 2) == 2 && LineEnd(t, 3) == 4;
    assert LineEnd(u, 0) == 1 && LineEnd(u, 2) == 2 && LineEnd(u, 3) == 4;
    assert t[0..1] == u[0..1] == "a" && t[2..2] == u[2..2] == "" && t[3..4] == u[3..4] == "b";
    assert NextLine(t, 3) == NextLine(u, 3) == Some(("b", 4));
    assert NextLine(t, 2) == NextLine(u, 2) == Some(("", 3));
    assert NextLine(t, 0) == NextLine(u, 0) == Some(("a", 2));
    assert LinesFrom(t, 4) == LinesFrom(u, 4) == [];
    assert LinesFrom(t, 3) == LinesFrom(u, 3) == ["b"];
    assert LinesFrom(t, 2) == LinesFrom(u, 2) == ["", "b"];
  }
}
