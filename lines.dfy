/** The three text forms an ID list takes in the ledger files: Python's
    `str.splitlines`, `"\n".join(ids)` and "each ID followed by a newline". */
module Lines {

  /** The line boundaries of `str.splitlines`: line feed, carriage return,
      vertical tab, form feed, the separators 0x1C-0x1E, NEL (0x85), and the
      Unicode line and paragraph separators. */
  predicate IsLineBreak(c: char)
  {
    c == '\n' || c == '\r' || c == '\U{0B}' || c == '\U{0C}'
    || c == '\U{1C}' || c == '\U{1D}' || c == '\U{1E}'
    || c == '\U{85}' || c == '\U{2028}' || c == '\U{2029}'
  }

  predicate NoLineBreaks(s: string)
  {
    forall i :: 0 <= i < |s| ==> !IsLineBreak(s[i])
  }

  predicate AllWithoutBreaks(xs: seq<string>)
  {
    forall k :: 0 <= k < |xs| ==> NoLineBreaks(xs[k])
  }

  /** The index of the first line boundary at or after `from`, or `|s|`. */
  function LineEnd(s: string, from: nat): (i: nat)
    requires from <= |s|
    ensures from <= i <= |s|
    ensures forall j :: from <= j < i ==> !IsLineBreak(s[j])
    ensures i < |s| ==> IsLineBreak(s[i])
    decreases |s| - from
  {
    if from == |s| || IsLineBreak(s[from]) then from else LineEnd(s, from + 1)
  }

  /** The width of the boundary at `i`: "\r\n" is a single boundary. */
  function BreakWidth(s: string, i: nat): (w: nat)
    requires i < |s|
    ensures 1 <= w <= 2 && i + w <= |s|
  {
    if s[i] == '\r' && i + 1 < |s| && s[i + 1] == '\n' then 2 else 1
  }

  /** `s.splitlines()`: the lines without their boundaries; a final boundary
      does not start another line, and the empty text has no lines. */
  function SplitLines(s: string): (lines: seq<string>)
    ensures AllWithoutBreaks(lines)
    ensures |lines| <= |s|
    decreases |s|
  {
    if s == [] then []
    else
      var i := LineEnd(s, 0);
      if i == |s| then [s]
      else [s[..i]] + SplitLines(s[i + BreakWidth(s, i)..])
  }

  /** `"\n".join(xs)`. */
  function JoinLines(xs: seq<string>): string
  {
    if xs == [] then ""
    else if |xs| == 1 then xs[0]
    else xs[0] + "\n" + JoinLines(xs[1..])
  }

  /** Each element written followed by "\n". */
  function TerminatedLines(xs: seq<string>): string
  {
    if xs == [] then "" else xs[0] + "\n" + TerminatedLines(xs[1..])
  }

  /** A line without boundaries followed by "\n" is read back as that line. */
  lemma SplitAfterLine(x: string, t: string)
    requires NoLineBreaks(x)
    ensures SplitLines(x + "\n" + t) == [x] + SplitLines(t)
  {
    var s := x + "\n" + t;
    assert s[|x|] == '\n';
    assert forall j :: 0 <= j < |x| ==> s[j] == x[j];
    assert LineEnd(s, 0) == |x|;
    assert BreakWidth(s, |x|) == 1;
    assert s[..|x|] == x;
    assert s[|x| + 1..] == t;
  }

  /** A non-empty text without boundaries is one line. */
  lemma SplitSingleLine(x: string)
    requires x != [] && NoLineBreaks(x)
    ensures SplitLines(x) == [x]
  {
    assert LineEnd(x, 0) == |x|;
  }

  /** `splitlines` undoes `"\n".join` for IDs without line boundaries, as long
      as the last one is not empty. */
  lemma {:induction false} SplitJoin(xs: seq<string>)
    requires AllWithoutBreaks(xs)
    requires xs == [] || xs[|xs| - 1] != ""
    ensures SplitLines(JoinLines(xs)) == xs
  {
    if |xs| == 1 {
      SplitSingleLine(xs[0]);
    } else if |xs| > 1 {
      SplitAfterLine(xs[0], JoinLines(xs[1..]));
      SplitJoin(xs[1..]);
      assert xs == [xs[0]] + xs[1..];
    }
  }

  /** `splitlines` undoes the newline-terminated form for every list of IDs
      without line boundaries, empty IDs included. */
  lemma {:induction false} SplitTerminated(xs: seq<string>)
    requires AllWithoutBreaks(xs)
    ensures SplitLines(TerminatedLines(xs)) == xs
  {
    if xs != [] {
      SplitAfterLine(xs[0], TerminatedLines(xs[1..]));
      SplitTerminated(xs[1..]);
      assert xs == [xs[0]] + xs[1..];
    }
  }

  /** The joined form loses a trailing empty ID; the terminated form keeps it. */
  lemma JoinDropsTrailingEmpty(x: string)
    requires NoLineBreaks(x)
    ensures SplitLines(JoinLines([x, ""])) == [x]
    ensures SplitLines(TerminatedLines([x, ""])) == [x, ""]
  {
    assert JoinLines([x, ""]) == x + "\n" + "";
    SplitAfterLine(x, "");
    assert [x] + [] == [x];
    assert AllWithoutBreaks([x, ""]);
    SplitTerminated([x, ""]);
  }

  /** Writing one more line extends the terminated text by that line. */
  lemma {:induction false} TerminatedSnoc(xs: seq<string>, x: string)
    ensures TerminatedLines(xs + [x]) == TerminatedLines(xs) + x + "\n"
  {
    if xs != [] {
      assert (xs + [x])[1..] == xs[1..] + [x];
      TerminatedSnoc(xs[1..], x);
    } else {
      assert [x][1..] == [];
    }
  }

  /** `for x in xs: f.write(x); f.write("\n")`: the text the loop writes is
      the terminated form of the list. */
  method WriteTerminated(xs: seq<string>) returns (text: string)
    ensures text == TerminatedLines(xs)
  {
    text := "";
    for i := 0 to |xs|
      invariant text == TerminatedLines(xs[..i])
    {
      assert xs[..i + 1] == xs[..i] + [xs[i]];
      TerminatedSnoc(xs[..i], xs[i]);
      text := text + xs[i] + "\n";
    }
    assert xs[..|xs|] == xs;
  }
}
