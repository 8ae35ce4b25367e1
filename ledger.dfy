/** The ID ledger: the list of listing IDs already fetched ("completed") and
    the batch still to fetch ("need update"), their diff and merge, and the
    two text layouts they are stored in. */
module Ledger {
  import opened Sequences
  import opened Lines
  import opened StringOrder

  /** `list(set(xs))`. Python leaves the order open; this model keeps each
      ID where it first occurs. */
  function Dedup(xs: seq<string>): (r: seq<string>)
    ensures NoDups(r)
    ensures Elems(r) == Elems(xs)
    ensures |r| <= |xs|
  {
    if xs == [] then []
    else
      var init := xs[..|xs| - 1];
      var x := xs[|xs| - 1];
      var d := Dedup(init);
      assert xs == init + [x];
      ElemsSnoc(init, x);
      ElemsSnoc(d, x);
      if x in Elems(d) then d else d + [x]
  }

  /** `[x for x in discovered if x not in completed]`: the discovered IDs
      still to fetch, in discovery order. */
  function Pending(discovered: seq<string>, completed: set<string>): (r: seq<string>)
    ensures Elems(r) == Elems(discovered) - completed
    ensures NoDups(discovered) ==> NoDups(r)
    ensures |r| <= |discovered|
  {
    if discovered == [] then []
    else
      var init := discovered[..|discovered| - 1];
      var x := discovered[|discovered| - 1];
      var p := Pending(init, completed);
      assert discovered == init + [x];
      ElemsSnoc(init, x);
      ElemsSnoc(p, x);
      assert NoDups(discovered) ==> NoDups(init) && x !in Elems(init);
      if x in completed then p else p + [x]
  }

  /** Nothing is filtered out when no discovered ID is completed: with an
      empty ledger every discovered ID is pending, in order. */
  lemma {:induction false} PendingNoneCompleted(discovered: seq<string>, completed: set<string>)
    requires Elems(discovered) !! completed
    ensures Pending(discovered, completed) == discovered
  {
    if discovered != [] {
      var init := discovered[..|discovered| - 1];
      assert discovered == init + [discovered[|discovered| - 1]];
      assert Elems(init) <= Elems(discovered);
      PendingNoneCompleted(init, completed);
    }
  }

  /** `set(text.splitlines())`: the IDs a ledger text holds. */
  function ReadIds(text: string): (ids: set<string>)
    ensures forall x :: x in ids ==> NoLineBreaks(x)
  {
    Elems(SplitLines(text))
  }

  /** The two ways a list of IDs is written out. */
  datatype Layout =
    | Joined      // `"\n".join(ids)`
    | Terminated  // every ID followed by "\n"

  function Render(layout: Layout, xs: seq<string>): string
  {
    match layout
    case Joined => JoinLines(xs)
    case Terminated => TerminatedLines(xs)
  }

  /** `splitlines` reads a rendered list back exactly when its IDs hold no
      line boundary, except that the joined layout loses a last empty ID. */
  lemma RenderReadBack(layout: Layout, xs: seq<string>)
    requires AllWithoutBreaks(xs)
    requires layout == Joined ==> xs == [] || xs[|xs| - 1] != ""
    ensures SplitLines(Render(layout, xs)) == xs
  {
    match layout
    case Joined => SplitJoin(xs);
    case Terminated => SplitTerminated(xs);
  }

  /** A ledger written from a set: its IDs in sorted order. */
  function LedgerText(layout: Layout, ids: set<string>): string
  {
    Render(layout, SortedIds(ids))
  }

  /** The empty ID sorts before every other ID, so it is last in sorted
      order only when it is the only ID. */
  lemma EmptyLastOnlyAlone(ids: set<string>)
    ensures var xs := SortedIds(ids); xs != [] && xs[|xs| - 1] == "" ==> ids == {""}
  {
    var xs := SortedIds(ids);
    if xs != [] && xs[|xs| - 1] == "" {
      assert xs == [""];
      assert ids == Elems([""]);
    }
  }

  /** Reading a written ledger gives back its sorted list, and so its set;
      only the set holding just the empty ID is lost by the joined layout. */
  lemma LedgerReadBack(layout: Layout, ids: set<string>)
    requires forall x :: x in ids ==> NoLineBreaks(x)
    ensures layout == Terminated || ids != {""} ==>
      SplitLines(LedgerText(layout, ids)) == SortedIds(ids) && ReadIds(LedgerText(layout, ids)) == ids
    ensures layout == Joined && ids == {""} ==> ReadIds(LedgerText(layout, ids)) == {}
  {
    var xs := SortedIds(ids);
    assert AllWithoutBreaks(xs) by {
      forall k | 0 <= k < |xs| ensures NoLineBreaks(xs[k]) {
        assert xs[k] in Elems(xs);
      }
    }
    if layout == Terminated || ids != {""} {
      EmptyLastOnlyAlone(ids);
      RenderReadBack(layout, xs);
    } else {
      assert xs == [""] by {
        SortedUnique(xs, [""]);
      }
      assert LedgerText(layout, ids) == "";
      assert SplitLines("") == [];
    }
  }

  /** The merged ledger text: the completed IDs and the batch, sorted. */
  function MergeTexts(layout: Layout, completedText: string, batchText: string): string
  {
    LedgerText(layout, ReadIds(completedText) + ReadIds(batchText))
  }

  /** The merged ledger holds exactly the union of both inputs, so it is a
      superset of each; its lines are strictly increasing and so free of
      duplicates. */
  lemma MergeUnion(layout: Layout, completedText: string, batchText: string)
    requires layout == Terminated || ReadIds(completedText) + ReadIds(batchText) != {""}
    ensures ReadIds(MergeTexts(layout, completedText, batchText)) == ReadIds(completedText) + ReadIds(batchText)
    ensures StrictlySorted(SplitLines(MergeTexts(layout, completedText, batchText)))
    ensures NoDups(SplitLines(MergeTexts(layout, completedText, batchText)))
  {
    var u := ReadIds(completedText) + ReadIds(batchText);
    LedgerReadBack(layout, u);
    SortedNoDups(SortedIds(u));
  }

  /** Merging the same batch a second time changes nothing. */
  lemma MergeIdempotent(layout: Layout, completedText: string, batchText: string)
    ensures MergeTexts(layout, MergeTexts(layout, completedText, batchText), batchText)
         == MergeTexts(layout, completedText, batchText)
  {
    var b := ReadIds(batchText);
    var u := ReadIds(completedText) + b;
    var t := MergeTexts(layout, completedText, batchText);
    LedgerReadBack(layout, u);
    if layout == Joined && u == {""} {
      assert ReadIds(t) == {};
      assert b == {} || b == {""};
      assert ReadIds(t) + b == {} || ReadIds(t) + b == u;
      assert LedgerText(layout, {}) == "";
    } else {
      assert ReadIds(t) + b == u;
    }
  }

  /** The batch a crawl writes: the discovered IDs without repeats, minus
      the completed ones, in discovery order. */
  function Batch(discovered: seq<string>, completed: set<string>): (r: seq<string>)
    ensures NoDups(r)
    ensures Elems(r) == Elems(discovered) - completed
  {
    Pending(Dedup(discovered), completed)
  }

  /** The batch is disjoint from the completed IDs and holds every
      discovered ID that is not completed; with nothing completed it holds
      every discovered ID. */
  lemma BatchSpec(discovered: seq<string>, completed: set<string>, x: string)
    ensures x in Elems(Batch(discovered, completed)) <==> x in discovered && x !in completed
    ensures completed == {} ==> Elems(Batch(discovered, completed)) == Elems(discovered)
  {
  }

  /** Written in either layout, the batch reads back as itself when the
      discovered IDs are non-empty and hold no line boundary. */
  lemma BatchReadBack(layout: Layout, discovered: seq<string>, completed: set<string>)
    requires forall i :: 0 <= i < |discovered| ==> discovered[i] != "" && NoLineBreaks(discovered[i])
    ensures SplitLines(Render(layout, Batch(discovered, completed))) == Batch(discovered, completed)
    ensures ReadIds(Render(layout, Batch(discovered, completed))) == Elems(discovered) - completed
  {
    var xs := Batch(discovered, completed);
    forall k | 0 <= k < |xs| ensures xs[k] != "" && NoLineBreaks(xs[k]) {
      assert xs[k] in Elems(xs);
      var i :| 0 <= i < |discovered| && discovered[i] == xs[k];
    }
    RenderReadBack(layout, xs);
  }
}
