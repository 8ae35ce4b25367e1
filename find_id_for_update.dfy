/** The stand-alone discovery script: it crawls up to 2000 scraped pages,
    removes duplicates, drops the IDs listed in `Completed.txt` and writes
    the rest to `Need_Update.txt`, one per line with a final newline. There
    is no fallback: a missing or unreadable `Completed.txt` ends the
    script. */
module FindIdForUpdate {
  import opened Sequences
  import opened Lines
  import opened Ledger
  import opened Discovery
  import opened Storage

  const CompletedFile: string := "Completed.txt"
  const NeedUpdateFile: string := "Need_Update.txt"

  /** The crawl ends once this many pages have been scraped. */
  const PageLimit: nat := 2000

  /** `unique_ids` holds no completed ID, only discovered ones, none twice,
      and every discovered ID that is not completed; its newline-terminated
      text reads back as the list itself when no ID holds a line boundary. */
  lemma UniqueIds(discovered: seq<string>, completedText: string)
    requires forall i :: 0 <= i < |discovered| ==> NoLineBreaks(discovered[i])
    ensures var u := Batch(discovered, ReadIds(completedText));
      Elems(u) !! ReadIds(completedText) && Elems(u) <= Elems(discovered) && NoDups(u)
      && (forall x :: x in discovered && x !in ReadIds(completedText) ==> x in u)
      && SplitLines(TerminatedLines(u)) == u
  {
    var u := Batch(discovered, ReadIds(completedText));
    forall k | 0 <= k < |u| ensures NoLineBreaks(u[k]) {
      assert u[k] in Elems(u);
      var i :| 0 <= i < |discovered| && discovered[i] == u[k];
    }
    forall x | x in discovered && x !in ReadIds(completedText) ensures x in u {
      var i :| 0 <= i < |discovered| && discovered[i] == x;
      assert x in Elems(u);
    }
    SplitTerminated(u);
  }

  /** The whole script. `pages` are the visited result pages. It crashes
      without writing when `Completed.txt` is missing or unreadable, and
      when the write of `Need_Update.txt` fails; otherwise that file holds
      the batch `unique` in the terminated layout. */
  method FindIds(store: Store, pages: seq<PageVisit>) returns (crashed: bool, unique: seq<string>)
    requires CompleteRun(pages)
    modifies store
    ensures var completed := old(store.Lookup(CompletedFile));
      crashed <==> !completed.Found? || NeedUpdateFile in store.writeFaults
    ensures old(store.Lookup(CompletedFile)).Found? ==>
      unique == Batch(Run(pages, PageLimit, 0).ids, ReadIds(old(store.Lookup(CompletedFile)).text))
    ensures store.objects == if crashed then old(store.objects)
                             else old(store.objects)[NeedUpdateFile := TerminatedLines(unique)]
  {
    var ids, scraped, visited, stop := DiscoverIds(pages, PageLimit);
    var discovered := Dedup(ids);
    var completed := store.Lookup(CompletedFile);
    if !completed.Found? {
      return true, [];
    }
    var past := SplitLines(completed.text);
    unique := Pending(discovered, Elems(past));
    var text := WriteTerminated(unique);
    var ok := store.Write(NeedUpdateFile, text);
    crashed := !ok;
  }
}
