/** The local-file variant of the crawler: the same pipeline as the S3
    variant, but the ledger files are written one ID per line with a final
    newline, the crawl stops after two scraped pages, a missing ledger
    counts as empty while any other file error raises, and the entry point
    deletes the batch itself after merging. */
module HousingCrawler {
  import opened Outcomes
  import opened Sequences
  import opened Lines
  import opened StringOrder
  import opened Ledger
  import opened Discovery
  import opened Dict
  import opened Listing
  import opened Fetching
  import opened Storage

  const CompletedFile: string := "completed.txt"
  const NeedUpdateFile: string := "need_update.txt"

  /** The crawl ends once this many pages have been scraped. */
  const PageLimit: nat := 2

  /** The text written to `need_update.txt`: every discovered ID not among
      the ledger's lines, each followed by a newline. */
  function NeedUpdateText(discovered: seq<string>, completedText: string): string
  {
    TerminatedLines(Batch(discovered, ReadIds(completedText)))
  }

  /** The written batch reads back line for line as the discovered IDs that
      are not in the ledger, in discovery order; no ID needs to be
      non-empty for this, unlike in the joined layout. */
  lemma NeedUpdateReadBack(discovered: seq<string>, completedText: string)
    requires forall i :: 0 <= i < |discovered| ==> NoLineBreaks(discovered[i])
    ensures SplitLines(NeedUpdateText(discovered, completedText)) == Batch(discovered, ReadIds(completedText))
    ensures ReadIds(NeedUpdateText(discovered, completedText)) == Elems(discovered) - ReadIds(completedText)
  {
    var b := Batch(discovered, ReadIds(completedText));
    forall k | 0 <= k < |b| ensures NoLineBreaks(b[k]) {
      assert b[k] in Elems(b);
      var i :| 0 <= i < |discovered| && discovered[i] == b[k];
    }
    SplitTerminated(b);
  }

  /** Discovery over at most `PageLimit` scraped pages, diff against the
      ledger and the write of `need_update.txt`. A ledger that exists but
      cannot be read, or a failed write, raises. */
  method GenerateNeedUpdate(store: Store, pages: seq<PageVisit>) returns (raised: bool)
    requires CompleteRun(pages)
    modifies store
    ensures raised <==> old(store.Lookup(CompletedFile)).Failed? || NeedUpdateFile in store.writeFaults
    ensures raised ==> store.objects == old(store.objects)
    ensures !raised ==>
      var text := NeedUpdateText(Run(pages, PageLimit, 0).ids, TextOrEmpty(old(store.Lookup(CompletedFile))));
      store.objects == old(store.objects)[NeedUpdateFile := text]
  {
    var ids, scraped, visited, stop := DiscoverIds(pages, PageLimit);
    var discovered := Dedup(ids);
    var completed := store.Lookup(CompletedFile);
    if completed.Failed? {
      return true;
    }
    var pastIds := SplitLines(TextOrEmpty(completed));
    var batch := Pending(discovered, Elems(pastIds));
    var text := WriteTerminated(batch);
    var ok := store.Write(NeedUpdateFile, text);
    raised := !ok;
  }

  /** `merge_ids`: nothing happens when `need_update.txt` does not exist; a
      file that exists but cannot be read raises, and so does a failed
      write. A missing ledger counts as empty. The sorted union is written
      one ID per line with a final newline. */
  method MergeIds(store: Store) returns (raised: bool)
    modifies store
    ensures var need := old(store.Lookup(NeedUpdateFile));
      var completed := old(store.Lookup(CompletedFile));
      raised <==> need.Failed? || (need.Found? && (completed.Failed? || CompletedFile in store.writeFaults))
    ensures var need := old(store.Lookup(NeedUpdateFile));
      var completed := old(store.Lookup(CompletedFile));
      store.objects == if raised || need.Absent? then old(store.objects)
                       else old(store.objects)[CompletedFile := MergeTexts(Terminated, TextOrEmpty(completed), need.text)]
  {
    var need := store.Lookup(NeedUpdateFile);
    if need.Absent? {
      return false;
    } else if need.Failed? {
      return true;
    }
    var needIds := ReadIds(need.text);
    var completed := store.Lookup(CompletedFile);
    if completed.Failed? {
      return true;
    }
    var completedIds := ReadIds(TextOrEmpty(completed));
    var all := completedIds + needIds;
    var text := WriteTerminated(SortedIds(all));
    var ok := store.Write(CompletedFile, text);
    raised := !ok;
  }

  /** In the terminated layout the merged ledger holds exactly the union of
      the ledger and the batch, with no exception for the empty ID. */
  lemma MergedLedger(completedText: string, needText: string)
    ensures ReadIds(MergeTexts(Terminated, completedText, needText)) == ReadIds(completedText) + ReadIds(needText)
    ensures ReadIds(completedText) <= ReadIds(MergeTexts(Terminated, completedText, needText))
    ensures ReadIds(needText) <= ReadIds(MergeTexts(Terminated, completedText, needText))
  {
    MergeUnion(Terminated, completedText, needText);
  }

  /** One run of `main`: generation, then the fetch of the batch minus the
      stems of the `.json` files in today's directory (`names` is its
      listing). A missing batch is a success with nothing to fetch; a batch
      that cannot be read, or a page read that raises, makes `main` raise. */
  method RunMain(store: Store, pages: seq<PageVisit>, names: seq<string>, site: string -> Attempt)
    returns (result: Completion<bool>, processed: seq<string>, records: seq<(string, Dict)>, toFetch: set<string>)
    requires CompleteRun(pages)
    modifies store
    ensures old(store.Lookup(CompletedFile)).Failed? || NeedUpdateFile in store.writeFaults ==>
      result == Threw && store.objects == old(store.objects)
    ensures !old(store.Lookup(CompletedFile)).Failed? && NeedUpdateFile !in store.writeFaults ==>
      var text := NeedUpdateText(Run(pages, PageLimit, 0).ids, TextOrEmpty(old(store.Lookup(CompletedFile))));
      store.objects == old(store.objects)[NeedUpdateFile := text]
    ensures store.Lookup(CompletedFile) == old(store.Lookup(CompletedFile))
    ensures result != Threw && store.Lookup(NeedUpdateFile).Absent? ==> processed == [] && records == []
    ensures !old(store.Lookup(CompletedFile)).Failed? && NeedUpdateFile !in store.writeFaults && store.Lookup(NeedUpdateFile).Found? ==>
      toFetch == ReadIds(store.Lookup(NeedUpdateFile).text) - FileIds(names)
    ensures result == Threw || result == Returned(true)
    ensures NoDups(processed) && Elems(processed) <= toFetch
    ensures records == Records(Snake, processed, site)
    ensures result == Returned(true) && store.Lookup(NeedUpdateFile).Found? ==> Elems(processed) == toFetch
    ensures forall i :: 0 <= i < |processed| ==> site(processed[i]).Returned?
    ensures store.Lookup(NeedUpdateFile).Failed? ==> result == Threw
    ensures result == Threw <==>
      old(store.Lookup(CompletedFile)).Failed? || NeedUpdateFile in store.writeFaults ||
      store.Lookup(NeedUpdateFile).Failed? ||
      (store.Lookup(NeedUpdateFile).Found? && exists id :: id in toFetch && site(id).Threw?)
  {
    processed, records, toFetch := [], [], {};
    var raised := GenerateNeedUpdate(store, pages);
    if raised {
      return Threw, processed, records, toFetch;
    }
    var need := store.Lookup(NeedUpdateFile);
    if need.Absent? {
      return Returned(true), processed, records, toFetch;
    } else if need.Failed? {
      return Threw, processed, records, toFetch;
    }
    var ids := SplitLines(need.text);
    toFetch := Elems(ids) - FileIds(names);
    var raisedOn;
    processed, records, raisedOn := FetchAll(Snake, toFetch, site);
    result := if raisedOn.Some? then Threw else Returned(true);
  }

  /** What one attempt of the entry point needs from the outside world. */
  datatype Inputs = Inputs(pages: seq<PageVisit>, names: seq<string>, site: string -> Attempt)

  /** One attempt of the entry point: `main`, then `merge_ids`, then the
      removal of `need_update.txt` if it exists. `main` raises exactly when
      the ledger cannot be read, the batch cannot be written or read back,
      or the read of an ID of the batch without a stored file raises. Once
      `main` returned, the batch is there and readable, so the attempt
      raises only when the ledger write or the batch removal fails, and the
      batch is removed only after `merge_ids` returned. The ledger changes
      only when `main` returned; an attempt that does not raise leaves no
      batch behind and the ledger holding the merged text. */
  method RunAttempt(store: Store, input: Inputs) returns (raised: bool, ghost mainResult: Completion<bool>, ghost batch: ReadResult)
    requires CompleteRun(input.pages)
    modifies store
    ensures mainResult == Threw <==>
      old(store.Lookup(CompletedFile)).Failed? || NeedUpdateFile in store.writeFaults || NeedUpdateFile in store.readFaults ||
      exists id :: id in ReadIds(NeedUpdateText(Run(input.pages, PageLimit, 0).ids, TextOrEmpty(old(store.Lookup(CompletedFile))))) - FileIds(input.names)
                   && input.site(id).Threw?
    ensures mainResult != Threw ==>
      batch == Found(NeedUpdateText(Run(input.pages, PageLimit, 0).ids, TextOrEmpty(old(store.Lookup(CompletedFile)))))
    ensures raised <==> mainResult == Threw || CompletedFile in store.writeFaults || NeedUpdateFile in store.deleteFaults
    ensures mainResult != Threw && CompletedFile in store.writeFaults ==> NeedUpdateFile in store.objects
    ensures mainResult == Threw ==> raised && store.Lookup(CompletedFile) == old(store.Lookup(CompletedFile))
    ensures !raised ==> NeedUpdateFile !in store.objects
    ensures !raised && batch.Found? ==>
      CompletedFile in store.objects &&
      store.objects[CompletedFile] == MergeTexts(Terminated, TextOrEmpty(old(store.Lookup(CompletedFile))), batch.text)
  {
    ghost var completed := store.Lookup(CompletedFile);
    var result, processed, records, toFetch := RunMain(store, input.pages, input.names, input.site);
    mainResult := result;
    batch := store.Lookup(NeedUpdateFile);
    if result == Threw {
      return true, mainResult, batch;
    }
    raised := MergeIds(store);
    if raised {
      return;
    }
    assert CompletedFile != NeedUpdateFile;
    if NeedUpdateFile in store.objects {
      var ok := store.Delete(NeedUpdateFile);
      raised := !ok;
    }
  }

  const MaxRetries: nat := 3

  /** The entry point: attempts are repeated while they raise, at most
      `MaxRetries` times; `log` records whether each attempt raised. The
      process exits with status 1 exactly when every attempt raised;
      otherwise no batch is left behind. */
  method RunWithRetries(store: Store, inputs: seq<Inputs>) returns (log: seq<bool>, exitFailure: bool)
    requires |inputs| == MaxRetries
    requires forall i :: 0 <= i < |inputs| ==> CompleteRun(inputs[i].pages)
    modifies store
    ensures 1 <= |log| <= MaxRetries
    ensures forall i :: 0 <= i < |log| - 1 ==> log[i]
    ensures exitFailure <==> |log| == MaxRetries && log[|log| - 1]
    ensures !exitFailure ==> NeedUpdateFile !in store.objects
  {
    log := [];
    var retries := 0;
    while retries < MaxRetries
      invariant retries == |log| <= MaxRetries
      invariant forall i :: 0 <= i < |log| ==> log[i]
      decreases MaxRetries - retries
    {
      var raised, mainResult, batch := RunAttempt(store, inputs[retries]);
      log := log + [raised];
      if !raised {
        return log, false;
      }
      retries := retries + 1;
    }
    exitFailure := true;
  }
}
