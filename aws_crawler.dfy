/** The S3 variant of the crawler: `generate_need_update` writes the batch
    of IDs still to fetch as `"\n".join`, `main` fetches the batch minus the
    documents already stored today, `merge_ids` folds the batch into the
    ledger and deletes it, and the entry point retries the whole attempt up
    to three times. Every S3 failure other than a raised fetch is logged
    and swallowed. */
module AwsCrawler {
  import opened Outcomes
  import opened Sequences
  import opened Lines
  import opened Ledger
  import opened Discovery
  import opened Dict
  import opened Listing
  import opened Fetching
  import opened Storage

  const CompletedKey: string := "completed.txt"
  const NeedUpdateKey: string := "need_update.txt"

  /** The text `generate_need_update` uploads for the discovered IDs, given
      what reading `completed.txt` gave. */
  function NeedUpdateText(discovered: seq<string>, completed: ReadResult): string
  {
    JoinLines(Batch(discovered, ReadIds(TextOrEmpty(completed))))
  }

  /** The uploaded batch reads back as the discovered IDs not in the ledger,
      and as every discovered ID when the ledger is missing or could not be
      read. */
  lemma NeedUpdateReadBack(discovered: seq<string>, completed: ReadResult)
    requires forall i :: 0 <= i < |discovered| ==> discovered[i] != "" && NoLineBreaks(discovered[i])
    ensures SplitLines(NeedUpdateText(discovered, completed)) == Batch(discovered, ReadIds(TextOrEmpty(completed)))
    ensures completed.Found? ==> ReadIds(NeedUpdateText(discovered, completed)) == Elems(discovered) - ReadIds(completed.text)
    ensures !completed.Found? ==> ReadIds(NeedUpdateText(discovered, completed)) == Elems(discovered)
  {
    assert SplitLines("") == [];
    BatchReadBack(Joined, discovered, ReadIds(TextOrEmpty(completed)));
  }

  /** Discovery, diff and upload. The page limit comes from the pagination
      bar; without an all-digit value the unbound `max_page` raises before
      the loop. Otherwise the crawl's IDs minus the ledger are uploaded; a
      failed upload is only logged. */
  method GenerateNeedUpdate(store: Store, bar: seq<Option<string>>, pages: seq<PageVisit>) returns (raised: bool)
    requires CompleteRun(pages)
    modifies store
    ensures raised <==> MaxPage(bar) == None
    ensures raised ==> store.objects == old(store.objects)
    ensures !raised ==>
      var text := NeedUpdateText(Run(pages, MaxPage(bar).value, 0).ids, old(store.Lookup(CompletedKey)));
      store.objects == if NeedUpdateKey in store.writeFaults then old(store.objects) else old(store.objects)[NeedUpdateKey := text]
  {
    var limit := MaxPage(bar);
    if limit == None {
      return true;
    }
    var ids, scraped, visited, stop := DiscoverIds(pages, limit.value);
    var discovered := Dedup(ids);
    var completed := store.Lookup(CompletedKey);
    var completedIds := ReadIds(TextOrEmpty(completed));
    var batch := Pending(discovered, completedIds);
    var ok := store.Write(NeedUpdateKey, JoinLines(batch));
    raised := false;
  }

  /** The objects after a merge that found the batch and could read the
      ledger or found it missing: the ledger replaced by the merged text
      unless that write fails, and the batch deleted unless that fails. */
  function Merged(objects: map<string, string>, writeFaults: set<string>, deleteFaults: set<string>, mergedText: string): map<string, string>
  {
    var written := if CompletedKey in writeFaults then objects else objects[CompletedKey := mergedText];
    if NeedUpdateKey in deleteFaults then written else written - {NeedUpdateKey}
  }

  /** A successful ledger write survives the deletion of the batch. */
  lemma MergedCompleted(objects: map<string, string>, writeFaults: set<string>, deleteFaults: set<string>, mergedText: string)
    requires CompletedKey !in writeFaults
    ensures CompletedKey in Merged(objects, writeFaults, deleteFaults, mergedText)
    ensures Merged(objects, writeFaults, deleteFaults, mergedText)[CompletedKey] == mergedText
  {
    assert CompletedKey != NeedUpdateKey;
  }

  /** `merge_ids`: nothing happens when the batch is missing or unreadable,
      or when the ledger cannot be read for a reason other than being
      missing. Otherwise the sorted union is written, and the batch is
      deleted whether or not that write succeeded. */
  method MergeIds(store: Store)
    modifies store
    ensures var need := old(store.Lookup(NeedUpdateKey));
      var completed := old(store.Lookup(CompletedKey));
      if need.Found? && !completed.Failed? then
        store.objects == Merged(old(store.objects), store.writeFaults, store.deleteFaults,
                                MergeTexts(Joined, TextOrEmpty(completed), need.text))
      else store.objects == old(store.objects)
  {
    var need := store.Lookup(NeedUpdateKey);
    if !need.Found? {
      return;
    }
    var completed := store.Lookup(CompletedKey);
    if completed.Failed? {
      return;
    }
    var merged := MergeTexts(Joined, TextOrEmpty(completed), need.text);
    var written := store.Write(CompletedKey, merged);
    var deleted := store.Delete(NeedUpdateKey);
  }

  /** The ledger after a merge whose write succeeded holds the union of the
      IDs it held and the batch's IDs. */
  lemma MergedLedger(objects: map<string, string>, writeFaults: set<string>, deleteFaults: set<string>, completed: ReadResult, needText: string)
    requires CompletedKey !in writeFaults
    requires ReadIds(TextOrEmpty(completed)) + ReadIds(needText) != {""}
    ensures var after := Merged(objects, writeFaults, deleteFaults, MergeTexts(Joined, TextOrEmpty(completed), needText));
      CompletedKey in after && ReadIds(after[CompletedKey]) == ReadIds(TextOrEmpty(completed)) + ReadIds(needText)
    ensures NeedUpdateKey !in deleteFaults ==>
      NeedUpdateKey !in Merged(objects, writeFaults, deleteFaults, MergeTexts(Joined, TextOrEmpty(completed), needText))
  {
    MergeUnion(Joined, TextOrEmpty(completed), needText);
  }

  /** One run of `main`: generation, then the fetch of the batch read back
      from S3 minus the documents stored today (`keys` are the object keys
      listed under today's prefix). A missing batch is a success with
      nothing to fetch, an unreadable one a logged failure; a page read that
      raises makes `main` raise. `toFetch` is the set of IDs to read. */
  method RunMain(store: Store, bar: seq<Option<string>>, pages: seq<PageVisit>, keys: seq<string>, site: string -> Attempt)
    returns (result: Completion<bool>, processed: seq<string>, records: seq<(string, Dict)>, toFetch: set<string>)
    requires CompleteRun(pages)
    modifies store
    ensures MaxPage(bar) == None ==> result == Threw && store.objects == old(store.objects)
    ensures MaxPage(bar).Some? ==>
      var text := NeedUpdateText(Run(pages, MaxPage(bar).value, 0).ids, old(store.Lookup(CompletedKey)));
      store.objects == if NeedUpdateKey in store.writeFaults then old(store.objects) else old(store.objects)[NeedUpdateKey := text]
    ensures store.Lookup(CompletedKey) == old(store.Lookup(CompletedKey))
    ensures MaxPage(bar).Some? && !store.Lookup(NeedUpdateKey).Found? ==>
      processed == [] && records == [] && result == Returned(store.Lookup(NeedUpdateKey).Absent?)
    ensures MaxPage(bar).Some? && store.Lookup(NeedUpdateKey).Found? ==>
      toFetch == ReadIds(store.Lookup(NeedUpdateKey).text) - DocIds(keys)
    ensures NoDups(processed) && Elems(processed) <= toFetch
    ensures records == Records(Snake, processed, site)
    ensures result == Returned(true) && store.Lookup(NeedUpdateKey).Found? ==> Elems(processed) == toFetch
    ensures forall i :: 0 <= i < |processed| ==> site(processed[i]).Returned?
    ensures MaxPage(bar).Some? && store.Lookup(NeedUpdateKey).Found? ==>
      (result == Threw <==> exists id :: id in toFetch && site(id).Threw?)
    ensures result == Threw && MaxPage(bar).Some? ==> exists id :: id in toFetch - Elems(processed) && site(id).Threw?
  {
    processed, records, toFetch := [], [], {};
    var raised := GenerateNeedUpdate(store, bar, pages);
    if raised {
      return Threw, processed, records, toFetch;
    }
    var need := store.Lookup(NeedUpdateKey);
    if need.Absent? {
      return Returned(true), processed, records, toFetch;
    } else if need.Failed? {
      return Returned(false), processed, records, toFetch;
    }
    var ids := SplitLines(need.text);
    var existing := ExistingDocIds(keys);
    toFetch := Elems(ids) - existing;
    var raisedOn;
    processed, records, raisedOn := FetchAll(Snake, toFetch, site);
    result := if raisedOn.Some? then Threw else Returned(true);
  }

  /** What one attempt of the entry point needs from the outside world. */
  datatype Inputs = Inputs(bar: seq<Option<string>>, pages: seq<PageVisit>, keys: seq<string>, site: string -> Attempt)

  /** The batch as `main` reads it back after generation: the object left
      as it was when there is no page limit or the upload fails, otherwise
      the uploaded text unless reading it fails. */
  function BatchAfterGeneration(before: ReadResult, readFaults: set<string>, writeFaults: set<string>,
                                completed: ReadResult, input: Inputs): ReadResult
    requires CompleteRun(input.pages)
  {
    if MaxPage(input.bar) == None || NeedUpdateKey in writeFaults then before
    else if NeedUpdateKey in readFaults then Failed
    else Found(NeedUpdateText(Run(input.pages, MaxPage(input.bar).value, 0).ids, completed))
  }

  /** One attempt of the entry point: `main`, then `merge_ids` only when
      `main` returned (whatever it returned). `merge_ids` swallows every
      error, so the attempt raises exactly when `main` raises: when there is
      no page limit, or when the read of an ID of the batch without a stored
      document raises. An attempt that raises leaves the ledger as it was;
      one that returns merged the batch that `main` read back. */
  method RunAttempt(store: Store, input: Inputs) returns (raised: bool, ghost mainResult: Completion<bool>, ghost batch: ReadResult)
    requires CompleteRun(input.pages)
    modifies store
    ensures batch == BatchAfterGeneration(old(store.Lookup(NeedUpdateKey)), store.readFaults, store.writeFaults,
                                          old(store.Lookup(CompletedKey)), input)
    ensures mainResult == Threw <==>
      MaxPage(input.bar) == None ||
      (batch.Found? && exists id :: id in ReadIds(batch.text) - DocIds(input.keys) && input.site(id).Threw?)
    ensures raised <==> mainResult == Threw
    ensures raised ==> store.Lookup(CompletedKey) == old(store.Lookup(CompletedKey))
    ensures !raised && batch.Found? && !old(store.Lookup(CompletedKey)).Failed? && CompletedKey !in store.writeFaults ==>
      CompletedKey in store.objects &&
      store.objects[CompletedKey] == MergeTexts(Joined, TextOrEmpty(old(store.Lookup(CompletedKey))), batch.text)
  {
    ghost var completed := store.Lookup(CompletedKey);
    var result, processed, records, toFetch := RunMain(store, input.bar, input.pages, input.keys, input.site);
    mainResult := result;
    batch := store.Lookup(NeedUpdateKey);
    if result == Threw {
      return true, mainResult, batch;
    }
    ghost var objects := store.objects;
    MergeIds(store);
    if batch.Found? && !completed.Failed? && CompletedKey !in store.writeFaults {
      MergedCompleted(objects, store.writeFaults, store.deleteFaults, MergeTexts(Joined, TextOrEmpty(completed), batch.text));
    }
    raised := false;
  }

  const MaxRetries: nat := 3

  /** The entry point: attempts are repeated while they raise, at most
      `MaxRetries` times; `log` records whether each attempt raised. The
      process exits with status 1 exactly when every attempt raised, and
      then the ledger is as it was. */
  method RunWithRetries(store: Store, inputs: seq<Inputs>) returns (log: seq<bool>, exitFailure: bool)
    requires |inputs| == MaxRetries
    requires forall i :: 0 <= i < |inputs| ==> CompleteRun(inputs[i].pages)
    modifies store
    ensures 1 <= |log| <= MaxRetries
    ensures forall i :: 0 <= i < |log| - 1 ==> log[i]
    ensures exitFailure <==> |log| == MaxRetries && log[|log| - 1]
    ensures exitFailure ==> store.Lookup(CompletedKey) == old(store.Lookup(CompletedKey))
  {
    log := [];
    var retries := 0;
    while retries < MaxRetries
      invariant retries == |log| <= MaxRetries
      invariant forall i :: 0 <= i < |log| ==> log[i]
      invariant store.Lookup(CompletedKey) == old(store.Lookup(CompletedKey))
      decreases MaxRetries - retries
    {
      var raised, mainResult, batch := RunAttempt(store, inputs[retries]);
      log := log + [raised];
      if !raised {
        return log, false;
      }
      retries := retries + 1;
    }
    exitFailure := true;
  }
}
