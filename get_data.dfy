/** The stand-alone fetch script: it reads the IDs listed in `Update.txt`
    and reads the page of every ID whose `.json` file is not yet in today's
    directory, keeping the site's own labels as record keys. Any error
    while reading `Update.txt` or a page ends the script. */
module GetData {
  import opened Outcomes
  import opened Sequences
  import opened Lines
  import opened Ledger
  import opened Dict
  import opened Listing
  import opened Fetching
  import opened Storage

  /** The script run on what reading `Update.txt` gave, the names in today's
      directory and the site. It crashes when `Update.txt` is missing or
      unreadable, or when a page read raises; otherwise every ID of the
      file without a stored document is read exactly once, and nothing
      else. */
  method FetchUpdates(update: ReadResult, names: seq<string>, site: string -> Attempt)
    returns (crashed: bool, processed: seq<string>, records: seq<(string, Dict)>, toFetch: set<string>)
    ensures !update.Found? ==> crashed && processed == [] && records == []
    ensures update.Found? ==> toFetch == ReadIds(update.text) - FileIds(names)
    ensures NoDups(processed) && Elems(processed) <= toFetch
    ensures records == Records(Raw, processed, site)
    ensures update.Found? && !crashed ==> Elems(processed) == toFetch
    ensures forall i :: 0 <= i < |processed| ==> site(processed[i]).Returned?
    ensures update.Found? ==> (crashed <==> exists id :: id in toFetch && site(id).Threw?)
    ensures update.Found? && crashed ==> exists id :: id in toFetch - Elems(processed) && site(id).Threw?
  {
    processed, records, toFetch := [], [], {};
    if !update.Found? {
      return true, processed, records, toFetch;
    }
    var ids := SplitLines(update.text);
    toFetch := Elems(ids) - FileIds(names);
    var raisedOn;
    processed, records, raisedOn := FetchAll(Raw, toFetch, site);
    crashed := raisedOn.Some?;
  }
}
