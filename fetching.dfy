/** The fetch phase shared by the crawlers: the IDs of the listing
    documents already stored today, and the loop that reads every ID still
    to fetch, one property page at a time. */
module Fetching {
  import opened Outcomes
  import opened Sequences
  import opened Text
  import opened Dict
  import opened Listing

  // ---------------------------------------------------------------------------
  // Documents already stored.

  /** A document's ID as the AWS crawler derives it from an object key:
      `key.split('/')[-1].split('.json')[0]`. */
  function IdOfDocKey(key: string): string
  {
    BeforeFirst(AfterLast(key, '/'), ".json")
  }

  /** The IDs of the `.json` objects among the listed keys. */
  function DocIds(keys: seq<string>): set<string>
  {
    set k | k in keys && EndsWith(k, ".json") :: IdOfDocKey(k)
  }

  /** `{f.split(".json")[0] for f in os.listdir(dir_path) if f.endswith(".json")}`. */
  function FileIds(names: seq<string>): set<string>
  {
    set f | f in names && EndsWith(f, ".json") :: BeforeFirst(f, ".json")
  }

  lemma DocIdsSnoc(keys: seq<string>, k: string)
    ensures DocIds(keys + [k]) == DocIds(keys) + (if EndsWith(k, ".json") then {IdOfDocKey(k)} else {})
  {
    assert forall x :: x in keys + [k] <==> x in keys || x == k;
  }

  /** The AWS crawler's listing loop over today's objects. `keys` are the
      keys listed before the listing ended, or before it raised: an error
      is logged and the IDs gathered so far are kept. */
  method ExistingDocIds(keys: seq<string>) returns (ids: set<string>)
    ensures ids == DocIds(keys)
  {
    ids := {};
    for i := 0 to |keys|
      invariant ids == DocIds(keys[..i])
    {
      var key := keys[i];
      assert keys[..i + 1] == keys[..i] + [key];
      DocIdsSnoc(keys[..i], key);
      if EndsWith(key, ".json") {
        ids := ids + {IdOfDocKey(key)};
      }
    }
    assert keys[..|keys|] == keys;
  }

  /** The name a listing document is written under, `<id>.json`, gives its
      ID back when the ID holds no `.`. */
  lemma StemOfJsonName(id: string)
    requires '.' !in id
    ensures BeforeFirst(id + ".json", ".json") == id
  {
    var s := id + ".json";
    var r := BeforeFirst(s, ".json");
    assert OccursAt(s, |id|, ".json") by {
      assert s[|id|..|id| + 5] == ".json";
    }
    assert |r| <= |id|;
    forall j | 0 <= j < |id| ensures !OccursAt(s, j, ".json") {
      assert s[j] == id[j] && id[j] in id;
    }
    assert |r| >= |id|;
    assert s[..|id|] == id;
  }

  /** The text after the last `/` of a key ending in `/` and a name without
      `/` is that name. */
  lemma {:induction false} AfterLastSlash(prefix: string, name: string)
    requires prefix != [] && prefix[|prefix| - 1] == '/'
    requires '/' !in name
    ensures AfterLast(prefix + name, '/') == name
  {
    if name == [] {
      assert prefix + name == prefix;
    } else {
      var init := name[..|name| - 1];
      var s := prefix + name;
      assert s[..|s| - 1] == prefix + init;
      assert s[|s| - 1] == name[|name| - 1];
      assert '/' !in init by {
        assert forall j :: 0 <= j < |init| ==> init[j] == name[j];
      }
      AfterLastSlash(prefix, init);
      assert init + [name[|name| - 1]] == name;
    }
  }

  /** The object key a listing document is uploaded under,
      `<dir>/<id>.json`, gives its ID back when the ID holds no `.` or `/`. */
  lemma IdOfDocKeyOf(dir: string, id: string)
    requires '.' !in id && '/' !in id
    ensures IdOfDocKey(dir + "/" + id + ".json") == id
  {
    var name := id + ".json";
    assert '/' !in name by {
      forall j | 0 <= j < |name| ensures name[j] != '/' {
        if j < |id| {
          assert name[j] == id[j];
        } else {
          assert name[j] == ".json"[j - |id|];
        }
      }
    }
    assert dir + "/" + id + ".json" == (dir + "/") + name;
    AfterLastSlash(dir + "/", name);
    StemOfJsonName(id);
  }

  /** An ID whose document is already among today's objects is not fetched
      again. */
  lemma NoRefetchObject(ids: seq<string>, keys: seq<string>, dir: string, id: string)
    requires '.' !in id && '/' !in id
    requires dir + "/" + id + ".json" in keys
    ensures id !in Elems(ids) - DocIds(keys)
  {
    var k := dir + "/" + id + ".json";
    assert EndsWith(k, ".json") by {
      assert k[|k| - 5..] == ".json";
    }
    IdOfDocKeyOf(dir, id);
  }

  /** An ID whose file is already in today's directory is not fetched
      again. */
  lemma NoRefetchFile(ids: seq<string>, names: seq<string>, id: string)
    requires '.' !in id
    requires id + ".json" in names
    ensures id !in Elems(ids) - FileIds(names)
  {
    var f := id + ".json";
    assert EndsWith(f, ".json") by {
      assert f[|f| - 5..] == ".json";
    }
    StemOfJsonName(id);
  }

  // ---------------------------------------------------------------------------
  // The fetch loop.

  /** What one call of the page reader did for an ID: it returned after the
      request ended with the given outcome, or it raised. */
  type Attempt = Completion<FetchOutcome>

  /** The records the reader produces for `ids`, in order: one for each ID
      whose page holds a listing. */
  function Records(style: KeyStyle, ids: seq<string>, site: string -> Attempt): seq<(string, Dict)>
  {
    if ids == [] then []
    else
      var init := ids[..|ids| - 1];
      var id := ids[|ids| - 1];
      var a := site(id);
      if a.Returned? && a.value.Listing? then Records(style, init, site) + [(id, Assemble(style, a.value.page))]
      else Records(style, init, site)
  }

  /** Reading one more ID adds its record, if its page holds a listing. */
  lemma RecordsSnoc(style: KeyStyle, ids: seq<string>, id: string, site: string -> Attempt)
    ensures Records(style, ids + [id], site) ==
      if site(id).Returned? && site(id).value.Listing? then Records(style, ids, site) + [(id, Assemble(style, site(id).value.page))]
      else Records(style, ids, site)
  {
    assert (ids + [id])[..|ids|] == ids;
  }

  /** An ID has a record exactly when its page was read and holds a listing,
      and the record is the assembled listing. */
  lemma {:induction false} RecordsSpec(style: KeyStyle, ids: seq<string>, site: string -> Attempt, id: string, d: Dict)
    ensures (id, d) in Records(style, ids, site) <==>
      id in ids && site(id).Returned? && site(id).value.Listing? && d == Assemble(style, site(id).value.page)
  {
    if ids != [] {
      var init := ids[..|ids| - 1];
      var last := ids[|ids| - 1];
      assert ids == init + [last];
      assert id in ids <==> id in init || id == last;
      RecordsSpec(style, init, site, id, d);
      RecordsSnoc(style, init, last, site);
      var rest := Records(style, init, site);
      if site(last).Returned? && site(last).value.Listing? {
        LastRecord(rest, (last, Assemble(style, site(last).value.page)), (id, d));
      }
    }
  }

  /** Membership in a list with one more element at the end. */
  lemma LastRecord(rest: seq<(string, Dict)>, r: (string, Dict), x: (string, Dict))
    ensures x in rest + [r] <==> x in rest || x == r
  {
  }

  /** The loop's state: the IDs still to read and those read partition the
      IDs to fetch; the IDs read are listed once each, their reads returned,
      and the records are the ones their pages give. */
  ghost predicate Progress(style: KeyStyle, site: string -> Attempt, toFetch: set<string>, rest: set<string>,
                           processed: seq<string>, records: seq<(string, Dict)>)
  {
    && rest + Elems(processed) == toFetch && rest !! Elems(processed)
    && NoDups(processed)
    && (forall i :: 0 <= i < |processed| ==> site(processed[i]).Returned?)
    && records == Records(style, processed, site)
  }

  /** One more ID read whose read returned: it moves from the IDs still to
      read to those read, with its record, if any, appended. */
  lemma Advance(style: KeyStyle, site: string -> Attempt, toFetch: set<string>, rest: set<string>,
                processed: seq<string>, records: seq<(string, Dict)>, id: string, got: seq<(string, Dict)>)
    requires Progress(style, site, toFetch, rest, processed, records)
    requires id in rest && site(id).Returned?
    requires got == if site(id).value.Listing? then [(id, Assemble(style, site(id).value.page))] else []
    ensures Progress(style, site, toFetch, rest - {id}, processed + [id], records + got)
  {
    ElemsSnoc(processed, id);
    NoDupsSnoc(processed, id);
    RecordsSnoc(style, processed, id, site);
    var after := processed + [id];
    forall i | 0 <= i < |after| ensures site(after[i]).Returned? {
      if i < |processed| {
        assert after[i] == processed[i];
      } else {
        assert after[i] == id;
      }
    }
  }

  /** One call of the page reader that returned: the ID's record, if its
      page holds a listing. */
  method ReadOne(style: KeyStyle, id: string, outcome: FetchOutcome) returns (got: seq<(string, Dict)>)
    ensures got == if outcome.Listing? then [(id, Assemble(style, outcome.page))] else []
  {
    var record := ReadProperty(style, outcome);
    got := if record.Some? then [(id, record.value)] else [];
  }

  /** `for property_id in unique_ids:` the IDs are read one by one in an
      order the model leaves open. A page that fails or holds no listing is
      only logged; an exception ends the loop and propagates. `processed`
      lists the IDs whose read returned, `raisedOn` the ID whose read
      raised. Each ID is read at most once, and all of them when nothing
      raises; the loop raises exactly when the read of some ID raises. */
  method FetchAll(style: KeyStyle, toFetch: set<string>, site: string -> Attempt)
    returns (processed: seq<string>, records: seq<(string, Dict)>, raisedOn: Option<string>)
    ensures NoDups(processed) && Elems(processed) <= toFetch
    ensures forall i :: 0 <= i < |processed| ==> site(processed[i]).Returned?
    ensures records == Records(style, processed, site)
    ensures raisedOn.Some? ==> raisedOn.value in toFetch - Elems(processed) && site(raisedOn.value).Threw?
    ensures raisedOn == None ==> Elems(processed) == toFetch
    ensures raisedOn.Some? <==> exists id :: id in toFetch && site(id).Threw?
  {
    processed := [];
    records := [];
    var rest := toFetch;
    ElemsEmpty(processed);
    while rest != {}
      invariant Progress(style, site, toFetch, rest, processed, records)
      decreases |rest|
    {
      var id :| id in rest;
      var attempt := site(id);
      if attempt.Threw? {
        return processed, records, Some(id);
      }
      var got := ReadOne(style, id, attempt.value);
      Advance(style, site, toFetch, rest, processed, records, id, got);
      processed := processed + [id];
      records := records + got;
      rest := rest - {id};
    }
    ReturnedElems(processed, site);
    return processed, records, None;
  }

  /** Every ID of a list of returned reads returned. */
  lemma ReturnedElems(processed: seq<string>, site: string -> Attempt)
    requires forall i :: 0 <= i < |processed| ==> site(processed[i]).Returned?
    ensures forall id :: id in Elems(processed) ==> site(id).Returned?
  {
    forall id | id in Elems(processed)
      ensures site(id).Returned?
    {
      var i :| 0 <= i < |processed| && processed[i] == id;
    }
  }
}
