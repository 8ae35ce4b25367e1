/** Assembly of one listing record from a fetched property page: title and
    description first, then the label/value pairs of every table, then the
    coordinates, then the estate information. Key names differ between the
    crawlers: snake-cased lower-case keys, or the raw labels with
    capitalised fixed keys. */
module Listing {
  import opened Outcomes
  import opened Text
  import opened SnakeCase
  import opened Dict
  import opened Geolocation

  datatype KeyStyle =
    | Snake  // keys `title`, `latitude`, ...; table labels through `ToSnakeCase`
    | Raw    // keys `Title`, `Latitude`, ...; table labels as they are

  function TitleKey(style: KeyStyle): string
  {
    if style == Snake then "title" else "Title"
  }

  function DescriptionKey(style: KeyStyle): string
  {
    if style == Snake then "description" else "Description"
  }

  function LatitudeKey(style: KeyStyle): string
  {
    if style == Snake then "latitude" else "Latitude"
  }

  function LongitudeKey(style: KeyStyle): string
  {
    if style == Snake then "longitude" else "Longitude"
  }

  const EntryDateKey: string := "estate_entry_date"
  const BuildingAgeKey: string := "building_age"
  const AgePrefix: string := "Building age: "

  /** The key a table label is stored under. */
  function Label(style: KeyStyle, text: string): string
  {
    if style == Snake then ToSnakeCase(text) else text
  }

  /** One `tablePair` element: the stripped texts of its left and right cells. */
  datatype Table = Table(left: seq<string>, right: seq<string>)

  /** What the parser extracts from a property page. `entryDate` is the text
      of the cell after "Estate Entry Date" and `buildingAge` the text of the
      "Building age" element, each `None` when the element is missing. */
  datatype Page = Page(
    title: string,
    description: string,
    scripts: seq<Option<string>>,
    tables: seq<Table>,
    entryDate: Option<string>,
    buildingAge: Option<string>)

  /** The request raised, the page has no "ui large message" element, or
      the page holds a listing. */
  datatype FetchOutcome = RequestFailed | NoListing | Listing(page: Page)

  /** `extract_estate_info`: the entry date and the building age, each only
      when its text is non-empty, the age with "Building age: " removed. */
  function EstateInfo(entryDate: Option<string>, buildingAge: Option<string>): (d: Dict)
    ensures WellFormed(d)
    ensures forall k :: k in Keys(d) ==> k == EntryDateKey || k == BuildingAgeKey
    ensures Get(d, EntryDateKey) == if entryDate.Some? && entryDate.value != [] then entryDate else None
    ensures Get(d, BuildingAgeKey) ==
      if buildingAge.Some? && RemoveAll(buildingAge.value, AgePrefix) != [] then Some(RemoveAll(buildingAge.value, AgePrefix)) else None
  {
    var d := if entryDate.Some? && entryDate.value != [] then Put([], EntryDateKey, entryDate.value) else [];
    if buildingAge.Some? && RemoveAll(buildingAge.value, AgePrefix) != [] then
      Put(d, BuildingAgeKey, RemoveAll(buildingAge.value, AgePrefix))
    else d
  }

  /** The usual age text, "Building age: " followed by the age, gives the age. */
  lemma EstateInfoAge(entryDate: Option<string>, age: string)
    requires age != [] && !Contains(age, AgePrefix)
    ensures Get(EstateInfo(entryDate, Some(AgePrefix + age)), BuildingAgeKey) == Some(age)
  {
    RemoveAllLeading(AgePrefix, age);
  }

  /** The label/value pairs of a table, up to the shorter column. */
  function TableItems(style: KeyStyle, t: Table): (items: seq<(string, string)>)
    ensures |items| == if |t.left| <= |t.right| then |t.left| else |t.right|
    ensures forall i :: 0 <= i < |items| ==> items[i] == (Label(style, t.left[i]), t.right[i])
  {
    Zip(seq(|t.left|, i requires 0 <= i < |t.left| => Label(style, t.left[i])), t.right)
  }

  /** `dict(zip(left_list, right_list))` with the labels turned into keys. */
  function TableDict(style: KeyStyle, t: Table): (d: Dict)
    ensures WellFormed(d)
  {
    PutAllWellFormed([], TableItems(style, t));
    PutAll([], TableItems(style, t))
  }

  /** A table contributes exactly the keys of its label/value pairs, up to
      the shorter column. */
  lemma TableKeys(style: KeyStyle, t: Table, k: string)
    ensures k in Keys(TableDict(style, t)) <==>
      exists i :: 0 <= i < |t.left| && i < |t.right| && k == Label(style, t.left[i])
  {
    var items := TableItems(style, t);
    PutAllMembers([], items, k);
    assert Keys([]) == [];
    if k in Keys(items) {
      var i :| 0 <= i < |items| && Keys(items)[i] == k;
      assert items[i].0 == k;
    } else {
      forall i | 0 <= i < |t.left| && i < |t.right| ensures k != Label(style, t.left[i]) {
        assert Keys(items)[i] == items[i].0;
      }
    }
  }

  /** With snake-cased keys, a table's keys hold only `a-z`, `0-9` and `_`. */
  lemma TableKeysSnake(t: Table, k: string)
    requires k in Keys(TableDict(Snake, t))
    ensures forall j :: 0 <= j < |k| ==> IsSnakeChar(k[j])
  {
    TableKeys(Snake, t, k);
  }

  /** The tables merged into the record one after another. */
  function WithTables(style: KeyStyle, d: Dict, tables: seq<Table>): Dict
    decreases |tables|
  {
    if tables == [] then d else WithTables(style, PutAll(d, TableDict(style, tables[0])), tables[1..])
  }

  /** The value the tables give a key: that of the last table holding it. */
  function TablesValue(style: KeyStyle, tables: seq<Table>, k: string): Option<string>
    decreases |tables|
  {
    if tables == [] then None
    else Override(TablesValue(style, tables[1..], k), Get(TableDict(style, tables[0]), k))
  }

  lemma {:induction false} WithTablesGet(style: KeyStyle, d: Dict, tables: seq<Table>, k: string)
    ensures Get(WithTables(style, d, tables), k) == Override(TablesValue(style, tables, k), Get(d, k))
    decreases |tables|
  {
    if tables != [] {
      var d' := PutAll(d, TableDict(style, tables[0]));
      UpdateGet(d, TableDict(style, tables[0]), k);
      WithTablesGet(style, d', tables[1..], k);
    }
  }

  lemma {:induction false} WithTablesKeys(style: KeyStyle, d: Dict, tables: seq<Table>)
    ensures KeptInFront(d, WithTables(style, d, tables))
    ensures WellFormed(d) ==> WellFormed(WithTables(style, d, tables))
    decreases |tables|
  {
    if tables != [] {
      var d' := PutAll(d, TableDict(style, tables[0]));
      PutAllInFront(d, TableDict(style, tables[0]));
      if WellFormed(d) {
        PutAllWellFormed(d, TableDict(style, tables[0]));
      }
      WithTablesKeys(style, d', tables[1..]);
    }
  }

  /** `data['latitude'] = lat_o; data['longitude'] = lng_o`, done only when
      both coordinates are non-empty. */
  function GeoItems(style: KeyStyle, geo: Option<Geo>): seq<(string, string)>
  {
    if geo.Some? && geo.value.lat != [] && geo.value.lng != [] then
      [(LatitudeKey(style), geo.value.lat), (LongitudeKey(style), geo.value.lng)]
    else []
  }

  /** The record before the tables: title, then description. */
  function BaseRecord(style: KeyStyle, page: Page): Dict
  {
    Put(Put([], TitleKey(style), page.title), DescriptionKey(style), page.description)
  }

  /** The record `read_property` writes for a listing page. */
  function Assemble(style: KeyStyle, page: Page): Dict
  {
    var withTables := WithTables(style, BaseRecord(style, page), page.tables);
    var withGeo := PutAll(withTables, GeoItems(style, FirstGeo(page.scripts)));
    var info := EstateInfo(page.entryDate, page.buildingAge);
    if |info| != 0 then PutAll(withGeo, info) else withGeo
  }

  /** The last write to a key wins: estate information over coordinates over
      the last table holding the key over description and title. */
  lemma AssembleGet(style: KeyStyle, page: Page, k: string)
    ensures Get(Assemble(style, page), k) ==
      Override(Get(EstateInfo(page.entryDate, page.buildingAge), k),
      Override(LastValue(GeoItems(style, FirstGeo(page.scripts)), k),
      Override(TablesValue(style, page.tables, k),
               Get(BaseRecord(style, page), k))))
  {
    var base := BaseRecord(style, page);
    var withTables := WithTables(style, base, page.tables);
    var items := GeoItems(style, FirstGeo(page.scripts));
    var withGeo := PutAll(withTables, items);
    var info := EstateInfo(page.entryDate, page.buildingAge);
    WithTablesGet(style, base, page.tables, k);
    PutAllGet(withTables, items, k);
    if |info| != 0 {
      UpdateGet(withGeo, info, k);
    } else {
      assert Keys(info) == [];
    }
  }

  /** The record has distinct keys and starts with title and description. */
  lemma AssembleKeys(style: KeyStyle, page: Page)
    ensures WellFormed(Assemble(style, page))
    ensures |Assemble(style, page)| >= 2
    ensures Assemble(style, page)[0].0 == TitleKey(style)
    ensures Assemble(style, page)[1].0 == DescriptionKey(style)
  {
    var base := BaseRecord(style, page);
    BaseRecordKeys(style, page);
    var withTables := WithTables(style, base, page.tables);
    WithTablesKeys(style, base, page.tables);
    var items := GeoItems(style, FirstGeo(page.scripts));
    var withGeo := PutAll(withTables, items);
    PutAllInFront(withTables, items);
    PutAllWellFormed(withTables, items);
    var info := EstateInfo(page.entryDate, page.buildingAge);
    if |info| != 0 {
      PutAllInFront(withGeo, info);
      PutAllWellFormed(withGeo, info);
    }
  }

  /** Title and description are distinct keys, in that order. */
  lemma BaseRecordKeys(style: KeyStyle, page: Page)
    ensures WellFormed(BaseRecord(style, page))
    ensures |BaseRecord(style, page)| == 2
    ensures BaseRecord(style, page)[0].0 == TitleKey(style)
    ensures BaseRecord(style, page)[1].0 == DescriptionKey(style)
  {
    assert |TitleKey(style)| != |DescriptionKey(style)|;
    PutTwo(TitleKey(style), page.title, DescriptionKey(style), page.description);
  }

  /** The coordinate items give both keys their coordinate, or nothing. */
  lemma GeoItemsValues(style: KeyStyle, geo: Option<Geo>)
    ensures geo.Some? && geo.value.lat != [] && geo.value.lng != [] ==>
      LastValue(GeoItems(style, geo), LatitudeKey(style)) == Some(geo.value.lat) &&
      LastValue(GeoItems(style, geo), LongitudeKey(style)) == Some(geo.value.lng)
    ensures geo == None ==> GeoItems(style, geo) == []
  {
    var items := GeoItems(style, geo);
    if items != [] {
      assert items[..1] == [items[0]];
      assert [items[0]][..0] == [];
    }
  }

  /** The estate information never writes a coordinate key. */
  lemma EstateInfoNoCoordinates(style: KeyStyle, entryDate: Option<string>, buildingAge: Option<string>)
    ensures Get(EstateInfo(entryDate, buildingAge), LatitudeKey(style)) == None
    ensures Get(EstateInfo(entryDate, buildingAge), LongitudeKey(style)) == None
  {
    var info := EstateInfo(entryDate, buildingAge);
    assert LatitudeKey(style) !in Keys(info) by {
      assert LatitudeKey(style)[0] == 'l' || LatitudeKey(style)[0] == 'L';
    }
    assert LongitudeKey(style) !in Keys(info) by {
      assert LongitudeKey(style)[0] == 'l' || LongitudeKey(style)[0] == 'L';
    }
  }

  /** Coordinates are written both or neither: with a match, both keys hold
      its coordinates; without one, neither key gets a value from the
      scripts. */
  lemma AssembleGeo(style: KeyStyle, page: Page)
    ensures var g := FirstGeo(page.scripts); var r := Assemble(style, page);
      g.Some? ==> Get(r, LatitudeKey(style)) == Some(g.value.lat) && Get(r, LongitudeKey(style)) == Some(g.value.lng)
    ensures FirstGeo(page.scripts) == None ==>
      forall k :: k == LatitudeKey(style) || k == LongitudeKey(style) ==>
        Get(Assemble(style, page), k) == Override(TablesValue(style, page.tables, k), Get(BaseRecord(style, page), k))
  {
    var g := FirstGeo(page.scripts);
    var info := EstateInfo(page.entryDate, page.buildingAge);
    AssembleGet(style, page, LatitudeKey(style));
    AssembleGet(style, page, LongitudeKey(style));
    EstateInfoNoCoordinates(style, page.entryDate, page.buildingAge);
    if g.Some? {
      FirstGeoCoordinates(page.scripts);
    }
    GeoItemsValues(style, g);
  }

  /** `read_property` / `read`: nothing when the request raised or the page
      holds no listing; otherwise the record, built by successive updates. */
  method ReadProperty(style: KeyStyle, fetch: FetchOutcome) returns (record: Option<Dict>)
    ensures fetch.Listing? ==> record == Some(Assemble(style, fetch.page))
    ensures !fetch.Listing? ==> record == None
  {
    if !fetch.Listing? {
      return None;
    }
    var page := fetch.page;
    var data: Dict := [];
    data := Put(data, TitleKey(style), page.title);
    data := Put(data, DescriptionKey(style), page.description);
    var geo := ScanScripts(page.scripts);
    var i := 0;
    while i < |page.tables|
      invariant 0 <= i <= |page.tables|
      invariant WithTables(style, data, page.tables[i..]) == WithTables(style, BaseRecord(style, page), page.tables)
    {
      assert page.tables[i..][1..] == page.tables[i + 1..];
      data := PutAll(data, TableDict(style, page.tables[i]));
      i := i + 1;
    }
    assert page.tables[i..] == [];
    if geo.Some? && geo.value.lat != [] && geo.value.lng != [] {
      PutAllTwo(data, (LatitudeKey(style), geo.value.lat), (LongitudeKey(style), geo.value.lng));
      data := Put(data, LatitudeKey(style), geo.value.lat);
      data := Put(data, LongitudeKey(style), geo.value.lng);
    }
    var info := EstateInfo(page.entryDate, page.buildingAge);
    if |info| != 0 {
      data := PutAll(data, info);
    }
    return Some(data);
  }
}
