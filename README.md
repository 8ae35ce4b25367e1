# Housing-list crawler: a Dafny model of its bookkeeping

The crawler collects rental listings from a listing site in three phases:

1. **Discovery.** It pages through the site's result list and collects the
   `attr1` ID of every listing element. It stops at a page limit or when the
   "Next" button is missing, disabled or fails.
2. **Batch.** It removes duplicate IDs, drops those already listed in the
   ledger (`completed.txt`), and writes the rest as the batch
   (`need_update.txt`).
3. **Fetch and merge.** It reads each listing's page into a key/value record.
   For each ID it skips a document already stored today. Finally it merges the
   batch into the ledger, sorted.

The repository holds four near-duplicate scripts:

| Script | Storage | Batch layout | Page limit | Other |
|---|---|---|---|---|
| `data_collector/aws_housing_list_crawler.py` | S3 | `"\n".join` | largest all-digit pagination value | swallows most storage errors |
| `data_collector/housing_list_crawler.py` | local files | one ID per line, final newline | 2 | raises on file errors; deletes the batch after merging |
| `Data_Collector/FindIDForUpdate.py` | — | — | 2000 | discovery only; a missing `Completed.txt` is fatal |
| `Data_Collector/getData.py` | — | — | — | fetch only; raw page labels as record keys |

The model keeps their differences apart rather than merging them.

Persistence is a `Storage.Store`: a map from name to text with fixed sets of
names whose reads, writes or deletes fail. A read therefore tells a missing
object (`Absent`) apart from an unreadable one (`Failed`). The browser and
the HTTP requests become plain inputs:

- a `Discovery.PageVisit` per result page: the `attr1` values read, or the exception, and what the "Next" button did;
- the pagination bar's `attr1` values;
- a `Listing.FetchOutcome` per property ID: request failed, no listing, or the parsed page. The page carries its title, description, script texts, table columns, entry date and building-age text.

Modules:

- `Outcomes`, `Sequences`, `Text`, `Lines`, `StringOrder`: `Option`, `Completion` (returned or raised), Python's `strip`/`lower`/`re.sub`/`replace`/`split`, `str.splitlines`, `"\n".join`, and `sorted` on strings.
- `Ledger`: deduplication, the diff, the two text layouts, and the merge.
- `Storage`: the store.
- `Dict`: a Python `dict` as its items in insertion order.
- `SnakeCase`: `to_snake_case`.
- `Discovery`: the pagination loop and the page limit.
- `Geolocation`: the coordinate pattern and the script scan.
- `Listing`: `extract_estate_info` and the record assembly.
- `Fetching`: the stored-document filter and the fetch loop.
- One module per script: `AwsCrawler`, `HousingCrawler`, `GetData`, `FindIdForUpdate`.

Some functions have twins in the other scripts: `to_snake_case`,
`extract_estate_info` and `read_property` in the two crawlers, and getData's
`extract_estate_info` and `read`. The twins agree in everything the model
covers. They differ in logging (`logging` in the AWS crawler, `print` in the
local one), in where `write_data` writes (the local crawler passes a
`dir_path`), and, for getData, in its raw page labels as keys (no
`to_snake_case`) and its BeautifulSoup call forms (`text=` for `string=`).
Each function is modelled once and cited at the AWS crawler's lines; the
twins are named in the table.

Two behaviours of the code worth noting:

- **Failed reads are still merged.** An ID whose page read returns `False` is not kept out of the ledger. `merge_ids` merges the whole batch, not the IDs that were read (`HousingCrawler.RunAttempt`, `AwsCrawler.RunAttempt` with `Ledger.MergeUnion`).
- **One exception stops the batch.** An exception while reading one ID stops the whole batch and propagates (`Fetching.FetchAll`).

## Model

| member | source | states |
|---|---|---|
| `Text.Lower` | data_collector/aws_housing_list_crawler.py:52 | same length; each ASCII capital becomes its small letter and every other character stays |
| `Text.StripLeft` | data_collector/aws_housing_list_crawler.py:46 | the result is a suffix; only whitespace was dropped, and it does not start with whitespace |
| `Text.StripRight` | data_collector/aws_housing_list_crawler.py:46 | the result is a prefix; only whitespace was dropped, and it does not end with whitespace |
| `Text.StripSurrounding` | data_collector/aws_housing_list_crawler.py:46 | whitespace added on either side does not change `strip` |
| `Text.RemoveWhitespace` | data_collector/aws_housing_list_crawler.py:266 | the result holds no whitespace and is no longer than the input |
| `Text.RemoveWhitespaceNoSpace` | data_collector/aws_housing_list_crawler.py:266 | a text without whitespace is unchanged |
| `Text.RemoveWhitespaceConcat` | data_collector/aws_housing_list_crawler.py:266 | removing whitespace distributes over concatenation |
| `Text.RemoveAll` | data_collector/aws_housing_list_crawler.py:84 | `replace(pat, "")` never lengthens the text |
| `Text.RemoveAllAbsent` | data_collector/aws_housing_list_crawler.py:84 | where the pattern does not occur nothing is removed |
| `Text.RemoveAllLeading` | data_collector/aws_housing_list_crawler.py:84 | a leading "Building age: " is cut and the rest kept |
| `Text.FirstOccurrence` | data_collector/aws_housing_list_crawler.py:513 | the index found is the first occurrence at or after the start, or the end when there is none |
| `Text.BeforeFirst` | data_collector/aws_housing_list_crawler.py:513 | `split(pat)[0]` is the prefix before the first occurrence: no occurrence starts inside it, and one starts right after it unless it is the whole text |
| `Text.AfterLast` | data_collector/aws_housing_list_crawler.py:512 | `split('/')[-1]` is a suffix without `/`, preceded by `/` unless it is the whole text |
| `Lines.LineEnd` | data_collector/aws_housing_list_crawler.py:409 | the first line boundary at or after the start, or the end |
| `Lines.BreakWidth` | data_collector/aws_housing_list_crawler.py:409 | a boundary is one character, or two for `\r\n` |
| `Lines.SplitLines` | data_collector/aws_housing_list_crawler.py:409 | `splitlines` gives lines without boundaries, no more lines than characters |
| `Lines.SplitAfterLine` | data_collector/housing_list_crawler.py:327-328 | a line followed by `\n` reads back as that line, then the rest |
| `Lines.SplitSingleLine` | data_collector/aws_housing_list_crawler.py:492 | a non-empty text without boundaries is one line |
| `Lines.SplitJoin` | data_collector/aws_housing_list_crawler.py:420 | `splitlines` inverts `"\n".join` for IDs without boundaries whose last ID is non-empty |
| `Lines.SplitTerminated` | data_collector/housing_list_crawler.py:325-328 | `splitlines` inverts the one-ID-per-line layout for every list of IDs without boundaries |
| `Lines.JoinDropsTrailingEmpty` | data_collector/aws_housing_list_crawler.py:420 | the joined layout loses a trailing empty ID; the terminated layout keeps it |
| `Lines.TerminatedSnoc` | data_collector/housing_list_crawler.py:326-328 | writing one more ID appends it and a newline |
| `Lines.WriteTerminated` | data_collector/housing_list_crawler.py:325-328 | the write loop produces exactly the terminated layout of the list |
| `Sequences.NoDupsCard` | data_collector/aws_housing_list_crawler.py:399 | a list without repeats is as long as its set |
| `StringOrder.LessIrreflexive` | data_collector/aws_housing_list_crawler.py:462 | no string sorts before itself |
| `StringOrder.LessAsymmetric` | data_collector/aws_housing_list_crawler.py:462 | string order is asymmetric |
| `StringOrder.LessTransitive` | data_collector/aws_housing_list_crawler.py:462 | string order is transitive |
| `StringOrder.LessTotal` | data_collector/aws_housing_list_crawler.py:462 | any two different strings are ordered |
| `StringOrder.MinimumExists` | data_collector/aws_housing_list_crawler.py:462 | a non-empty set of IDs has a smallest element |
| `StringOrder.MinimumFirst` | data_collector/aws_housing_list_crawler.py:462 | the minimum in front of the sorted rest enumerates the set in increasing order |
| `StringOrder.SortedIds` | data_collector/aws_housing_list_crawler.py:462 | `sorted(all_ids)` is strictly increasing and holds exactly the set's IDs |
| `StringOrder.SortedUnique` | data_collector/housing_list_crawler.py:359 | two strictly increasing lists with the same elements are equal, so the sorted ledger is determined by its set |
| `StringOrder.SortedNoDups` | data_collector/aws_housing_list_crawler.py:462 | the sorted ledger holds no ID twice |
| `Ledger.Dedup` | data_collector/aws_housing_list_crawler.py:399 | `list(set(ids))` has no repeats, the same IDs, and is no longer |
| `Ledger.Pending` | data_collector/aws_housing_list_crawler.py:415 | the comprehension keeps exactly the discovered IDs not completed, without repeats when the input has none |
| `Ledger.PendingNoneCompleted` | data_collector/aws_housing_list_crawler.py:405-415 | with a ledger sharing no ID with the discovered IDs (an empty or unreadable one), every discovered ID is pending, in order |
| `Ledger.ReadIds` | data_collector/aws_housing_list_crawler.py:409 | the ledger's IDs hold no line boundary |
| `Ledger.RenderReadBack` | data_collector/aws_housing_list_crawler.py:420 | either layout reads back as the list, the joined one only when its last ID is non-empty |
| `Ledger.EmptyLastOnlyAlone` | data_collector/aws_housing_list_crawler.py:462 | the empty ID is last in sorted order only when it is the only ID |
| `Ledger.LedgerReadBack` | data_collector/aws_housing_list_crawler.py:462 | a sorted ledger reads back as its sorted list and its set, except that the joined layout loses the ledger holding only the empty ID |
| `Ledger.MergeUnion` | data_collector/aws_housing_list_crawler.py:459-462 | the merged ledger holds exactly the union of ledger and batch, so it is a superset of each; its lines are strictly increasing and have no repeats |
| `Ledger.MergeIdempotent` | data_collector/housing_list_crawler.py:355-360 | merging the same batch again leaves the ledger text unchanged |
| `Ledger.Batch` | data_collector/aws_housing_list_crawler.py:399-415 | the batch has no repeats and holds exactly the discovered IDs minus the completed ones |
| `Ledger.BatchSpec` | Data_Collector/FindIDForUpdate.py:65-72 | an ID is in the batch if and only if it was discovered and is not completed; with nothing completed the batch is every discovered ID |
| `Ledger.BatchReadBack` | data_collector/aws_housing_list_crawler.py:415-420 | for non-empty IDs without boundaries, the batch written in either layout reads back as itself and as the diff |
| `Storage.Store.constructor` | data_collector/aws_housing_list_crawler.py:404 | a store with the given objects and failing names |
| `Storage.Store.Lookup` | data_collector/aws_housing_list_crawler.py:407-413 | absent exactly when missing, failed exactly when present and unreadable, otherwise the stored text |
| `Storage.Store.Write` | data_collector/aws_housing_list_crawler.py:421-425 | a write succeeds exactly when the name does not fail, replacing the text; otherwise nothing changes |
| `Storage.Store.Delete` | data_collector/aws_housing_list_crawler.py:470-474 | a delete succeeds exactly when the name does not fail, removing the object; otherwise nothing changes |
| `Dict.Keys` | data_collector/aws_housing_list_crawler.py:295 | the keys of the items, position by position |
| `Dict.Get` | data_collector/aws_housing_list_crawler.py:295 | a lookup finds a value exactly for the dict's keys |
| `Dict.GetCons` | data_collector/aws_housing_list_crawler.py:295 | a lookup in a dict with one more item in front |
| `Dict.AssignGet` | data_collector/aws_housing_list_crawler.py:299 | after an assignment the key holds the new value and the others keep theirs |
| `Dict.AssignGetAll` | data_collector/aws_housing_list_crawler.py:299 | the same for every other key at once |
| `Dict.KeysCons` | data_collector/aws_housing_list_crawler.py:295 | the keys of a dict with one more item in front |
| `Dict.AssignKeys` | data_collector/aws_housing_list_crawler.py:299 | an assignment keeps the key order and appends a new key last |
| `Dict.Put` | data_collector/aws_housing_list_crawler.py:251 | `d[k] = v`: the key holds the value, every other key keeps its value, and the key order is kept with a new key last |
| `Dict.PutTwo` | data_collector/aws_housing_list_crawler.py:251-252 | two assignments of different keys to an empty dict give both keys, in order, once each |
| `Dict.LastValue` | data_collector/aws_housing_list_crawler.py:295 | the items give a key a value exactly when the key occurs among them |
| `Dict.PutAllGet` | data_collector/aws_housing_list_crawler.py:295 | after `update`, a key holds the value of its last item, or keeps its old value |
| `Dict.LastValueCons` | data_collector/aws_housing_list_crawler.py:295 | a later item wins over the first |
| `Dict.WellFormedCons` | data_collector/aws_housing_list_crawler.py:308 | the tail of a dict has distinct keys, none equal to the head's |
| `Dict.UpdateGet` | data_collector/aws_housing_list_crawler.py:308 | `update` with another dict: its values win where it has the key |
| `Dict.PutInFront` | data_collector/aws_housing_list_crawler.py:299 | an assignment keeps the existing keys in place |
| `Dict.PutAllInFront` | data_collector/aws_housing_list_crawler.py:295 | `update` keeps the existing keys in place, in front |
| `Dict.PutAllTwo` | data_collector/aws_housing_list_crawler.py:299-300 | two assignments are an `update` with two items |
| `Dict.PutAllMembers` | data_collector/aws_housing_list_crawler.py:295 | after `update` the keys are the old keys and the items' keys, no others |
| `Dict.PutAllWellFormed` | data_collector/aws_housing_list_crawler.py:295 | `update` keeps the keys distinct |
| `Dict.PutWellFormed` | data_collector/aws_housing_list_crawler.py:299 | an assignment keeps the keys distinct |
| `Dict.Zip` | data_collector/aws_housing_list_crawler.py:295 | `zip` pairs the lists position by position, up to the shorter |
| `SnakeCase.DropSeparators` | data_collector/aws_housing_list_crawler.py:48 | drops exactly the leading run of whitespace and hyphens |
| `SnakeCase.CollapseSeparators` | data_collector/aws_housing_list_crawler.py:48 | collapsing runs never lengthens the text |
| `SnakeCase.KeepAllowed` | data_collector/aws_housing_list_crawler.py:50 | only ASCII letters, digits and spaces remain, and the text is no longer |
| `SnakeCase.SpacesToUnderscores` | data_collector/aws_housing_list_crawler.py:54 | every space becomes `_` and every other character stays |
| `SnakeCase.ToSnakeCase` | data_collector/aws_housing_list_crawler.py:46-54 | the result holds only `a-z`, `0-9` and `_` and is no longer than the input (twin: data_collector/housing_list_crawler.py:24-32) |
| `SnakeCase.AlnumOf` | data_collector/aws_housing_list_crawler.py:50 | the letters and digits of a text are no more than its characters |
| `SnakeCase.AlnumOfConcat` | data_collector/aws_housing_list_crawler.py:50 | letters and digits distribute over concatenation |
| `SnakeCase.AlnumOfNone` | data_collector/aws_housing_list_crawler.py:50 | a text without letters or digits contributes none |
| `SnakeCase.AlnumOfStrip` | data_collector/aws_housing_list_crawler.py:46 | `strip` keeps every letter and digit |
| `SnakeCase.AlnumOfCollapse` | data_collector/aws_housing_list_crawler.py:48 | collapsing separator runs keeps every letter and digit |
| `SnakeCase.AlnumOfKeep` | data_collector/aws_housing_list_crawler.py:50 | the character filter keeps every letter and digit |
| `SnakeCase.AlnumOfLower` | data_collector/aws_housing_list_crawler.py:52 | lowercasing lowercases exactly the letters and digits |
| `SnakeCase.AlnumOfUnderscores` | data_collector/aws_housing_list_crawler.py:54 | turning spaces into underscores keeps the letters and digits |
| `SnakeCase.KeepsLettersAndDigits` | data_collector/housing_list_crawler.py:24-32 | the output's letters and digits are exactly the input's, in order and lowercased |
| `SnakeCase.SurroundingWhitespaceIgnored` | data_collector/aws_housing_list_crawler.py:46 | surrounding whitespace leaves no trace in the output |
| `SnakeCase.CollapseAlnumPrefix` | data_collector/aws_housing_list_crawler.py:48 | a leading word is left alone by the collapse |
| `SnakeCase.DropSeparatorRun` | data_collector/aws_housing_list_crawler.py:48 | a separator run in front of a word is dropped whole |
| `SnakeCase.CollapseNoSeparators` | data_collector/aws_housing_list_crawler.py:48 | without separators the collapse changes nothing |
| `SnakeCase.CollapseRunThenWord` | data_collector/aws_housing_list_crawler.py:48 | a separator run before a word becomes one space |
| `SnakeCase.CollapseJoined` | data_collector/aws_housing_list_crawler.py:48 | two words around any separator run become the words around one space |
| `SnakeCase.JoinedWords` | data_collector/aws_housing_list_crawler.py:46-54 | two words joined by any run of whitespace and hyphens become the lowercased words joined by one `_` |
| `SnakeCase.PlainLabel` | data_collector/aws_housing_list_crawler.py:46-50 | a label of letters, digits and underscores passes strip and collapse unchanged |
| `SnakeCase.UnderscoreDeleted` | data_collector/aws_housing_list_crawler.py:50 | an underscore in the input is deleted and the words around it run together |
| `SnakeCase.NotIdempotent` | data_collector/aws_housing_list_crawler.py:46-54 | `"a b"` gives `"a_b"`, normalising again gives `"ab"`: the function is not idempotent |
| `Discovery.Collect` | data_collector/aws_housing_list_crawler.py:359-362 | exactly the present, non-empty `attr1` values are collected |
| `Discovery.Gathered` | data_collector/aws_housing_list_crawler.py:350-393 | every gathered ID is non-empty |
| `Discovery.ScrapedCount` | data_collector/aws_housing_list_crawler.py:363 | at most one count per visited page |
| `Discovery.Run` | data_collector/aws_housing_list_crawler.py:350-393 | the loop visits at least one page and never more than exist |
| `Discovery.RunCollects` | data_collector/aws_housing_list_crawler.py:359-363 | the IDs are exactly the collected values of the visited pages in page order, and the count is the number of visited pages read without an exception |
| `Discovery.RunStops` | data_collector/aws_housing_list_crawler.py:366-393 | every visited page but the last was left with a click; the stop reason matches the last page: limit reached on a scraped page, Next disabled, or Next unavailable |
| `Discovery.RunLimit` | data_collector/aws_housing_list_crawler.py:363-369 | the count never exceeds the limit and reaches it exactly when the loop stops for it; a limit at or below the start is never reached |
| `Discovery.CollectPage` | data_collector/aws_housing_list_crawler.py:359-362 | the inner loop collects exactly the present, non-empty values |
| `Discovery.ResumeStep` | data_collector/aws_housing_list_crawler.py:351-393 | one turn of the loop either stops with the page's IDs or moves to a next page that exists |
| `Discovery.VisitPage` | data_collector/aws_housing_list_crawler.py:354-393 | one page gives its IDs, the new count and the stop decision |
| `Discovery.DiscoverIds` | Data_Collector/FindIDForUpdate.py:20-59 | the imperative loop ends with exactly the run the specification function describes (also the loops at data_collector/aws_housing_list_crawler.py:350-393 and data_collector/housing_list_crawler.py:265-305) |
| `Discovery.PageNumbers` | data_collector/aws_housing_list_crawler.py:336-340 | no more page numbers than values |
| `Discovery.MaxOf` | data_collector/aws_housing_list_crawler.py:343-346 | `max` is absent only for no numbers; otherwise it is one of them and no smaller than any |
| `Discovery.PageNumbersSpec` | data_collector/aws_housing_list_crawler.py:337-340 | a number is a page number exactly when some all-digit value denotes it |
| `Discovery.MaxPageSpec` | data_collector/aws_housing_list_crawler.py:336-348 | the limit is absent exactly when no value is all digits; otherwise it is the largest such value |
| `Geolocation.QuoteRunEnd` | data_collector/aws_housing_list_crawler.py:258 | a `[^']+` group runs to the next quote |
| `Geolocation.MatchAt` | data_collector/aws_housing_list_crawler.py:258 | a match has two non-empty coordinates without `'` |
| `Geolocation.MatchParts` | data_collector/aws_housing_list_crawler.py:258 | a match has two non-empty captures without `'` |
| `Geolocation.FirstMatch` | data_collector/aws_housing_list_crawler.py:267 | the first position where a match starts, with none before it |
| `Geolocation.NoMatchAtEnd` | data_collector/aws_housing_list_crawler.py:267 | no match starts at the end of the text |
| `Geolocation.FindGeoLeftmost` | data_collector/aws_housing_list_crawler.py:267-271 | `findall(...)[0]` is absent exactly when nothing matches, and otherwise is the leftmost match, with non-empty quote-free coordinates |
| `Geolocation.FirstSomeAt` | data_collector/aws_housing_list_crawler.py:262-272 | the first present result is taken |
| `Geolocation.FirstSomeNone` | data_collector/aws_housing_list_crawler.py:262-272 | with no result nothing is taken |
| `Geolocation.ScriptGeos` | data_collector/aws_housing_list_crawler.py:262-267 | each script's result, in order |
| `Geolocation.FirstGeoSpec` | data_collector/aws_housing_list_crawler.py:262-272 | the coordinates come from the first script in order that has any, and are absent exactly when none has |
| `Geolocation.FirstGeoCoordinates` | data_collector/aws_housing_list_crawler.py:270-271 | coordinates found are both non-empty |
| `Geolocation.FirstSomeIndex` | data_collector/aws_housing_list_crawler.py:262-272 | some present result is the first one |
| `Geolocation.ScanScripts` | data_collector/aws_housing_list_crawler.py:262-272 | the loop with `break` returns exactly the first script's coordinates |
| `Geolocation.QuoteRunOver` | data_collector/aws_housing_list_crawler.py:258 | a quote-free run ends at the next quote |
| `Geolocation.OccursIn` | data_collector/aws_housing_list_crawler.py:258 | a literal occurs where it was placed |
| `Geolocation.MatchPartsAt` | data_collector/aws_housing_list_crawler.py:258 | a match read off by positions |
| `Geolocation.MatchPartsStart` | data_collector/aws_housing_list_crawler.py:258 | literal parts around two quote-free groups match exactly those groups |
| `Geolocation.EmbeddedGeo` | data_collector/aws_housing_list_crawler.py:258-271 | a text starting with `else{lat_o='A';lng_o='B';}` yields exactly A and B |
| `Geolocation.SpacedScript` | data_collector/aws_housing_list_crawler.py:258-271 | whitespace between `else` and `{` does not hide the coordinates |
| `Geolocation.SpacedScriptText` | data_collector/aws_housing_list_crawler.py:266 | removing whitespace from such a script leaves the pattern's literal text |
| `Listing.EstateInfo` | data_collector/aws_housing_list_crawler.py:74-88 | at most the keys `estate_entry_date` and `building_age`, each present exactly when its text is non-empty, the age with every "Building age: " removed (twins: data_collector/housing_list_crawler.py:53-67, Data_Collector/getData.py:33-47) |
| `Listing.EstateInfoAge` | data_collector/aws_housing_list_crawler.py:84-86 | "Building age: " followed by an age gives that age |
| `Listing.TableItems` | data_collector/aws_housing_list_crawler.py:288-295 | the pairs are the labels turned into keys (snake-cased or raw) zipped with the values, up to the shorter column |
| `Listing.TableDict` | data_collector/aws_housing_list_crawler.py:295 | `dict(zip(...))` has distinct keys |
| `Listing.TableKeys` | data_collector/aws_housing_list_crawler.py:288-295 | a table's keys are exactly the keys of the label positions that have a value |
| `Listing.TableKeysSnake` | data_collector/aws_housing_list_crawler.py:292-295 | snake-cased table keys hold only `a-z`, `0-9` and `_` |
| `Listing.WithTablesGet` | data_collector/aws_housing_list_crawler.py:283-295 | after the tables, a key holds the value of the last table that has it, or its earlier value |
| `Listing.WithTablesKeys` | data_collector/aws_housing_list_crawler.py:283-295 | the tables keep earlier keys in place and the keys distinct |
| `Listing.AssembleGet` | data_collector/aws_housing_list_crawler.py:249-308 | the last write wins: estate info over coordinates over the last table with the key over description and title |
| `Listing.AssembleKeys` | data_collector/aws_housing_list_crawler.py:251-308 | the record has distinct keys and starts with title, then description |
| `Listing.BaseRecordKeys` | data_collector/aws_housing_list_crawler.py:251-252 | title and description are two distinct keys, in that order |
| `Listing.GeoItemsValues` | data_collector/aws_housing_list_crawler.py:298-300 | found coordinates give both keys their value; without coordinates nothing is written |
| `Listing.EstateInfoNoCoordinates` | data_collector/aws_housing_list_crawler.py:298-308 | estate info never writes a coordinate key |
| `Listing.AssembleGeo` | data_collector/aws_housing_list_crawler.py:298-300 | latitude and longitude are written both or neither; with a match both hold its coordinates |
| `Listing.ReadProperty` | data_collector/aws_housing_list_crawler.py:228-310 | nothing when the request raised or no listing element exists; otherwise exactly the assembled record, built by successive updates (twins: data_collector/housing_list_crawler.py:165-247, Data_Collector/getData.py:146-226 with raw keys) |
| `Fetching.DocIdsSnoc` | data_collector/aws_housing_list_crawler.py:509-514 | one more listed key adds its ID when it ends in `.json` |
| `Fetching.ExistingDocIds` | data_collector/aws_housing_list_crawler.py:503-516 | the listing loop gathers exactly the IDs of the `.json` keys |
| `Fetching.StemOfJsonName` | data_collector/housing_list_crawler.py:372 | `<id>.json` cut at `.json` gives the ID back when the ID holds no `.` |
| `Fetching.AfterLastSlash` | data_collector/aws_housing_list_crawler.py:512 | the part after the last `/` of `dir/name` is the name |
| `Fetching.IdOfDocKeyOf` | data_collector/aws_housing_list_crawler.py:512-513 | the key `<dir>/<id>.json` gives the ID back |
| `Fetching.NoRefetchObject` | data_collector/aws_housing_list_crawler.py:518 | an ID whose document is among today's keys is not fetched again |
| `Fetching.NoRefetchFile` | Data_Collector/getData.py:234-241 | an ID whose file is in today's directory is not fetched again |
| `Fetching.RecordsSnoc` | data_collector/aws_housing_list_crawler.py:521-525 | reading one more ID adds its record if its page holds a listing |
| `Fetching.RecordsSpec` | data_collector/aws_housing_list_crawler.py:521-525 | an ID has a record exactly when it was read, returned, and its page holds a listing; the record is the assembled one |
| `Fetching.Advance` | data_collector/aws_housing_list_crawler.py:521-525 | a read that returned moves the ID from pending to done and keeps the loop's invariant |
| `Fetching.ReadOne` | data_collector/aws_housing_list_crawler.py:523-525 | a returned read gives the record if the page holds a listing; a `False` is only logged |
| `Fetching.FetchAll` | data_collector/aws_housing_list_crawler.py:521-528 | each ID is read at most once, only IDs to fetch, all of them when nothing raises; the loop raises exactly when the read of some ID to fetch raises, and then stops at an ID not yet read |
| `AwsCrawler.NeedUpdateReadBack` | data_collector/aws_housing_list_crawler.py:405-420 | the uploaded batch reads back as the discovered IDs not in the ledger, and as all of them when the ledger is missing or unreadable |
| `AwsCrawler.GenerateNeedUpdate` | data_collector/aws_housing_list_crawler.py:312-425 | raises exactly when no pagination value is all digits (unbound `max_page`), changing nothing; otherwise uploads the batch unless the upload fails |
| `AwsCrawler.MergedCompleted` | data_collector/aws_housing_list_crawler.py:463-474 | a successful ledger write survives the batch deletion |
| `AwsCrawler.MergeIds` | data_collector/aws_housing_list_crawler.py:427-474 | no change when the batch is missing or unreadable, or the ledger is unreadable; otherwise writes the merged ledger and deletes the batch even if that write failed |
| `AwsCrawler.MergedLedger` | data_collector/aws_housing_list_crawler.py:459-474 | after a successful write the ledger holds the union of its IDs and the batch's; a deletable batch is gone |
| `AwsCrawler.RunMain` | data_collector/aws_housing_list_crawler.py:476-529 | generation, then the fetch of the batch minus today's documents; a missing batch returns True, an unreadable one False; `main` raises exactly when there is no page limit or, with the batch read back, the read of some ID to fetch raises; every processed read returned; the ledger is untouched |
| `AwsCrawler.RunAttempt` | data_collector/aws_housing_list_crawler.py:535-543 | the attempt raises exactly when `main` raises (no page limit, or a raising read of an ID of the batch read back minus today's documents), since `merge_ids` swallows its errors; the batch read back is the uploaded text unless the upload or its read fails; merge runs only after `main` returned; a raising attempt leaves the ledger as it was |
| `AwsCrawler.RunWithRetries` | data_collector/aws_housing_list_crawler.py:531-550 | at most three attempts, repeated only while they raise; exit status 1 exactly when all three raised, and the ledger is then unchanged |
| `HousingCrawler.NeedUpdateReadBack` | data_collector/housing_list_crawler.py:315-328 | the batch file reads back line for line as the discovered IDs not in the ledger, empty IDs included |
| `HousingCrawler.GenerateNeedUpdate` | data_collector/housing_list_crawler.py:249-330 | raises exactly when the ledger exists but cannot be read, or the batch write fails; a missing ledger counts as empty; otherwise writes the batch |
| `HousingCrawler.MergeIds` | data_collector/housing_list_crawler.py:332-361 | no change when the batch file is absent; raises when it or an existing ledger cannot be read or the write fails; otherwise writes the merged ledger |
| `HousingCrawler.MergedLedger` | data_collector/housing_list_crawler.py:355-360 | the merged ledger holds exactly the union, a superset of both inputs |
| `HousingCrawler.RunMain` | data_collector/housing_list_crawler.py:363-392 | generation, then the fetch of the batch minus today's `.json` stems; a missing batch returns True without fetching; `main` raises exactly when the ledger is unreadable, the batch write fails, the batch is unreadable, or the read of some ID to fetch raises; every processed read returned |
| `HousingCrawler.RunAttempt` | data_collector/housing_list_crawler.py:398-413 | `main` raises exactly on an unreadable ledger, a failed or unreadable batch, or a raising read of an ID to fetch; once it returned, the attempt raises exactly when the ledger write or the batch removal fails, and a failed ledger write leaves the batch in place, so the batch is removed only after `merge_ids` returned; an attempt that does not raise leaves no batch and the merged ledger |
| `HousingCrawler.RunWithRetries` | data_collector/housing_list_crawler.py:394-420 | at most three attempts, repeated only while they raise; exit status 1 exactly when all raised; otherwise no batch is left |
| `GetData.FetchUpdates` | Data_Collector/getData.py:228-245 | crashes without reading when `Update.txt` is missing or unreadable; otherwise crashes exactly when the read of some ID of `set(ids) - existing_files` raises, and reads each such ID at most once, all of them when none raises; every processed read returned |
| `FindIdForUpdate.UniqueIds` | Data_Collector/FindIDForUpdate.py:65-79 | `unique_ids` is disjoint from the ledger, a subset of the discovered IDs, duplicate-free, holds every discovered ID not completed, and the written file reads back as it |
| `FindIdForUpdate.FindIds` | Data_Collector/FindIDForUpdate.py:20-81 | crashes without writing when `Completed.txt` is missing or unreadable or the write fails; otherwise `Need_Update.txt` holds the batch of the run, one ID per line |

## Left out

- **Browser driving.** Selenium page loads, clicks, scrolling, sleeps and random waits are replaced by the observed page outcomes. `get_adjacent_facilities` and `get_adj` are commented out of the record and are not modelled.
- **Page parsing.** `requests.get` and BeautifulSoup tree traversal are replaced by the parsed `Page` values. How a page's title, description, script texts and table cells are found is not modelled.
- **JSON writing.** `json.dumps`/`json.dump` and `write_data`/`write` are left out. The fetch loop returns the records it would write.
- **Logging and log files.** Logging, the log-file upload and the log-file removal are side effects with no effect on the state.
- **`transactions_data`.** It is commented out of the record.
- **Date parameters.** The current date (directory name and S3 prefix) is implicit: the listed keys and names are given as today's.
- **Unicode.** Whitespace and line boundaries are the ASCII ones plus the line boundaries `str.splitlines` accepts. Non-ASCII whitespace in `strip`/`\s`, Unicode case mapping in `lower` and non-ASCII digits in `isdigit`/`int` are not modelled.
- **Writes are atomic.** A failed write changes nothing, so a local file left truncated by a failure part-way through a write is not modelled.
- Ledger.Dedup: `list(set(...))` has an order Python leaves open; the model fixes first-occurrence order, and no proved property depends on it.
- Fetching.FetchAll: the order in which `for property_id in unique_ids` visits the set is left open (any choice); the records follow the order actually chosen.
- Discovery.Run: requires the observed pages to end with a page that did not lead on (`CompleteRun`); a crawl of endless "Next" pages, which never ends, is not modelled.
- Discovery.PageNumbersSpec: a pagination value counts as a page number only when it is made of the ASCII digits `0`-`9`. Python's `isdigit` is also true for other Unicode digits: `int` converts decimal digits such as `"٣"` (3) and raises `ValueError` on others such as `"²"`. Neither case is modelled, because the model carries no Unicode digit tables.
- Discovery.MaxPageSpec: for the same reason, a bar whose only all-digit values use non-ASCII decimal digits gives no limit here, while the source gets one; and a value such as `"²"`, on which the source raises, is skipped here.
- AwsCrawler.GenerateNeedUpdate: "raises exactly when no pagination value is all digits" holds for ASCII digits only. The `ValueError` from `int` on a digit such as `"²"` is not modelled, and non-ASCII decimal digits do not yield a page limit.
- AwsCrawler.RunMain: its raise condition contains `MaxPage` and so holds for ASCII digits only, as for `AwsCrawler.GenerateNeedUpdate`.
- AwsCrawler.RunAttempt: its raise condition likewise holds for ASCII digits only.
- Storage.Store: the names whose reads, writes or deletes fail are fixed for a store's lifetime, so every failure is permanent. A transient S3 or file error is not modelled. Two paths are lost with it: the AWS `main` returning `False` on an unreadable `need_update.txt` after which `merge_ids`' own read of that key succeeds and merges a batch nothing fetched, and a local-crawler retry that succeeds once a fault has cleared. `AwsCrawler.RunAttempt`'s merge clause relies on this: `merge_ids` reads the same outcomes as the reads before it.
- **Concurrent runs.** Two instances merging into one ledger at the same time are not modelled; each method runs alone on its store.
