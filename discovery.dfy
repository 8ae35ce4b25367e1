/** Listing discovery: the pagination loop that walks the result pages of
    the listing site, collects the `attr1` value of every listing element
    and stops at a page limit or when there is no usable "Next" button, and
    the page limit taken from the pagination bar. */
module Discovery {
  import opened Outcomes
  import opened Text

  /** What reading the listing elements of one page gave: every element's
      `attr1` value in order (`None` where the attribute is missing), or an
      exception raised after the values in `before` were read. */
  datatype Scrape =
    | Scraped(attrs: seq<Option<string>>)
    | Raised(before: seq<Option<string>>)

  /** What happened with the "Next" button after the page was read. */
  datatype NextButton =
    | Clicked      // found, enabled and clicked
    | Disabled     // found but not enabled
    | Unavailable  // missing, or locating, scrolling to or clicking it raised

  datatype PageVisit = PageVisit(scrape: Scrape, next: NextButton)

  datatype Stop = LimitReached | NoNextPage | NextUnavailable

  /** What the loop leaves behind: the IDs in collection order, the number of
      pages read without an exception, the number of pages visited, and why
      it stopped. */
  datatype Crawl = Crawl(ids: seq<string>, scraped: nat, visited: nat, stop: Stop)

  /** The observed pages describe a whole run: the last one did not lead on
      to a further page. */
  predicate CompleteRun(pages: seq<PageVisit>)
  {
    pages != [] && pages[|pages| - 1].next != Clicked
  }

  /** The values read from a page before it finished or raised. */
  function Observed(s: Scrape): seq<Option<string>>
  {
    match s
    case Scraped(attrs) => attrs
    case Raised(before) => before
  }

  /** `if property_id: property_ids.append(property_id)` over a page: the
      present, non-empty values in order. */
  function Collect(attrs: seq<Option<string>>): (r: seq<string>)
    ensures |r| <= |attrs|
    ensures forall i :: 0 <= i < |r| ==> r[i] != ""
    ensures forall x :: x in r <==> x != "" && Some(x) in attrs
  {
    if attrs == [] then []
    else
      var init := attrs[..|attrs| - 1];
      var a := attrs[|attrs| - 1];
      assert attrs == init + [a];
      var c := Collect(init);
      if a.Some? && a.value != "" then c + [a.value] else c
  }

  /** All values collected from a list of visited pages, in order. */
  function Gathered(pages: seq<PageVisit>): (r: seq<string>)
    ensures forall i :: 0 <= i < |r| ==> r[i] != ""
  {
    if pages == [] then [] else Collect(Observed(pages[0].scrape)) + Gathered(pages[1..])
  }

  /** The number of pages read without an exception. */
  function ScrapedCount(pages: seq<PageVisit>): (n: nat)
    ensures n <= |pages|
  {
    if pages == [] then 0
    else (if pages[0].scrape.Scraped? then 1 else 0) + ScrapedCount(pages[1..])
  }

  /** The scraped-page count after visiting `p`. */
  function Counted(p: PageVisit, scraped: nat): nat
  {
    if p.scrape.Scraped? then scraped + 1 else scraped
  }

  /** Why the loop stops right after visiting `p`, if it does. */
  function PageStop(p: PageVisit, scraped: nat, limit: nat): Option<Stop>
  {
    if p.scrape.Scraped? && scraped + 1 == limit then Some(LimitReached)
    else
      match p.next
      case Disabled => Some(NoNextPage)
      case Unavailable => Some(NextUnavailable)
      case Clicked => None
  }

  /** The loop from the first of `pages` on, with `count` pages already
      scraped: a page read without an exception counts, and the loop ends
      when the count reaches `limit`; otherwise the "Next" button decides. */
  function Run(pages: seq<PageVisit>, limit: nat, count: nat): (r: Crawl)
    requires CompleteRun(pages)
    ensures 1 <= r.visited <= |pages|
  {
    var p := pages[0];
    var got := Collect(Observed(p.scrape));
    match PageStop(p, count, limit)
    case Some(stop) => Crawl(got, Counted(p, count), 1, stop)
    case None =>
      var rest := Run(pages[1..], limit, Counted(p, count));
      Crawl(got + rest.ids, rest.scraped, rest.visited + 1, rest.stop)
  }

  /** The first `v + 1` pages are the first page and the next `v`. */
  lemma PrefixCons(pages: seq<PageVisit>, v: nat)
    requires v < |pages|
    ensures pages[..v + 1] == [pages[0]] + pages[1..][..v]
    ensures Gathered(pages[..v + 1]) == Collect(Observed(pages[0].scrape)) + Gathered(pages[1..][..v])
    ensures ScrapedCount(pages[..v + 1]) == (if pages[0].scrape.Scraped? then 1 else 0) + ScrapedCount(pages[1..][..v])
  {
    assert pages[..v + 1][0] == pages[0];
    assert pages[..v + 1][1..] == pages[1..][..v];
  }

  /** The IDs are exactly the present, non-empty values of the visited pages,
      in page order, and the count is the number of visited pages read
      without an exception. */
  lemma {:induction false} RunCollects(pages: seq<PageVisit>, limit: nat, count: nat)
    requires CompleteRun(pages)
    ensures Run(pages, limit, count).ids == Gathered(pages[..Run(pages, limit, count).visited])
    ensures Run(pages, limit, count).scraped == count + ScrapedCount(pages[..Run(pages, limit, count).visited])
  {
    var p := pages[0];
    var got := Collect(Observed(p.scrape));
    var r := Run(pages, limit, count);
    match PageStop(p, count, limit)
    case Some(stop) =>
      assert r == Crawl(got, Counted(p, count), 1, stop);
      PrefixCons(pages, 0);
      assert pages[1..][..0] == [];
      assert got + [] == got;
    case None =>
      var count' := Counted(p, count);
      var rest := Run(pages[1..], limit, count');
      assert r == Crawl(got + rest.ids, rest.scraped, rest.visited + 1, rest.stop);
      RunCollects(pages[1..], limit, count');
      PrefixCons(pages, rest.visited);
  }

  /** Every visited page but the last led on with a click, and the stop
      reason is what happened on the last one. */
  lemma {:induction false} RunStops(pages: seq<PageVisit>, limit: nat, count: nat)
    requires CompleteRun(pages)
    ensures var r := Run(pages, limit, count);
      && (forall k :: 0 <= k < r.visited - 1 ==> pages[k].next == Clicked)
      && (r.stop == LimitReached ==> pages[r.visited - 1].scrape.Scraped? && r.scraped == limit)
      && (r.stop == NoNextPage ==> pages[r.visited - 1].next == Disabled)
      && (r.stop == NextUnavailable ==> pages[r.visited - 1].next == Unavailable)
  {
    var p := pages[0];
    if PageStop(p, count, limit) == None {
      RunStops(pages[1..], limit, Counted(p, count));
    }
  }

  /** Starting below the limit, the loop never reads more pages than the
      limit, and it stops for the limit exactly when the count reaches it.
      A limit at or below the starting count is never reached. */
  lemma {:induction false} RunLimit(pages: seq<PageVisit>, limit: nat, count: nat)
    requires CompleteRun(pages)
    ensures var r := Run(pages, limit, count);
      && r.scraped >= count
      && (count < limit ==> r.scraped <= limit && (r.stop == LimitReached <==> r.scraped == limit))
      && (limit <= count ==> r.stop != LimitReached)
  {
    var p := pages[0];
    if PageStop(p, count, limit) == None {
      RunLimit(pages[1..], limit, Counted(p, count));
    }
  }

  /** The inner loop over one page's listing elements. */
  method CollectPage(values: seq<Option<string>>) returns (got: seq<string>)
    ensures got == Collect(values)
  {
    got := [];
    var j := 0;
    while j < |values|
      invariant 0 <= j <= |values|
      invariant got == Collect(values[..j])
    {
      var v := values[j];
      assert values[..j + 1] == values[..j] + [v];
      if v.Some? && v.value != "" {
        got := got + [v.value];
      }
      j := j + 1;
    }
    assert values[..j] == values;
  }

  /** What the loop ends with when it resumes at page `k` having gathered
      `ids` and scraped `scraped` pages. */
  function Resume(pages: seq<PageVisit>, limit: nat, k: nat, ids: seq<string>, scraped: nat): Crawl
    requires CompleteRun(pages) && k < |pages|
  {
    assert pages[k..][|pages[k..]| - 1] == pages[|pages| - 1];
    var r := Run(pages[k..], limit, scraped);
    Crawl(ids + r.ids, r.scraped, k + r.visited, r.stop)
  }

  /** One turn of the loop at page `k`: it stops there with the page's IDs
      added, or it moves on to page `k + 1`, which exists. */
  lemma ResumeStep(pages: seq<PageVisit>, limit: nat, k: nat, ids: seq<string>, scraped: nat)
    requires CompleteRun(pages) && k < |pages|
    ensures var p := pages[k];
      var got := Collect(Observed(p.scrape));
      var stop := PageStop(p, scraped, limit);
      && (stop.Some? ==> Resume(pages, limit, k, ids, scraped) == Crawl(ids + got, Counted(p, scraped), k + 1, stop.value))
      && (stop == None ==>
            k + 1 < |pages| && Resume(pages, limit, k, ids, scraped) == Resume(pages, limit, k + 1, ids + got, Counted(p, scraped)))
  {
    var ps := pages[k..];
    assert ps[|ps| - 1] == pages[|pages| - 1];
    assert ps[0] == pages[k];
    var p := pages[k];
    if PageStop(p, scraped, limit) == None {
      assert k + 1 < |pages|;
      assert ps[1..] == pages[k + 1..];
      var got := Collect(Observed(p.scrape));
      var rest := Run(pages[k + 1..], limit, Counted(p, scraped));
      assert ids + (got + rest.ids) == (ids + got) + rest.ids;
    }
  }

  /** One page of the loop: its IDs, the new count, and whether to stop. */
  method VisitPage(p: PageVisit, limit: nat, scraped: nat) returns (got: seq<string>, count: nat, stop: Option<Stop>)
    ensures got == Collect(Observed(p.scrape))
    ensures count == Counted(p, scraped)
    ensures stop == PageStop(p, scraped, limit)
  {
    got := CollectPage(Observed(p.scrape));
    count := scraped;
    if p.scrape.Scraped? {
      count := count + 1;
      if count == limit {
        return got, count, Some(LimitReached);
      }
    }
    match p.next
    case Disabled =>
      stop := Some(NoNextPage);
    case Unavailable =>
      stop := Some(NextUnavailable);
    case Clicked =>
      stop := None;
  }

  /** The pagination loop: reads each page's `attr1` values, counts the
      pages read without an exception, stops at `limit`, and otherwise
      follows the "Next" button. */
  method DiscoverIds(pages: seq<PageVisit>, limit: nat) returns (ids: seq<string>, scraped: nat, visited: nat, stop: Stop)
    requires CompleteRun(pages)
    ensures Crawl(ids, scraped, visited, stop) == Run(pages, limit, 0)
  {
    ids := [];
    scraped := 0;
    var k := 0;
    assert pages[0..] == pages;
    while true
      invariant 0 <= k < |pages|
      invariant Run(pages, limit, 0) == Resume(pages, limit, k, ids, scraped)
      decreases |pages| - k
    {
      ResumeStep(pages, limit, k, ids, scraped);
      var got, count, pageStop := VisitPage(pages[k], limit, scraped);
      ids := ids + got;
      scraped := count;
      if pageStop.Some? {
        return ids, scraped, k + 1, pageStop.value;
      }
      k := k + 1;
    }
  }

  /** `attr_value.isdigit()` for the ASCII digits. */
  predicate AllDigits(s: string)
  {
    s != [] && forall i :: 0 <= i < |s| ==> IsAsciiDigit(s[i])
  }

  /** `int(s)` for a string of decimal digits. */
  function DecimalValue(s: string): nat
    requires forall i :: 0 <= i < |s| ==> IsAsciiDigit(s[i])
  {
    if s == [] then 0
    else 10 * DecimalValue(s[..|s| - 1]) + DigitValue(s[|s| - 1])
  }

  function DigitValue(c: char): (d: nat)
    requires IsAsciiDigit(c)
    ensures d < 10
  {
    c as int - '0' as int
  }

  /** The page numbers of the pagination bar: the values that are all
      digits, as numbers, in order. */
  function PageNumbers(values: seq<Option<string>>): (r: seq<nat>)
    ensures |r| <= |values|
  {
    if values == [] then []
    else
      var rest := PageNumbers(values[..|values| - 1]);
      var v := values[|values| - 1];
      if v.Some? && AllDigits(v.value) then rest + [DecimalValue(v.value)] else rest
  }

  /** `max(page_numbers)`, or `None` when there is none. */
  function MaxOf(ns: seq<nat>): (m: Option<nat>)
    ensures m == None <==> ns == []
    ensures m.Some? ==> m.value in ns && forall n :: n in ns ==> n <= m.value
  {
    if ns == [] then None
    else
      var rest := MaxOf(ns[..|ns| - 1]);
      assert ns == ns[..|ns| - 1] + [ns[|ns| - 1]];
      if rest.Some? && rest.value >= ns[|ns| - 1] then rest else Some(ns[|ns| - 1])
  }

  /** The page limit read from the pagination bar: the largest all-digit
      value, or `None` when no value is all digits. */
  function MaxPage(values: seq<Option<string>>): (m: Option<nat>)
  {
    MaxOf(PageNumbers(values))
  }

  /** The page limit is `None` exactly when no value of the bar is all
      digits; otherwise it is one of their numbers and no smaller than any. */
  lemma {:induction false} MaxPageSpec(values: seq<Option<string>>)
    ensures MaxPage(values) == None <==> forall i :: 0 <= i < |values| ==> !(values[i].Some? && AllDigits(values[i].value))
    ensures MaxPage(values).Some? ==>
      (exists i :: 0 <= i < |values| && values[i].Some? && AllDigits(values[i].value)
                   && DecimalValue(values[i].value) == MaxPage(values).value)
      && (forall i :: 0 <= i < |values| && values[i].Some? && AllDigits(values[i].value)
                   ==> DecimalValue(values[i].value) <= MaxPage(values).value)
  {
    PageNumbersSpec(values);
    var ns := PageNumbers(values);
    forall i | 0 <= i < |values| && values[i].Some? && AllDigits(values[i].value)
      ensures DecimalValue(values[i].value) in ns
    {
    }
    if ns != [] {
      assert ns[0] in ns;
    }
  }

  /** A number is a page number exactly when some all-digit value denotes it. */
  lemma {:induction false} PageNumbersSpec(values: seq<Option<string>>)
    ensures forall n :: n in PageNumbers(values) <==>
      exists i :: 0 <= i < |values| && values[i].Some? && AllDigits(values[i].value) && DecimalValue(values[i].value) == n
  {
    if values != [] {
      var init := values[..|values| - 1];
      PageNumbersSpec(init);
      assert forall i :: 0 <= i < |init| ==> init[i] == values[i];
    }
  }
}
