/**
 * The Destination One client of the integration service: the category slugs of an item, the page
 * loop, and the gathering of items and category facets over several types. The remote interface is
 * an oracle that answers or fails per type and page.
 */
module DestinationOne {
  import opened Arithmetic
  import opened Common
  import Slugs

  datatype CategoryType = GASTRO | EVENT | TOUR | POI | HOTEL | ARTICLE

  datatype RootCategory = RootCategory(slug: string, categoryType: CategoryType)

  /** A date is the moment its text denotes, and `None` when the text denotes none that can be stored. */
  type Date = Option<int>

  /** An interval as the feed sends it; a missing `interval` is 0. */
  datatype RawInterval =
    RawInterval(weekdays: seq<string>, start: Date, end: Date, tz: string, freq: string, interval: int)

  datatype Recurrence = NONE | DAILY | WEEKLY | MONTHLY | YEARLY

  datatype TimeInterval =
    TimeInterval(weekdays: seq<string>, start: Date, end: Date, tz: string, freq: Recurrence, interval: int)

  /** `content` is the chosen text, `details` the optional text fields that are present. */
  datatype Item = Item(id: string, kind: string, title: string, categories: seq<string>, syncHash: string,
                       content: string, details: map<string, string>, latitude: Option<real>, longitude: Option<real>,
                       timeIntervals: Option<seq<RawInterval>>)

  // ---- Time intervals -------------------------------------------------------------------------------

  predicate IsWeekday(day: string) {
    day in ["Monday", "Tuesday", "Wednesday", "Thursday", "Friday", "Saturday", "Sunday"]
  }

  function ConvertWeekdays(weekdays: seq<string>): seq<string> {
    if weekdays == [] then []
    else
      var last := weekdays[|weekdays| - 1];
      ConvertWeekdays(weekdays[..|weekdays| - 1]) + if IsWeekday(last) then [last] else []
  }

  function MapRecurrenceFreq(freq: string): Recurrence {
    if freq == "Daily" then DAILY
    else if freq == "Weekly" then WEEKLY
    else if freq == "Monthly" then MONTHLY
    else if freq == "Yearly" then YEARLY
    else NONE
  }

  function ConvertInterval(raw: RawInterval): TimeInterval {
    TimeInterval(ConvertWeekdays(raw.weekdays), raw.start, raw.end, raw.tz, MapRecurrenceFreq(raw.freq),
                 if raw.interval != 0 then raw.interval else 1)
  }

  function ConvertIntervals(raws: seq<RawInterval>): (r: seq<TimeInterval>)
    ensures |r| == |raws| && forall i :: 0 <= i < |r| ==> r[i] == ConvertInterval(raws[i])
  {
    seq(|raws|, i requires 0 <= i < |raws| => ConvertInterval(raws[i]))
  }

  ghost predicate DayName(day: string) {
    day in {"Monday", "Tuesday", "Wednesday", "Thursday", "Friday", "Saturday", "Sunday"}
  }

  /** `at` are the places of the real weekdays. */
  ghost predicate WeekdaysAt(weekdays: seq<string>, at: seq<nat>) {
    forall i: nat :: i in at <==> i < |weekdays| && DayName(weekdays[i])
  }

  lemma {:induction false} WeekdaysAtNext(weekdays: seq<string>, at: seq<nat>)
    requires weekdays != [] && WeekdaysAt(weekdays[..|weekdays| - 1], at)
    ensures WeekdaysAt(weekdays, Taken(at, |weekdays| - 1, DayName(weekdays[|weekdays| - 1])))
  {
  }

  lemma {:induction false} WeekdaysNext(weekdays: seq<string>, at: seq<nat>)
    requires weekdays != [] && Picks(weekdays[..|weekdays| - 1], at, ConvertWeekdays(weekdays[..|weekdays| - 1]))
    ensures Picks(weekdays, Taken(at, |weekdays| - 1, DayName(weekdays[|weekdays| - 1])), ConvertWeekdays(weekdays))
  {
    var front, last := weekdays[..|weekdays| - 1], weekdays[|weekdays| - 1];
    assert weekdays == front + [last];
    PicksAppend(front, last, at, ConvertWeekdays(front), DayName(last));
  }

  /** Exactly the real weekdays stay, as often as they were named and in that order. */
  lemma {:induction false} WeekdaysExactly(weekdays: seq<string>) returns (at: seq<nat>)
    ensures Picks(weekdays, at, ConvertWeekdays(weekdays)) && WeekdaysAt(weekdays, at)
  {
    at := [];
    if weekdays != [] {
      at := WeekdaysExactly(weekdays[..|weekdays| - 1]);
      WeekdaysAtNext(weekdays, at);
      WeekdaysNext(weekdays, at);
      at := Taken(at, |weekdays| - 1, DayName(weekdays[|weekdays| - 1]));
    }
  }

  /** The interval as it is stored: its dates and zone as they came, its recurrence by name, at least every unit. */
  ghost predicate Converted(raw: RawInterval, r: TimeInterval) {
    && r.start == raw.start && r.end == raw.end && r.tz == raw.tz
    && r.interval == (if raw.interval == 0 then 1 else raw.interval)
    && (raw.freq == "Daily" <==> r.freq == DAILY) && (raw.freq == "Weekly" <==> r.freq == WEEKLY)
    && (raw.freq == "Monthly" <==> r.freq == MONTHLY) && (raw.freq == "Yearly" <==> r.freq == YEARLY)
    && exists at :: Picks(raw.weekdays, at, r.weekdays) && WeekdaysAt(raw.weekdays, at)
  }

  lemma {:induction false} ConversionIs(raw: RawInterval)
    ensures Converted(raw, ConvertInterval(raw))
  {
    var at := WeekdaysExactly(raw.weekdays);
  }

  /** Conversion loses no interval and reorders none. */
  lemma {:induction false} IntervalsConvert(raws: seq<RawInterval>)
    ensures |ConvertIntervals(raws)| == |raws|
    ensures forall i :: 0 <= i < |raws| ==> Converted(raws[i], ConvertIntervals(raws)[i])
  {
    forall i | 0 <= i < |raws|
      ensures Converted(raws[i], ConvertIntervals(raws)[i])
    {
      ConversionIs(raws[i]);
    }
  }

  // ---- Category slugs of an item ------------------------------------------------------------------

  function RootCategoryOf(kind: string): Option<RootCategory> {
    if kind == "Gastro" then Some(RootCategory("food-and-drink", GASTRO))
    else if kind == "Event" then Some(RootCategory("events", EVENT))
    else if kind == "Tour" then Some(RootCategory("tours", TOUR))
    else if kind == "POI" then Some(RootCategory("points-of-interest", POI))
    else if kind == "Hotel" then Some(RootCategory("hotels-and-stays", HOTEL))
    else if kind == "Article" then Some(RootCategory("articles-and-stories", ARTICLE))
    else None
  }

  function SubSlug(fold: char -> string, rootSlug: string, text: string): string {
    rootSlug + "-" + Slugs.Slugify(fold, text)
  }

  /** The slugs an item should have: its root's, and one per category below that root. */
  ghost predicate Emits(fold: char -> string, item: Item, slug: string) {
    var root := RootCategoryOf(item.kind);
    && root.Some?
    && (slug == root.value.slug || exists c :: c in item.categories && slug == SubSlug(fold, root.value.slug, c))
  }

  method CategorySlugs(fold: char -> string, item: Item) returns (slugs: seq<string>)
    ensures Distinct(slugs)
    ensures forall s :: s in slugs <==> Emits(fold, item, s)
    ensures RootCategoryOf(item.kind).Some? ==> slugs != [] && slugs[0] == RootCategoryOf(item.kind).value.slug
  {
    var root := RootCategoryOf(item.kind);
    slugs := [];
    if root.Some? { slugs := [root.value.slug]; }
    for i := 0 to |item.categories|
      invariant Distinct(slugs) && (root.None? ==> slugs == [])
      invariant root.Some? ==> slugs != [] && slugs[0] == root.value.slug
      invariant root.Some? ==> forall s :: s in slugs <==>
                  || s == root.value.slug
                  || exists c :: c in item.categories[..i] && s == SubSlug(fold, root.value.slug, c)
    {
      assert item.categories[..i + 1] == item.categories[..i] + [item.categories[i]];
      if root.Some? {
        var slug := SubSlug(fold, root.value.slug, item.categories[i]);
        if slug !in slugs { slugs := slugs + [slug]; }
      }
    }
    assert item.categories[..|item.categories|] == item.categories;
  }

  // ---- The page loop --------------------------------------------------------------------------------

  datatype ApiFacet = ApiFacet(value: string, name: string)

  datatype FacetGroup = FacetGroup(field: string, facets: seq<ApiFacet>)

  datatype Response = Response(items: seq<Item>, count: Option<nat>, overallcount: Option<nat>,
      facetGroups: Option<seq<FacetGroup>>)

  /** What each page request is answered with; `None` is a failed request. */
  type Api = nat -> Option<Response>

  const MAX_PAGES := 1000

  function PageSize(setting: Option<nat>): (size: nat)
    ensures size > 0
  {
    if setting.Some? && setting.value != 0 then setting.value else 100
  }

  function ItemsAt(api: Api, page: nat): seq<Item> {
    match api(page) case None => [] case Some(r) => r.items
  }

  /** All items of the pages from 1 to `pages`. */
  function Gathered(api: Api, pages: nat): seq<Item> {
    if pages == 0 then [] else Gathered(api, pages - 1) + ItemsAt(api, pages)
  }

  /** The facet groups of the last page that has any. */
  function LastFacets(api: Api, pages: nat): Option<seq<FacetGroup>> {
    if pages == 0 then None
    else if api(pages).Some? && api(pages).value.facetGroups.Some? then api(pages).value.facetGroups
    else LastFacets(api, pages - 1)
  }

  predicate Stops(api: Api, pageSize: nat, page: nat) {
    var r := api(page);
    r.Some? &&
    var got := |Gathered(api, page)|;
    var overall := if r.value.overallcount.Some? then r.value.overallcount.value else got;
    var count := if r.value.count.Some? then r.value.count.value else |r.value.items|;
    r.value.items == [] || (overall != 0 && got >= overall) || count < pageSize
  }

  predicate Continues(api: Api, pageSize: nat, page: nat) {
    api(page).Some? && !Stops(api, pageSize, page)
  }

  /** The loop requests every page up to this one: none before it stops it. */
  ghost predicate Reaches(api: Api, pageSize: nat, page: nat) {
    1 <= page <= MAX_PAGES && forall p :: 1 <= p < page ==> Continues(api, pageSize, p)
  }

  ghost predicate LastPage(api: Api, pageSize: nat, page: nat) {
    Reaches(api, pageSize, page) && api(page).Some? && (page == MAX_PAGES || Stops(api, pageSize, page))
  }

  datatype Fetched = Fetched(items: seq<Item>, facetGroups: Option<seq<FacetGroup>>)

  method FetchDataPaginatedForType(api: Api, setting: Option<nat>) returns (r: Option<Fetched>, requests: nat)
    ensures Reaches(api, PageSize(setting), requests) && (r.None? <==> api(requests).None?)
    ensures r.Some? ==> LastPage(api, PageSize(setting), requests)
    ensures r.Some? ==> r.value == Fetched(Gathered(api, requests), LastFacets(api, requests))
  {
    var pageSize := PageSize(setting);
    var page := 1;
    var allItems: seq<Item> := [];
    var lastFacetGroups: Option<seq<FacetGroup>> := None;
    requests := 1;
    while page <= MAX_PAGES
      invariant 1 <= page <= MAX_PAGES + 1 && requests == if page == 1 then 1 else page - 1
      invariant forall p :: 1 <= p < page ==> Continues(api, pageSize, p)
      invariant allItems == Gathered(api, page - 1) && lastFacetGroups == LastFacets(api, page - 1)
    {
      requests := page;
      var response := api(page);
      if response.None? { return None, requests; }
      var pageItems := response.value.items;
      allItems := allItems + pageItems;
      if response.value.facetGroups.Some? { lastFacetGroups := response.value.facetGroups; }
      var count := if response.value.count.Some? then response.value.count.value else |pageItems|;
      var overallcount := if response.value.overallcount.Some? then response.value.overallcount.value else |allItems|;
      if pageItems == [] || (overallcount != 0 && |allItems| >= overallcount) || count < pageSize { break; }
      page := page + 1;
    }
    assert page > MAX_PAGES ==> Continues(api, pageSize, requests);
    r := Some(Fetched(allItems, lastFacetGroups));
  }

  /** The page size asked for, or 100 without one; zero counts as none. */
  lemma {:induction false} PageSizeIs(size: nat)
    ensures PageSize(None) == 100 && PageSize(Some(0)) == 100 && (size > 0 ==> PageSize(Some(size)) == size)
  {
  }

  /**
   * The loop goes on after a page if and only if the request was answered with items, their stated or
   * else actual count fills a page, and they do not complete the overall count; a missing overall
   * count is what has been gathered, and a zero one is no limit.
   */
  lemma {:induction false} GoesOnIff(api: Api, pageSize: nat, page: nat)
    ensures Continues(api, pageSize, page) <==>
              && api(page) != None
              && var r, got := api(page).value, |Gathered(api, page)|;
                 && r.items != []
                 && (r.count == None ==> |r.items| >= pageSize)
                 && (r.count != None ==> r.count.value >= pageSize)
                 && (r.overallcount == None ==> got == 0)
                 && (r.overallcount !in {None, Some(0)} ==> got < r.overallcount.value)
  {
  }

  /** The facet groups that come back are those of the last page that has any. */
  lemma {:induction false} LastFacetsIs(api: Api, pages: nat, page: nat)
    requires 1 <= page <= pages && api(page).Some? && api(page).value.facetGroups.Some?
    requires forall p :: page < p <= pages ==> api(p).None? || api(p).value.facetGroups.None?
    ensures LastFacets(api, pages) == api(page).value.facetGroups
  {
    if page < pages { LastFacetsIs(api, pages - 1, page); }
  }

  lemma {:induction false} NoFacets(api: Api, pages: nat)
    requires forall p :: 1 <= p <= pages ==> api(p).None? || api(p).value.facetGroups.None?
    ensures LastFacets(api, pages) == None
  {
    if pages > 0 { NoFacets(api, pages - 1); }
  }

  // ---- Against an honest interface --------------------------------------------------------------------

  function Min(a: nat, b: nat): nat { if a <= b then a else b }

  /** How much of the list the first pages cover. */
  function Covered(list: seq<Item>, pageSize: nat, pages: nat): (n: nat)
    ensures n <= |list|
  {
    Min(pages * pageSize, |list|)
  }

  function PageOfList(list: seq<Item>, pageSize: nat, page: nat): seq<Item>
    requires page > 0
  {
    NextMultiple(page, pageSize);
    list[Covered(list, pageSize, page - 1)..Covered(list, pageSize, page)]
  }

  /** The interface pages `list` truthfully; `total` says whether it reports the overall count. */
  ghost predicate Honest(api: Api, list: seq<Item>, pageSize: nat, total: bool) {
    forall p: nat :: p > 0 ==>
      && api(p).Some?
      && api(p).value.items == PageOfList(list, pageSize, p)
      && (api(p).value.count.Some? ==> api(p).value.count.value == |api(p).value.items|)
      && api(p).value.overallcount == if total then Some(|list|) else None
  }

  lemma {:induction false} GatheredIsPrefix(api: Api, list: seq<Item>, pageSize: nat, total: bool, pages: nat)
    requires Honest(api, list, pageSize, total)
    ensures Gathered(api, pages) == list[..Covered(list, pageSize, pages)]
  {
    if pages > 0 {
      GatheredIsPrefix(api, list, pageSize, total, pages - 1);
      NextMultiple(pages, pageSize);
      SplitAt(list, Covered(list, pageSize, pages - 1), Covered(list, pageSize, pages));
      assert api(pages).value.items == PageOfList(list, pageSize, pages);
    } else {
      assert 0 * pageSize == 0;
    }
  }

  lemma {:induction false} SplitAt(list: seq<Item>, a: nat, b: nat)
    requires a <= b <= |list|
    ensures list[..b] == list[..a] + list[a..b]
  {
  }

  /** With an overall count, the loop stops at the first page that completes the list. */
  lemma {:induction false} StopsWhenComplete(api: Api, list: seq<Item>, pageSize: nat, page: nat)
    requires Honest(api, list, pageSize, true) && pageSize > 0 && page > 0
    ensures Stops(api, pageSize, page) <==> |list| <= page * pageSize
  {
    GatheredIsPrefix(api, list, pageSize, true, page);
    NextMultiple(page, pageSize);
    assert |api(page).value.items| == |PageOfList(list, pageSize, page)|;
  }

  function Pages(n: nat, pageSize: nat): nat
    requires pageSize > 0
  {
    if n == 0 then 1 else CeilDiv(n, pageSize)
  }

  /**
   * Against an honest interface that reports its overall count: the first 1000 pages of the list are
   * returned, in as many requests as they have pages.
   */
  lemma {:induction false} PaginationExact(api: Api, list: seq<Item>, setting: Option<nat>, requests: nat)
    requires Honest(api, list, PageSize(setting), true) && LastPage(api, PageSize(setting), requests)
    ensures Gathered(api, requests) == list[..Covered(list, PageSize(setting), MAX_PAGES)]
    ensures requests == Min(Pages(|list|, PageSize(setting)), MAX_PAGES)
  {
    var size := PageSize(setting);
    GatheredIsPrefix(api, list, size, true, requests);
    StopsWhenComplete(api, list, size, requests);
    MulMonotone(requests, MAX_PAGES, size);
    CeilDivLeast(|list|, size, requests);
    if requests > 1 {
      StopsWhenComplete(api, list, size, requests - 1);
      CeilDivLeast(|list|, size, requests - 1);
      assert Continues(api, size, requests - 1);
    }
    CeilDivLeast(|list|, size, 0);
  }

  /** Without an overall count the running count stands in for it, and any first page ends the loop. */
  lemma {:induction false} PaginationWithoutTotal(api: Api, list: seq<Item>, setting: Option<nat>, requests: nat)
    requires Honest(api, list, PageSize(setting), false) && LastPage(api, PageSize(setting), requests)
    ensures requests == 1 && Gathered(api, requests) == list[..Covered(list, PageSize(setting), 1)]
  {
    GatheredIsPrefix(api, list, PageSize(setting), false, 1);
    assert Stops(api, PageSize(setting), 1) && !Continues(api, PageSize(setting), 1);
    GatheredIsPrefix(api, list, PageSize(setting), false, requests);
  }

  /** Exactly when the whole list comes back from an honest interface. */
  lemma {:induction false} PaginationCompleteIff(api: Api, list: seq<Item>, setting: Option<nat>, total: bool,
      requests: nat)
    requires Honest(api, list, PageSize(setting), total) && LastPage(api, PageSize(setting), requests)
    ensures Gathered(api, requests) == list <==> |list| <= (if total then MAX_PAGES else 1) * PageSize(setting)
  {
    if total {
      PaginationExact(api, list, setting, requests);
    } else {
      PaginationWithoutTotal(api, list, setting, requests);
    }
  }

  /** The honest interface over a list. */
  function HonestApi(list: seq<Item>, pageSize: nat, total: bool): Api {
    (page: nat) =>
      if page == 0 then None
      else Some(Response(PageOfList(list, pageSize, page), None, if total then Some(|list|) else None, None))
  }

  /** One item more than a page, and no overall count: the loop ends after one request, and the item is lost. */
  lemma {:induction false} SecondPageLost(item: Item, setting: Option<nat>)
    ensures var size := PageSize(setting);
            var list := seq(size + 1, _ => item);
            var api := HonestApi(list, size, false);
            Honest(api, list, size, false) && LastPage(api, size, 1) && |Gathered(api, 1)| == size < |list|
  {
  }

  // ---- Items and facets over all types ------------------------------------------------------------------

  ghost predicate HasId(items: seq<Item>, id: string) {
    exists i :: 0 <= i < |items| && items[i].id == id
  }

  /** The first item of each id, in order. */
  ghost function FirstById(items: seq<Item>): seq<Item> {
    if items == [] then []
    else
      var front, last := FirstById(items[..|items| - 1]), items[|items| - 1];
      if HasId(items[..|items| - 1], last.id) then front else front + [last]
  }

  ghost predicate DistinctItems(items: seq<Item>) {
    forall i, j :: 0 <= i < j < |items| ==> items[i].id != items[j].id
  }

  /** At position `i`, and no item before it has the same id. */
  ghost predicate FirstAt(items: seq<Item>, x: Item, i: nat) {
    i < |items| && items[i] == x && forall j :: 0 <= j < i ==> items[j].id != x.id
  }

  /** No id twice, no id lost, and every item kept is the first with its id. */
  lemma {:induction false} FirstByIdKeepsFirsts(items: seq<Item>)
    ensures DistinctItems(FirstById(items))
    ensures forall id :: HasId(FirstById(items), id) <==> HasId(items, id)
    ensures forall x :: x in FirstById(items) <==> exists i: nat :: FirstAt(items, x, i)
  {
    if items != [] {
      var n := |items| - 1;
      var before, last := items[..n], items[n];
      FirstByIdKeepsFirsts(before);
      var front, all := FirstById(before), FirstById(items);
      HasIdOfLast(items);
      if !HasId(before, last.id) {
        assert !HasId(front, last.id);
        HasIdOfLast(all);
        assert all[..|all| - 1] == front;
      }
      forall x
        ensures x in all <==> exists i: nat :: FirstAt(items, x, i)
      {
        FirstAtStep(items, x);
      }
    }
  }

  lemma {:induction false} HasIdOfLast(items: seq<Item>)
    requires items != []
    ensures forall id :: HasId(items, id) <==> HasId(items[..|items| - 1], id) || items[|items| - 1].id == id
  {
  }

  lemma {:induction false} FirstAtStep(items: seq<Item>, x: Item)
    requires items != []
    ensures var before, last := items[..|items| - 1], items[|items| - 1];
            (exists i: nat :: FirstAt(items, x, i)) <==>
            (exists i: nat :: FirstAt(before, x, i)) || (x == last && !HasId(before, last.id))
  {
    var n := |items| - 1;
    var before, last := items[..n], items[n];
    if i: nat :| FirstAt(items, x, i) {
      if i < n {
        assert FirstAt(before, x, i);
      } else {
        assert forall j :: 0 <= j < n ==> before[j] == items[j];
      }
    }
    if i: nat :| FirstAt(before, x, i) {
      assert FirstAt(items, x, i);
    }
    if x == last && !HasId(before, last.id) {
      assert forall j :: 0 <= j < n ==> before[j] == items[j];
      assert FirstAt(items, x, n);
    }
  }

  /** What comes first stays first: the items of earlier types keep their places. */
  lemma {:induction false} FirstByIdKeepsOrder(a: seq<Item>, b: seq<Item>)
    ensures FirstById(a) <= FirstById(a + b)
  {
    if b == [] {
      assert a + b == a;
    } else {
      assert (a + b)[..|a + b| - 1] == a + b[..|b| - 1];
      FirstByIdKeepsOrder(a, b[..|b| - 1]);
    }
  }

  datatype Facet = Facet(kind: string, field: string, value: string, name: string)

  function Labelled(kind: string, field: string, facets: seq<ApiFacet>): (r: seq<Facet>)
    ensures |r| == |facets|
    ensures forall i :: 0 <= i < |r| ==> r[i] == Facet(kind, field, facets[i].value, facets[i].name)
  {
    seq(|facets|, i requires 0 <= i < |facets| => Facet(kind, field, facets[i].value, facets[i].name))
  }

  function FacetsOfGroups(kind: string, groups: seq<FacetGroup>): seq<Facet> {
    if groups == [] then []
    else
      var last := groups[|groups| - 1];
      FacetsOfGroups(kind, groups[..|groups| - 1]) +
      if last.field == "category" then Labelled(kind, last.field, last.facets) else []
  }

  /** Group by group: the facets of the category field in their order, with the type they were asked for. */
  lemma {:induction false} FacetsByGroup(kind: string, a: seq<FacetGroup>, b: seq<FacetGroup>, g: FacetGroup)
    ensures FacetsOfGroups(kind, a + b) == FacetsOfGroups(kind, a) + FacetsOfGroups(kind, b)
    ensures g.field != "category" ==> FacetsOfGroups(kind, [g]) == []
    ensures g.field == "category" ==>
              && |FacetsOfGroups(kind, [g])| == |g.facets|
              && forall i :: 0 <= i < |g.facets| ==>
                   FacetsOfGroups(kind, [g])[i] == Facet(kind, "category", g.facets[i].value, g.facets[i].name)
    decreases |b|
  {
    assert [g][..0] == [];
    if b == [] {
      assert a + b == a;
    } else {
      assert (a + b)[..|a + b| - 1] == a + b[..|b| - 1];
      FacetsByGroup(kind, a, b[..|b| - 1], g);
    }
  }

  function FacetsOf(kind: string, groups: Option<seq<FacetGroup>>): seq<Facet> {
    if groups.Some? then FacetsOfGroups(kind, groups.value) else []
  }

  /** Every facet of the category field comes back with the type asked for, and nothing else does. */
  lemma {:induction false} FacetsMember(kind: string, groups: seq<FacetGroup>, f: Facet)
    ensures FacetsOf(kind, None) == []
    ensures f in FacetsOf(kind, Some(groups)) <==>
              && f.kind == kind && f.field == "category"
              && exists g, x :: g in groups && g.field == "category" && x in g.facets
                   && f.value == x.value && f.name == x.name
  {
    if groups != [] {
      var front, last := groups[..|groups| - 1], groups[|groups| - 1];
      assert groups == front + [last];
      FacetsMember(kind, front, f);
      LabelledMember(kind, last, f);
    }
  }

  lemma {:induction false} LabelledMember(kind: string, g: FacetGroup, f: Facet)
    ensures f in Labelled(kind, g.field, g.facets) <==>
              && f.kind == kind && f.field == g.field
              && exists x :: x in g.facets && f.value == x.value && f.name == x.name
  {
    var r := Labelled(kind, g.field, g.facets);
    if f in r {
      var i :| 0 <= i < |r| && r[i] == f;
      assert g.facets[i] in g.facets;
    }
    if x :| x in g.facets && f.kind == kind && f.field == g.field && f.value == x.value && f.name == x.name {
      var i :| 0 <= i < |g.facets| && g.facets[i] == x;
      assert r[i] == f;
    }
  }

  ghost function ItemsOfTypes(apis: string -> Api, types: seq<string>, pages: seq<nat>): seq<Item>
    requires |types| == |pages|
  {
    if types == [] then []
    else
      var n := |types| - 1;
      ItemsOfTypes(apis, types[..n], pages[..n]) + Gathered(apis(types[n]), pages[n])
  }

  ghost function FacetsOfTypes(apis: string -> Api, types: seq<string>, pages: seq<nat>): seq<Facet>
    requires |types| == |pages|
  {
    if types == [] then []
    else
      var n := |types| - 1;
      FacetsOfTypes(apis, types[..n], pages[..n]) + FacetsOf(types[n], LastFacets(apis(types[n]), pages[n]))
  }

  /** Every type was paged to its last page. */
  ghost predicate AllPaged(apis: string -> Api, setting: Option<nat>, types: seq<string>, pages: seq<nat>) {
    |pages| == |types| && forall k :: 0 <= k < |types| ==> LastPage(apis(types[k]), PageSize(setting), pages[k])
  }

  lemma {:induction false} OneTypeMore(apis: string -> Api, setting: Option<nat>, types: seq<string>, pages: seq<nat>,
      k: nat, requests: nat)
    requires k < |types| && AllPaged(apis, setting, types[..k], pages)
    requires LastPage(apis(types[k]), PageSize(setting), requests)
    ensures AllPaged(apis, setting, types[..k + 1], pages + [requests])
    ensures ItemsOfTypes(apis, types[..k + 1], pages + [requests]) ==
            ItemsOfTypes(apis, types[..k], pages) + Gathered(apis(types[k]), requests)
    ensures FacetsOfTypes(apis, types[..k + 1], pages + [requests]) ==
            FacetsOfTypes(apis, types[..k], pages) + FacetsOf(types[k], LastFacets(apis(types[k]), requests))
  {
    assert types[..k + 1][..k] == types[..k] && (pages + [requests])[..k] == pages;
  }

  /** One pass over the items of a type, with the ids seen so far. */
  method AddUnseen(items: seq<Item>, processedIds: set<string>, fetched: seq<Item>, ghost seen: seq<Item>)
    returns (items': seq<Item>, processedIds': set<string>)
    requires items == FirstById(seen) && forall id :: id in processedIds <==> HasId(seen, id)
    ensures items' == FirstById(seen + fetched) && forall id :: id in processedIds' <==> HasId(seen + fetched, id)
  {
    items', processedIds' := items, processedIds;
    assert seen + fetched[..0] == seen;
    for i := 0 to |fetched|
      invariant items' == FirstById(seen + fetched[..i])
      invariant forall id :: id in processedIds' <==> HasId(seen + fetched[..i], id)
    {
      ghost var now := seen + fetched[..i + 1];
      assert now[..|now| - 1] == seen + fetched[..i] && now[|now| - 1] == fetched[i];
      HasIdOfLast(now);
      if fetched[i].id !in processedIds' {
        items' := items' + [fetched[i]];
        processedIds' := processedIds' + {fetched[i].id};
      }
    }
    assert fetched[..|fetched|] == fetched;
  }

  method CollectFacets(kind: string, groups: Option<seq<FacetGroup>>) returns (facets: seq<Facet>)
    ensures facets == FacetsOf(kind, groups)
  {
    facets := [];
    if groups.Some? {
      for i := 0 to |groups.value|
        invariant facets == FacetsOfGroups(kind, groups.value[..i])
      {
        assert groups.value[..i + 1][..i] == groups.value[..i];
        if groups.value[i].field == "category" {
          facets := facets + Labelled(kind, groups.value[i].field, groups.value[i].facets);
        }
      }
      assert groups.value[..|groups.value|] == groups.value;
    }
  }

  /**
   * All types of the filter in turn. Either some request fails and nothing is returned, or the items
   * are the first of each id over all pages, and the facets those of every type.
   */
  method FetchAllTypes(apis: string -> Api, setting: Option<nat>, types: seq<string>)
    returns (r: Option<(seq<Item>, seq<Facet>)>, ghost pages: seq<nat>)
    ensures r.Some? ==> AllPaged(apis, setting, types, pages)
    ensures r.Some? ==> r.value.0 == FirstById(ItemsOfTypes(apis, types, pages))
    ensures r.Some? ==> r.value.1 == FacetsOfTypes(apis, types, pages)
    ensures r.None? ==> exists k, p ::
        0 <= k < |types| && Reaches(apis(types[k]), PageSize(setting), p) && apis(types[k])(p).None?
  {
    var items: seq<Item>, processedIds: set<string>, facets: seq<Facet> := [], {}, [];
    pages := [];
    for k := 0 to |types|
      invariant AllPaged(apis, setting, types[..k], pages)
      invariant items == FirstById(ItemsOfTypes(apis, types[..k], pages))
      invariant forall id :: id in processedIds <==> HasId(ItemsOfTypes(apis, types[..k], pages), id)
      invariant facets == FacetsOfTypes(apis, types[..k], pages)
    {
      var result, requests := FetchDataPaginatedForType(apis(types[k]), setting);
      if result.None? { return None, pages; }
      items, processedIds := AddUnseen(items, processedIds, result.value.items, ItemsOfTypes(apis, types[..k], pages));
      var found := CollectFacets(types[k], result.value.facetGroups);
      facets := facets + found;
      OneTypeMore(apis, setting, types, pages, k, requests);
      pages := pages + [requests];
    }
    assert types[..|types|] == types;
    r := Some((items, facets));
  }

  // ---- Without a type filter ----------------------------------------------------------------------------

  /** The type of the first item that carries the facet's value as a category. */
  function InferredKind(items: seq<Item>, value: string): string {
    if items == [] then "Unknown"
    else if value in items[0].categories then (if items[0].kind != "" then items[0].kind else "Unknown")
    else InferredKind(items[1..], value)
  }

  lemma {:induction false} InferredFromFirst(items: seq<Item>, value: string, i: nat)
    requires i < |items| && value in items[i].categories
    requires forall j :: 0 <= j < i ==> value !in items[j].categories
    ensures InferredKind(items, value) == if items[i].kind != "" then items[i].kind else "Unknown"
    decreases i
  {
    if i > 0 { InferredFromFirst(items[1..], value, i - 1); }
  }

  lemma {:induction false} InferredUnknown(items: seq<Item>, value: string)
    requires forall x :: x in items ==> value !in x.categories
    ensures InferredKind(items, value) == "Unknown"
  {
    if items != [] {
      assert items[0] in items;
      InferredUnknown(items[1..], value);
    }
  }

  function Inferred(items: seq<Item>, field: string, facets: seq<ApiFacet>): (r: seq<Facet>)
    ensures |r| == |facets|
    ensures forall i :: 0 <= i < |r| ==>
              r[i] == Facet(InferredKind(items, facets[i].value), field, facets[i].value, facets[i].name)
  {
    seq(|facets|, i requires 0 <= i < |facets| =>
      Facet(InferredKind(items, facets[i].value), field, facets[i].value, facets[i].name))
  }

  function InferredOfGroups(items: seq<Item>, groups: seq<FacetGroup>): seq<Facet> {
    if groups == [] then []
    else
      var last := groups[|groups| - 1];
      InferredOfGroups(items, groups[..|groups| - 1]) +
      if last.field == "category" then Inferred(items, last.field, last.facets) else []
  }

  /** The same without a type filter: each facet has the type of the first item that carries its value. */
  lemma {:induction false} InferredByGroup(items: seq<Item>, a: seq<FacetGroup>, b: seq<FacetGroup>, g: FacetGroup)
    ensures InferredOfGroups(items, a + b) == InferredOfGroups(items, a) + InferredOfGroups(items, b)
    ensures g.field != "category" ==> InferredOfGroups(items, [g]) == []
    ensures g.field == "category" ==>
              && |InferredOfGroups(items, [g])| == |g.facets|
              && forall i :: 0 <= i < |g.facets| ==>
                   InferredOfGroups(items, [g])[i]
                   == Facet(InferredKind(items, g.facets[i].value), "category", g.facets[i].value, g.facets[i].name)
    decreases |b|
  {
    assert [g][..0] == [];
    if b == [] {
      assert a + b == a;
    } else {
      assert (a + b)[..|a + b| - 1] == a + b[..|b| - 1];
      InferredByGroup(items, a, b[..|b| - 1], g);
    }
  }

  /** `items.find` and the fallback. */
  method FindKind(items: seq<Item>, value: string) returns (kind: string)
    ensures kind == InferredKind(items, value)
  {
    for i := 0 to |items|
      invariant forall j :: 0 <= j < i ==> value !in items[j].categories
    {
      if value in items[i].categories {
        InferredFromFirst(items, value, i);
        return if items[i].kind != "" then items[i].kind else "Unknown";
      }
    }
    InferredUnknown(items, value);
    return "Unknown";
  }

  method InferFacets(items: seq<Item>, field: string, apiFacets: seq<ApiFacet>) returns (facets: seq<Facet>)
    ensures facets == Inferred(items, field, apiFacets)
  {
    facets := [];
    for i := 0 to |apiFacets|
      invariant facets == Inferred(items, field, apiFacets)[..i]
    {
      var kind := FindKind(items, apiFacets[i].value);
      facets := facets + [Facet(kind, field, apiFacets[i].value, apiFacets[i].name)];
    }
  }

  /** The answer to the one request: `None` if it failed, `Some(None)` if it holds no result. */
  type Single = Option<Option<Response>>

  /** One unpaged request: its items as they are, and its category facets with inferred types. */
  method FetchSingle(single: Single) returns (r: Option<(seq<Item>, seq<Facet>)>)
    ensures r.None? <==> single.None?
    ensures single == Some(None) ==> r == Some(([], []))
    ensures single.Some? && single.value.Some? ==>
              var answer := single.value.value;
              var facets :=
                if answer.facetGroups.Some? then InferredOfGroups(answer.items, answer.facetGroups.value) else [];
              r == Some((answer.items, facets))
  {
    if single.None? { return None; }
    if single.value.None? { return Some(([], [])); }
    var items, facets: seq<Facet> := single.value.value.items, [];
    var groups := single.value.value.facetGroups;
    if groups.Some? {
      for i := 0 to |groups.value|
        invariant facets == InferredOfGroups(items, groups.value[..i])
      {
        assert groups.value[..i + 1][..i] == groups.value[..i];
        if groups.value[i].field == "category" {
          var found := InferFacets(items, groups.value[i].field, groups.value[i].facets);
          facets := facets + found;
        }
      }
      assert groups.value[..|groups.value|] == groups.value;
    }
    return Some((items, facets));
  }
}
