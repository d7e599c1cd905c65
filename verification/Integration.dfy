/**
 * One run of the Destination One integration: fetch all types (or everything at once when no type is
 * configured), send the category facets, then the items, one message each. The two services share
 * nothing but these messages.
 */
module Integration {
  import opened Common
  import CategoryImport
  import DestinationOne
  import ListingImport

  /** The facets cover the item: its type has a seeded root, and each of its categories a facet. */
  ghost predicate CoveredItem(fold: char -> string, categories: map<string, CategoryImport.Category>,
      facets: seq<DestinationOne.Facet>, item: DestinationOne.Item) {
    && DestinationOne.RootCategoryOf(item.kind).Some?
    && DestinationOne.RootCategoryOf(item.kind).value.slug in categories
    && forall c :: c in item.categories ==> CategoryImport.Covered(fold, facets, item.kind, c)
  }

  /** The entry's listing is there, shows the item, and is in every category the item names. */
  ghost predicate FullyImported(fold: char -> string, cityId: string, c: CategoryImport.Tables,
      t: ListingImport.Tables, e: ListingImport.Entry) {
    && e.outcome.Ok? && ListingImport.Current(t, e.data, e.outcome.value.1)
    && CategoryImport.Resolves(fold, c, e.item)
    && ListingImport.FullyLinked(fold, t.listings[e.outcome.value.1], c, e.item)
    && ItemStored(fold, cityId, t.listings[e.outcome.value.1], e)
  }

  /** The row shows the item, and if the sync created it, it is an approved listing of the city. */
  ghost predicate ItemStored(fold: char -> string, cityId: string, row: ListingImport.Listing,
      e: ListingImport.Entry) {
    && ListingImport.ShowsItem(row, e.item)
    && (e.outcome.Ok? && e.outcome.value.0.Created? ==> ListingImport.NewForItem(fold, row, e.item, cityId))
  }

  /** The item reaches the core service, was not current before the run, and is admitted. */
  ghost predicate Lands(start: ListingImport.Tables, log: seq<ListingImport.Entry>,
      categories: map<string, CategoryImport.Category>, i: nat)
    requires i < |log|
  {
    && ListingImport.Arrives(log[i].delivery) && !ListingImport.IsCurrent(start, log[i].data)
    && ListingImport.Admitted(start, log, categories, i)
  }

  lemma {:induction false} EntriesDistinct(fold: char -> string, cityId: string, items: seq<DestinationOne.Item>,
        deliveries: seq<ListingImport.Delivery>, log: seq<ListingImport.Entry>)
    requires ListingImport.Logged(fold, cityId, items, deliveries, log) && DestinationOne.DistinctItems(items)
    ensures ListingImport.DistinctEntries(log)
  {
  }

  /** After a run whose facets arrived, every covered item that lands is fully imported. */
  lemma {:induction false} CoveredItemImported(
    fold: char -> string, before: CategoryImport.Tables, facets: seq<DestinationOne.Facet>,
    states: seq<ListingImport.Tables>, log: seq<ListingImport.Entry>, cityId: string,
    items: seq<DestinationOne.Item>, deliveries: seq<ListingImport.Delivery>, i: nat)
    requires CategoryImport.WellFormed(before) && DestinationOne.DistinctItems(items)
    requires ListingImport.Logged(fold, cityId, items, deliveries, log) && |log| == |items|
    requires ListingImport.IsRun(states, log, CategoryImport.Synced(fold, before, cityId, facets).categories)
    requires ListingImport.WellFormed(states[0]) && i < |items|
    requires CoveredItem(fold, before.categories, facets, items[i])
    requires Lands(states[0], log, CategoryImport.Synced(fold, before, cityId, facets).categories, i)
    ensures FullyImported(fold, cityId, CategoryImport.Synced(fold, before, cityId, facets), states[|log|], log[i])
  {
    var c := CategoryImport.Synced(fold, before, cityId, facets);
    CategoryImport.SyncTwice(fold, before, cityId, facets);
    CategoryImport.ItemResolvesIff(fold, before, cityId, facets, items[i]);
    assert CategoryImport.Resolves(fold, c, items[i]);
    assert DestinationOne.Emits(fold, items[i], DestinationOne.RootCategoryOf(items[i].kind).value.slug);
    EntriesDistinct(fold, cityId, items, deliveries, log);
    assert ListingImport.EntryOf(fold, cityId, items[i], deliveries[i], log[i]);
    ListingImport.LandsIff(states, log, c.categories, i);
    ListingImport.ItemsStayLinked(fold, c, states, log, cityId, i, |log|);
    ListingImport.ItemsLand(states, log, c.categories, i, |log|);
    WrittenItemStored(fold, cityId, states, log, c.categories, i);
  }

  lemma {:induction false} WrittenItemStored(fold: char -> string, cityId: string, states: seq<ListingImport.Tables>,
      log: seq<ListingImport.Entry>, categories: map<string, CategoryImport.Category>, i: nat)
    requires ListingImport.IsRun(states, log, categories) && ListingImport.WellFormed(states[0])
    requires ListingImport.DistinctEntries(log) && i < |log| && ListingImport.Written(log[i])
    requires ListingImport.Transformed(fold, log[i].item, cityId, log[i].data)
    ensures log[i].outcome.value.1 in states[|log|].listings
    ensures ItemStored(fold, cityId, states[|log|].listings[log[i].outcome.value.1], log[i])
  {
    ListingImport.ItemsStayWritten(states, log, categories, i, |log|);
    ListingImport.CarriedItemShows(fold, log[i].item, cityId, log[i].data,
                                   states[|log|].listings[log[i].outcome.value.1]);
  }

  /** Every covered item that lands is fully imported. */
  ghost predicate AllImported(fold: char -> string, cityId: string, before: CategoryImport.Tables,
      after: CategoryImport.Tables,
      start: ListingImport.Tables, end: ListingImport.Tables, facets: seq<DestinationOne.Facet>,
      items: seq<DestinationOne.Item>, log: seq<ListingImport.Entry>)
    requires |log| == |items|
  {
    forall i | 0 <= i < |items| && Lands(start, log, after.categories, i)
      && CoveredItem(fold, before.categories, facets, items[i]) ::
      FullyImported(fold, cityId, after, end, log[i])
  }

  lemma {:induction false} CoveredItemsImported(
    fold: char -> string, before: CategoryImport.Tables, facets: seq<DestinationOne.Facet>,
    states: seq<ListingImport.Tables>, log: seq<ListingImport.Entry>, cityId: string,
    items: seq<DestinationOne.Item>, deliveries: seq<ListingImport.Delivery>)
    requires CategoryImport.WellFormed(before) && DestinationOne.DistinctItems(items)
    requires ListingImport.Logged(fold, cityId, items, deliveries, log) && |log| == |items|
    requires ListingImport.IsRun(states, log, CategoryImport.Synced(fold, before, cityId, facets).categories)
    requires ListingImport.WellFormed(states[0])
    ensures AllImported(fold, cityId, before, CategoryImport.Synced(fold, before, cityId, facets),
                        states[0], states[|log|], facets, items, log)
  {
    var c := CategoryImport.Synced(fold, before, cityId, facets);
    forall i | 0 <= i < |items| && Lands(states[0], log, c.categories, i)
      && CoveredItem(fold, before.categories, facets, items[i])
      ensures FullyImported(fold, cityId, c, states[|log|], log[i])
    {
      CoveredItemImported(fold, before, facets, states, log, cityId, items, deliveries, i);
    }
  }

  datatype Summary = Summary(created: nat, updated: nat, skipped: nat)

  function SummaryOf(log: seq<ListingImport.Entry>): Summary {
    Summary(ListingImport.Count(log, ListingImport.CountCreated), ListingImport.Count(log, ListingImport.CountUpdated),
            ListingImport.Count(log, ListingImport.CountSkipped))
  }

  /** The entries whose answer came back with this action, by their places. */
  ghost function AnsweredWith(log: seq<ListingImport.Entry>, action: ListingImport.Action): set<nat> {
    set i: nat | i < |log| && log[i].delivery == ListingImport.Answered
      && log[i].outcome.Ok? && log[i].outcome.value.0 == action
  }

  /** The summary counts the answers that came back, by their action. */
  lemma {:induction false} SummaryMeans(log: seq<ListingImport.Entry>)
    ensures SummaryOf(log).created == |AnsweredWith(log, ListingImport.Created)|
    ensures SummaryOf(log).updated == |AnsweredWith(log, ListingImport.Updated)|
    ensures SummaryOf(log).skipped == |AnsweredWith(log, ListingImport.Skipped)|
  {
    AnsweredCount(log, ListingImport.CountCreated, ListingImport.Created);
    AnsweredCount(log, ListingImport.CountUpdated, ListingImport.Updated);
    AnsweredCount(log, ListingImport.CountSkipped, ListingImport.Skipped);
  }

  lemma {:induction false} AnsweredCount(log: seq<ListingImport.Entry>, what: ListingImport.Tally,
      action: ListingImport.Action)
    requires (what, action) in {(ListingImport.CountCreated, ListingImport.Created),
                                (ListingImport.CountUpdated, ListingImport.Updated),
                                (ListingImport.CountSkipped, ListingImport.Skipped)}
    ensures ListingImport.Count(log, what) == |AnsweredWith(log, action)|
  {
    ListingImport.CountIs(log, what);
    forall i: nat | i < |log|
      ensures ListingImport.Tallied(log[i]) == what <==> i in AnsweredWith(log, action)
    {
      ListingImport.TallyMeans(log[i]);
    }
    assert ListingImport.EntriesCounting(log, what) == AnsweredWith(log, action);
  }

  /** What the transport does with each of `n` messages. */
  lemma {:induction false} DeliveriesAre(delivery: nat -> ListingImport.Delivery, n: nat)
    ensures |Deliveries(delivery, n)| == n && forall i: nat :: i < n ==> Deliveries(delivery, n)[i] == delivery(i)
  {
  }

  function Deliveries(delivery: nat -> ListingImport.Delivery, n: nat): seq<ListingImport.Delivery> {
    seq(n, i requires 0 <= i < n => delivery(i))
  }

  /** Where the items and facets of a run come from. */
  ghost predicate Gathers(apis: string -> DestinationOne.Api, setting: Option<nat>, types: seq<string>,
      single: DestinationOne.Single, pages: seq<nat>, items: seq<DestinationOne.Item>,
      facets: seq<DestinationOne.Facet>) {
    if types != [] then
      && DestinationOne.AllPaged(apis, setting, types, pages)
      && items == DestinationOne.FirstById(DestinationOne.ItemsOfTypes(apis, types, pages))
      && facets == DestinationOne.FacetsOfTypes(apis, types, pages)
    else
      && single.Some?
      && (single.value.None? ==> items == [] && facets == [])
      && (single.value.Some? ==>
            && items == single.value.value.items
            && facets == if single.value.value.facetGroups.Some?
                         then DestinationOne.InferredOfGroups(items, single.value.value.facetGroups.value) else [])
  }

  /** Exactly the first item of each id. */
  ghost predicate FirstsOf(all: seq<DestinationOne.Item>, items: seq<DestinationOne.Item>) {
    && DestinationOne.DistinctItems(items)
    && forall x :: x in items <==> exists i: nat :: DestinationOne.FirstAt(all, x, i)
  }

  lemma {:induction false} FirstByIdAre(all: seq<DestinationOne.Item>)
    ensures FirstsOf(all, DestinationOne.FirstById(all))
  {
    DestinationOne.FirstByIdKeepsFirsts(all);
  }

  /**
   * The items and facets of a run. Under a filter every type was paged to its last page, the items are
   * the first of each id over all these pages, and the facets those of all types; without one they
   * are those of the one answer, and none if it holds no result.
   */
  lemma {:induction false} GathersMeans(apis: string -> DestinationOne.Api, setting: Option<nat>, types: seq<string>,
      single: DestinationOne.Single, pages: seq<nat>, items: seq<DestinationOne.Item>,
      facets: seq<DestinationOne.Facet>)
    requires Gathers(apis, setting, types, single, pages, items, facets)
    ensures types == [] ==>
              && single != None
              && (single.value == None ==> items == [] && facets == [])
              && (single.value != None ==> OfAnswer(single.value.value, items, facets))
    ensures types != [] ==>
              && DestinationOne.AllPaged(apis, setting, types, pages)
              && FirstsOf(DestinationOne.ItemsOfTypes(apis, types, pages), items)
              && facets == DestinationOne.FacetsOfTypes(apis, types, pages)
  {
    if types != [] { FirstByIdAre(DestinationOne.ItemsOfTypes(apis, types, pages)); }
  }

  /** The items of the answer, and its category facets with inferred types. */
  ghost predicate OfAnswer(answer: DestinationOne.Response, items: seq<DestinationOne.Item>,
      facets: seq<DestinationOne.Facet>) {
    && items == answer.items
    && (answer.facetGroups == None ==> facets == [])
    && (answer.facetGroups != None ==>
          facets == DestinationOne.InferredOfGroups(items, answer.facetGroups.value))
  }

  /** By type when a filter is configured, otherwise in one request. */
  method FetchItems(apis: string -> DestinationOne.Api, setting: Option<nat>, types: seq<string>,
      single: DestinationOne.Single)
    returns (r: Option<(seq<DestinationOne.Item>, seq<DestinationOne.Facet>)>, ghost pages: seq<nat>)
    ensures r.Some? ==> Gathers(apis, setting, types, single, pages, r.value.0, r.value.1)
    ensures r.Some? && types != [] ==> DestinationOne.DistinctItems(r.value.0)
    ensures types == [] ==> (r.None? <==> single.None?)
  {
    if |types| > 0 {
      r, pages := DestinationOne.FetchAllTypes(apis, setting, types);
      if r.Some? {
        DestinationOne.FirstByIdKeepsFirsts(DestinationOne.ItemsOfTypes(apis, types, pages));
      }
    } else {
      r := DestinationOne.FetchSingle(single);
      pages := [];
    }
  }

  /**
   * The whole run: either some page request fails and neither service changes, or the facets reach
   * the core service (or are lost), and then every item in turn. In a run whose facets arrive and
   * whose items have distinct ids, as they do under a type filter, all covered items that land end up
   * fully imported.
   */
  method SyncIntegration(
    core: CategoryImport.CoreService, tables: ListingImport.ListingTables, fold: char -> string, cityId: string,
    apis: string -> DestinationOne.Api, setting: Option<nat>, types: seq<string>, single: DestinationOne.Single,
    facetsArrive: bool, delivery: nat -> ListingImport.Delivery)
    returns (r: Option<Summary>, ghost items: seq<DestinationOne.Item>, ghost facets: seq<DestinationOne.Facet>,
             ghost pages: seq<nat>, ghost states: seq<ListingImport.Tables>, ghost log: seq<ListingImport.Entry>)
    requires CategoryImport.WellFormed(core.View()) && ListingImport.WellFormed(tables.View())
    modifies core, tables
    ensures CategoryImport.WellFormed(core.View()) && ListingImport.WellFormed(tables.View())
    ensures r.None? ==> core.View() == old(core.View()) && tables.View() == old(tables.View())
    ensures r.Some? ==>
              && Gathers(apis, setting, types, single, pages, items, facets)
              && (types != [] ==> DestinationOne.DistinctItems(items))
              && |log| == |items| && ListingImport.Logged(fold, cityId, items, Deliveries(delivery, |items|), log)
              && ListingImport.IsRun(states, log, core.View().categories)
              && states[0] == old(tables.View()) && states[|log|] == tables.View()
              && r.value == SummaryOf(log)
    ensures r.Some? ==>
              core.View() ==
                if facetsArrive then CategoryImport.Synced(fold, old(core.View()), cityId, facets) else old(core.View())
    ensures r.Some? && facetsArrive && DestinationOne.DistinctItems(items) ==>
              AllImported(fold, cityId, old(core.View()), core.View(), old(tables.View()), tables.View(), facets,
                          items, log)
  {
    ghost var before := core.View();
    states, log := [], [];
    var fetched;
    fetched, pages := FetchItems(apis, setting, types, single);
    if fetched.None? {
      return None, [], [], pages, [], [];
    }
    var found, categoryFacets := fetched.value.0, fetched.value.1;
    items, facets := found, categoryFacets;
    if |categoryFacets| > 0 && facetsArrive {
      var created, updated := core.SyncCategoriesFromIntegration(fold, cityId, categoryFacets);
    }
    var deliveries := Deliveries(delivery, |found|);
    var created, updated, skipped, errorCount;
    created, updated, skipped, errorCount, states, log :=
        tables.ProcessItems(fold, found, cityId, core.categories, deliveries);
    if facetsArrive && DestinationOne.DistinctItems(items) {
      CoveredItemsImported(fold, before, facets, states, log, cityId, items, deliveries);
    }
    r := Some(Summary(created, updated, skipped));
  }
}
