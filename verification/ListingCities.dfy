/**
 * The cities of a listing: the reconciler that brings the join table to the requested rows, and the
 * denormalised `primaryCityId` column that creation, update and import keep beside it.
 */
module ListingCities {
  import opened Common

  /** A requested city; absent fields are defaulted from the position in the request. */
  datatype CityRef = CityRef(cityId: string, id: Option<string>, isPrimary: Option<bool>, displayOrder: Option<int>)

  datatype CityRow = CityRow(id: string, isPrimary: bool, displayOrder: int)

  /** Rows by listing and city, which is a unique pair. */
  type CityTable = map<(string, string), CityRow>

  ghost predicate DistinctCities(cities: seq<CityRef>) {
    forall i, j :: 0 <= i < j < |cities| ==> cities[i].cityId != cities[j].cityId
  }

  predicate Requested(cities: seq<CityRef>, cityId: string) {
    exists i | 0 <= i < |cities| :: cities[i].cityId == cityId
  }

  function Flag(cities: seq<CityRef>, i: nat): bool
    requires i < |cities|
  {
    if cities[i].isPrimary.Some? then cities[i].isPrimary.value else i == 0
  }

  function Order(cities: seq<CityRef>, i: nat): int
    requires i < |cities|
  {
    if cities[i].displayOrder.Some? then cities[i].displayOrder.value else i
  }

  function NewId(city: CityRef, generated: string): string {
    if city.id.Some? && city.id.value != "" then city.id.value else generated
  }

  /** Row `r` is what the `i`-th requested city asks for, given the table before. */
  ghost predicate Fulfils(before: CityTable, listingId: string, cities: seq<CityRef>, generated: seq<string>,
      i: nat, r: CityRow)
    requires i < |cities| && |generated| == |cities|
  {
    var key := (listingId, cities[i].cityId);
    var id := if key in before then before[key].id else NewId(cities[i], generated[i]);
    r == CityRow(id, Flag(cities, i), Order(cities, i))
  }

  /** What reconciling leaves: the requested rows of the listing, and the rows of every other listing. */
  ghost predicate Reconciled(before: CityTable, after: CityTable, listingId: string, cities: seq<CityRef>,
      generated: seq<string>)
    requires |generated| == |cities|
  {
    && (forall l, c {:trigger (l, c) in after} :: l != listingId ==>
          && ((l, c) in after <==> (l, c) in before)
          && ((l, c) in before ==> (l, c) in after && after[(l, c)] == before[(l, c)]))
    && (forall c {:trigger (listingId, c) in after} :: (listingId, c) in after <==> Requested(cities, c))
    && (forall i :: 0 <= i < |cities| ==>
          && (listingId, cities[i].cityId) in after
          && Fulfils(before, listingId, cities, generated, i, after[(listingId, cities[i].cityId)]))
  }

  /** Rows of other listings are untouched, and no row of this one is left that was not asked for. */
  ghost predicate OthersKept(before: CityTable, after: CityTable, listingId: string, cities: seq<CityRef>) {
    && (forall k :: k in after && k.0 != listingId ==> k in before && after[k] == before[k])
    && (forall k :: k in before && k.0 != listingId ==> k in after)
    && forall k :: k in after && k.0 == listingId ==> Requested(cities, k.1)
  }

  /** The first `n` requested cities have their row, and those of the others are as before. */
  ghost predicate DoneUpTo(before: CityTable, after: CityTable, listingId: string, cities: seq<CityRef>,
      generated: seq<string>, n: nat)
    requires |generated| == |cities|
  {
    && (forall j :: 0 <= j < |cities| && j < n ==>
          && (listingId, cities[j].cityId) in after
          && Fulfils(before, listingId, cities, generated, j, after[(listingId, cities[j].cityId)]))
    && forall j :: n <= j < |cities| ==> SameAt(before, after, (listingId, cities[j].cityId))
  }

  ghost predicate SameAt(before: CityTable, after: CityTable, key: (string, string)) {
    (key in after <==> key in before) && (key in before ==> after[key] == before[key])
  }

  lemma {:induction false} NothingDone(before: CityTable, after: CityTable, listingId: string, cities: seq<CityRef>,
      generated: seq<string>)
    requires |generated| == |cities|
    requires after == map k | k in before && (k.0 != listingId || Requested(cities, k.1)) :: before[k]
    ensures OthersKept(before, after, listingId, cities) && DoneUpTo(before, after, listingId, cities, generated, 0)
  {
    forall j | 0 <= j < |cities|
      ensures SameAt(before, after, (listingId, cities[j].cityId))
    {
      assert Requested(cities, cities[j].cityId);
    }
  }

  lemma {:induction false} AllDone(before: CityTable, after: CityTable, listingId: string, cities: seq<CityRef>,
      generated: seq<string>)
    requires |generated| == |cities| && OthersKept(before, after, listingId, cities)
    requires DoneUpTo(before, after, listingId, cities, generated, |cities|)
    ensures Reconciled(before, after, listingId, cities, generated)
  {
    forall c
      ensures (listingId, c) in after <==> Requested(cities, c)
    {
      if Requested(cities, c) {
        var j :| 0 <= j < |cities| && cities[j].cityId == c;
        assert (listingId, cities[j].cityId) in after;
      }
    }
  }

  lemma {:induction false} UpsertStep(before: CityTable, after: CityTable, listingId: string, cities: seq<CityRef>,
      generated: seq<string>, i: nat, row: CityRow)
    requires DistinctCities(cities) && |generated| == |cities| && i < |cities|
    requires OthersKept(before, after, listingId, cities)
    requires DoneUpTo(before, after, listingId, cities, generated, i)
    requires Fulfils(before, listingId, cities, generated, i, row)
    ensures OthersKept(before, after[(listingId, cities[i].cityId) := row], listingId, cities)
    ensures DoneUpTo(before, after[(listingId, cities[i].cityId) := row], listingId, cities, generated, i + 1)
  {
  }

  /** `cities` undefined changes nothing; an empty list removes every row of the listing. */
  method SyncListingCities(before: CityTable, listingId: string, cities: Option<seq<CityRef>>, generated: seq<string>)
    returns (after: CityTable)
    requires cities.Some? ==> DistinctCities(cities.value) && |generated| == |cities.value|
    ensures cities.None? ==> after == before
    ensures cities.Some? ==> Reconciled(before, after, listingId, cities.value, generated)
  {
    if cities.None? { return before; }
    if |cities.value| == 0 {
      after := map k | k in before && k.0 != listingId :: before[k];
      return;
    }
    after := map k | k in before && (k.0 != listingId || Requested(cities.value, k.1)) :: before[k];
    NothingDone(before, after, listingId, cities.value, generated);
    for i := 0 to |cities.value|
      invariant OthersKept(before, after, listingId, cities.value)
      invariant DoneUpTo(before, after, listingId, cities.value, generated, i)
    {
      var city := cities.value[i];
      var key := (listingId, city.cityId);
      var row := CityRow(NewId(city, generated[i]), Flag(cities.value, i), Order(cities.value, i));
      if key in after {
        row := after[key].(isPrimary := Flag(cities.value, i), displayOrder := Order(cities.value, i));
      }
      UpsertStep(before, after, listingId, cities.value, generated, i, row);
      after := after[key := row];
    }
    AllDone(before, after, listingId, cities.value, generated);
  }

  /** The requirement fixes the table. */
  lemma {:induction false} ReconciledUnique(before: CityTable, a: CityTable, b: CityTable, listingId: string,
                                           cities: seq<CityRef>, generated: seq<string>)
    requires |generated| == |cities|
    requires Reconciled(before, a, listingId, cities, generated) && Reconciled(before, b, listingId, cities, generated)
    ensures a == b
  {
    forall k
      ensures k in a <==> k in b
      ensures k in a && k in b ==> a[k] == b[k]
    {
      var (l, c) := k;
      assert (l, c) in a <==> k in a;
      assert (l, c) in b <==> k in b;
      if l == listingId && Requested(cities, c) {
        var i :| 0 <= i < |cities| && cities[i].cityId == c;
        assert Fulfils(before, listingId, cities, generated, i, a[k]);
        assert Fulfils(before, listingId, cities, generated, i, b[k]);
      }
    }
  }

  /** Reconciling to the same request again changes nothing, whatever ids would be generated. */
  lemma {:induction false} ReconcileIdempotent(before: CityTable, once: CityTable, twice: CityTable, listingId: string,
                                              cities: seq<CityRef>, generated: seq<string>, again: seq<string>)
    requires |generated| == |cities| == |again|
    requires Reconciled(before, once, listingId, cities, generated)
    requires Reconciled(once, twice, listingId, cities, again)
    ensures twice == once
  {
    assert Reconciled(once, once, listingId, cities, again);
    ReconciledUnique(once, once, twice, listingId, cities, again);
  }

  /** Rows that survive keep their id. */
  lemma {:induction false} SurvivorsKeepIds(before: CityTable, after: CityTable, listingId: string,
                                           cities: seq<CityRef>, generated: seq<string>, c: string)
    requires |generated| == |cities| && Reconciled(before, after, listingId, cities, generated)
    requires (listingId, c) in before && (listingId, c) in after
    ensures after[(listingId, c)].id == before[(listingId, c)].id
  {
  }

  /** The row of the `i`-th requested city: its own flag and order or those of its place, and an id it may bring. */
  ghost predicate AsAsked(before: CityTable, key: (string, string), city: CityRef, place: nat, generated: string,
      row: CityRow) {
    && (city.isPrimary == None ==> (row.isPrimary <==> place == 0))
    && (city.isPrimary != None ==> (row.isPrimary <==> city.isPrimary.value))
    && (city.displayOrder == None ==> row.displayOrder == place)
    && (city.displayOrder != None ==> row.displayOrder == city.displayOrder.value)
    && (key in before ==> row.id == before[key].id)
    && (key !in before && city.id in {None, Some("")} ==> row.id == generated)
    && (key !in before && city.id !in {None, Some("")} ==> row.id == city.id.value)
  }

  /** After a reconciliation the listing has exactly the rows asked for, and all other listings those they had. */
  lemma {:induction false} ReconciledMeans(before: CityTable, after: CityTable, listingId: string, cities: seq<CityRef>,
                                          generated: seq<string>)
    requires |generated| == |cities| && Reconciled(before, after, listingId, cities, generated)
    ensures forall i :: 0 <= i < |cities| ==>
              var key := (listingId, cities[i].cityId);
              key in after && AsAsked(before, key, cities[i], i, generated[i], after[key])
    ensures forall key: (string, string) :: key in after && key.0 == listingId ==>
              exists i :: 0 <= i < |cities| && cities[i].cityId == key.1
    ensures forall key: (string, string) :: key.0 != listingId ==>
              (key in after <==> key in before) && (key in before ==> key in after && after[key] == before[key])
  {
    forall key: (string, string) | key.0 != listingId
      ensures (key in after <==> key in before) && (key in before ==> key in after && after[key] == before[key])
    {
      var (l, c) := key;
      assert (l, c) in after <==> key in after;
    }
    forall key: (string, string) | key in after && key.0 == listingId
      ensures exists i :: 0 <= i < |cities| && cities[i].cityId == key.1
    {
      var (l, c) := key;
      assert (listingId, c) in after && Requested(cities, c);
    }
    forall i | 0 <= i < |cities|
      ensures var key := (listingId, cities[i].cityId);
              key in after && AsAsked(before, key, cities[i], i, generated[i], after[key])
    {
      assert Fulfils(before, listingId, cities, generated, i, after[(listingId, cities[i].cityId)]);
    }
  }

  // ---- The primary city -----------------------------------------------------------------------------

  /** The first city flagged explicitly, or else the first one. */
  function FirstFlagged(cities: seq<CityRef>): Option<string> {
    if cities == [] then None
    else if cities[0].isPrimary == Some(true) then Some(cities[0].cityId)
    else FirstFlagged(cities[1..])
  }

  function PrimaryOf(cities: Option<seq<CityRef>>): Option<string> {
    if cities.None? then None
    else if FirstFlagged(cities.value).Some? then FirstFlagged(cities.value)
    else if |cities.value| > 0 then Some(cities.value[0].cityId)
    else None
  }

  lemma {:induction false} FirstFlaggedRequested(cities: seq<CityRef>)
    ensures FirstFlagged(cities).Some? ==>
              exists i :: 0 <= i < |cities| && cities[i].isPrimary == Some(true)
                       && cities[i].cityId == FirstFlagged(cities).value
                       && forall j :: 0 <= j < i ==> cities[j].isPrimary != Some(true)
    ensures FirstFlagged(cities).None? ==> forall i :: 0 <= i < |cities| ==> cities[i].isPrimary != Some(true)
  {
    if cities != [] && cities[0].isPrimary != Some(true) {
      FirstFlaggedRequested(cities[1..]);
      if FirstFlagged(cities).Some? {
        var i :| 0 <= i < |cities[1..]| && cities[1..][i].isPrimary == Some(true)
          && cities[1..][i].cityId == FirstFlagged(cities).value
          && forall j :: 0 <= j < i ==> cities[1..][j].isPrimary != Some(true);
        assert cities[i + 1].isPrimary == Some(true);
        forall j | 0 <= j < i + 1 ensures cities[j].isPrimary != Some(true) {
          if j > 0 { assert cities[j] == cities[1..][j - 1]; }
        }
      } else {
        forall i | 0 <= i < |cities| ensures cities[i].isPrimary != Some(true) {
          if i > 0 { assert cities[i] == cities[1..][i - 1]; }
        }
      }
    }
  }

  ghost predicate MarkedFirst(cities: seq<CityRef>, i: nat)
    requires i < |cities|
  {
    cities[i].isPrimary == Some(true) && forall j :: 0 <= j < i ==> cities[j].isPrimary != Some(true)
  }

  /** The first city marked as primary, or the first of all, and none without cities. */
  lemma {:induction false} PrimaryMeans(cities: seq<CityRef>)
    ensures PrimaryOf(None) == None && PrimaryOf(Some([])) == None
    ensures cities != [] && (forall i :: 0 <= i < |cities| ==> cities[i].isPrimary != Some(true)) ==>
              PrimaryOf(Some(cities)) == Some(cities[0].cityId)
    ensures forall i | 0 <= i < |cities| && MarkedFirst(cities, i) ::
              PrimaryOf(Some(cities)) == Some(cities[i].cityId)
  {
    FirstFlaggedRequested(cities);
  }

  /** `primaryCityId` by listing, next to the join table. */
  datatype Store = Store(primary: map<string, Option<string>>, rows: CityTable)

  ghost predicate HasRows(s: Store, listingId: string) {
    exists c :: (listingId, c) in s.rows
  }

  /** The column is null iff the listing has no cities, and otherwise names one of them. */
  ghost predicate Consistent(s: Store) {
    forall l :: l in s.primary ==>
      match s.primary[l]
      case None => !HasRows(s, l)
      case Some(c) => (l, c) in s.rows
  }

  /** City rows belong to listings. */
  ghost predicate Owned(s: Store) {
    forall l, c :: (l, c) in s.rows ==> l in s.primary
  }

  function PrimaryAfterUpdate(before: Option<string>, cities: Option<seq<CityRef>>): Option<string> {
    if PrimaryOf(cities).Some? then PrimaryOf(cities)
    else if cities.Some? && |cities.value| == 0 then None
    else before
  }

  class ListingStore {
    var primary: map<string, Option<string>>
    var rows: CityTable

    ghost function View(): Store
      reads this
    {
      Store(primary, rows)
    }

    constructor ()
      ensures View() == Store(map[], map[])
    {
      primary, rows := map[], map[];
    }

    method CreateListing(id: string, cities: Option<seq<CityRef>>, generated: seq<string>)
      requires id !in primary && Owned(View()) && Consistent(View())
      requires cities.Some? ==> DistinctCities(cities.value) && |generated| == |cities.value|
      modifies this
      ensures Created(old(View()), View(), id, cities, generated)
      ensures Owned(View()) && Consistent(View())
    {
      var primaryCity := PrimaryOf(cities);
      var refs := match cities case Some(cs) => WithoutIds(cs) case None => [];
      rows := SyncListingCities(rows, id, Some(refs), if cities.Some? then generated else []);
      primary := primary[id := primaryCity];
      CreateConsistent(old(View()), View(), id, cities, generated);
    }

    method UpdateListing(id: string, cities: Option<seq<CityRef>>, generated: seq<string>) returns (found: bool)
      requires Owned(View()) && Consistent(View())
      requires cities.Some? ==> DistinctCities(cities.value) && |generated| == |cities.value|
      modifies this
      ensures found == (id in old(primary))
      ensures !found ==> View() == old(View())
      ensures found ==> UpdatedTo(old(View()), View(), id, cities, generated)
      ensures Owned(View()) && Consistent(View())
    {
      if id !in primary { return false; }
      var primaryCity := PrimaryOf(cities);
      if primaryCity.Some? {
        primary := primary[id := primaryCity];
      } else if cities.Some? && |cities.value| == 0 {
        primary := primary[id := None];
      }
      rows := SyncListingCities(rows, id, cities, generated);
      UpdateConsistent(old(View()), View(), id, cities, generated);
      return true;
    }

    /** A listing created by the importer: its one city is the primary one, unless the id is empty. */
    method ImportListing(id: string, primaryCityId: string, generated: string)
      requires id !in primary && Owned(View()) && Consistent(View())
      modifies this
      ensures View() == Imported(old(View()), id, primaryCityId, generated)
      ensures Owned(View())
      ensures Consistent(View()) <==> primaryCityId != ""
    {
      primary := primary[id := Some(primaryCityId)];
      if primaryCityId != "" {
        rows := rows[(id, primaryCityId) := CityRow(generated, true, 0)];
      }
      ImportConsistentIff(old(View()), id, primaryCityId, generated);
    }
  }

  /** Creation ignores ids in the request. */
  function WithoutIds(cities: seq<CityRef>): (r: seq<CityRef>)
    ensures |r| == |cities|
    ensures forall i :: 0 <= i < |r| ==> r[i] == cities[i].(id := None)
  {
    seq(|cities|, i requires 0 <= i < |cities| => cities[i].(id := None))
  }

  ghost predicate Created(s: Store, s': Store, id: string, cities: Option<seq<CityRef>>, generated: seq<string>)
    requires cities.Some? ==> |generated| == |cities.value|
  {
    && s'.primary == s.primary[id := PrimaryOf(cities)]
    && (cities.Some? ==> Reconciled(s.rows, s'.rows, id, WithoutIds(cities.value), generated))
    && (cities.None? ==> Reconciled(s.rows, s'.rows, id, [], []))
  }

  ghost predicate UpdatedTo(s: Store, s': Store, id: string, cities: Option<seq<CityRef>>, generated: seq<string>)
    requires cities.Some? ==> |generated| == |cities.value|
  {
    && id in s.primary
    && s'.primary == s.primary[id := PrimaryAfterUpdate(s.primary[id], cities)]
    && (cities.None? ==> s'.rows == s.rows)
    && (cities.Some? ==> Reconciled(s.rows, s'.rows, id, cities.value, generated))
  }

  function Imported(s: Store, id: string, primaryCityId: string, generated: string): Store {
    Store(s.primary[id := Some(primaryCityId)],
          if primaryCityId != "" then s.rows[(id, primaryCityId) := CityRow(generated, true, 0)] else s.rows)
  }

  /** An update without cities leaves the column, one with an empty list clears it, and any other names the primary. */
  lemma {:induction false} ColumnMeans(before: Option<string>, cities: seq<CityRef>)
    ensures PrimaryAfterUpdate(before, None) == before && PrimaryAfterUpdate(before, Some([])) == None
    ensures cities != [] ==>
              PrimaryAfterUpdate(before, Some(cities)).Some?
              && PrimaryAfterUpdate(before, Some(cities)) == PrimaryOf(Some(cities))
  {
    PrimaryIsRequested(cities);
  }

  /** A creation asks for the same rows as an update would, except that it brings no ids. */
  lemma {:induction false} CreatedMeans(s: Store, s': Store, id: string, cities: Option<seq<CityRef>>,
      generated: seq<string>)
    requires cities.Some? ==> |generated| == |cities.value|
    requires Created(s, s', id, cities, generated)
    ensures s'.primary == s.primary[id := PrimaryOf(cities)]
    ensures cities == None ==> forall key: (string, string) :: key in s'.rows ==> key.0 != id
    ensures cities != None ==>
              && (forall i :: 0 <= i < |cities.value| ==>
                    var key := (id, cities.value[i].cityId);
                    && key in s'.rows
                    && AsAsked(s.rows, key, cities.value[i].(id := None), i, generated[i], s'.rows[key]))
              && forall key: (string, string) :: key in s'.rows && key.0 == id ==>
                   exists i :: 0 <= i < |cities.value| && cities.value[i].cityId == key.1
    ensures forall key: (string, string) :: key.0 != id ==>
              (key in s'.rows <==> key in s.rows)
              && (key in s.rows ==> key in s'.rows && s'.rows[key] == s.rows[key])
  {
    match cities
    case None => ReconciledMeans(s.rows, s'.rows, id, [], []);
    case Some(cs) => ReconciledMeans(s.rows, s'.rows, id, WithoutIds(cs), generated);
  }

  /** An import names its city in the column, and gives it the one row, the first and primary, if it has an id. */
  lemma {:induction false} ImportedMeans(s: Store, id: string, primaryCityId: string, generated: string)
    ensures var s' := Imported(s, id, primaryCityId, generated);
            && s'.primary == s.primary[id := Some(primaryCityId)]
            && (primaryCityId == "" ==> s'.rows == s.rows)
            && (primaryCityId != "" ==> s'.rows == s.rows[(id, primaryCityId) := CityRow(generated, true, 0)])
  {
  }

  lemma {:induction false} OthersUntouched(s: Store, s': Store, id: string, cities: seq<CityRef>,
      generated: seq<string>, l: string)
    requires |generated| == |cities| && Reconciled(s.rows, s'.rows, id, cities, generated) && l != id
    ensures forall c :: (l, c) in s'.rows <==> (l, c) in s.rows
    ensures HasRows(s', l) <==> HasRows(s, l)
  {
  }

  lemma {:induction false} PrimaryIsRequested(cities: seq<CityRef>)
    ensures cities == [] <==> PrimaryOf(Some(cities)).None?
    ensures cities != [] ==> Requested(cities, PrimaryOf(Some(cities)).value)
  {
    FirstFlaggedRequested(cities);
  }

  lemma {:induction false} SyncedConsistent(s: Store, s': Store, id: string, cities: seq<CityRef>,
      generated: seq<string>)
    requires |generated| == |cities| && Owned(s) && Consistent(s)
    requires Reconciled(s.rows, s'.rows, id, cities, generated)
    requires s'.primary == s.primary[id := PrimaryOf(Some(cities))]
    ensures Owned(s') && Consistent(s')
  {
    PrimaryIsRequested(cities);
    forall l | l in s'.primary
      ensures match s'.primary[l] case None => !HasRows(s', l) case Some(c) => (l, c) in s'.rows
    {
      if l != id { OthersUntouched(s, s', id, cities, generated, l); }
    }
    forall l, c | (l, c) in s'.rows
      ensures l in s'.primary
    {
      if l != id { assert (l, c) in s.rows; }
    }
  }

  lemma {:induction false} CreateConsistent(s: Store, s': Store, id: string, cities: Option<seq<CityRef>>,
      generated: seq<string>)
    requires cities.Some? ==> |generated| == |cities.value|
    requires Owned(s) && Consistent(s) && Created(s, s', id, cities, generated)
    ensures Owned(s') && Consistent(s')
  {
    match cities
    case None => SyncedConsistent(s, s', id, [], []);
    case Some(cs) =>
      SamePrimary(cs, WithoutIds(cs));
      SyncedConsistent(s, s', id, WithoutIds(cs), generated);
  }

  lemma {:induction false} SamePrimary(a: seq<CityRef>, b: seq<CityRef>)
    requires |a| == |b| && forall i :: 0 <= i < |a| ==> b[i] == a[i].(id := None)
    ensures FirstFlagged(a) == FirstFlagged(b) && PrimaryOf(Some(a)) == PrimaryOf(Some(b))
  {
    if a != [] { SamePrimary(a[1..], b[1..]); }
  }

  lemma {:induction false} UpdateConsistent(s: Store, s': Store, id: string, cities: Option<seq<CityRef>>,
      generated: seq<string>)
    requires cities.Some? ==> |generated| == |cities.value|
    requires Owned(s) && Consistent(s) && UpdatedTo(s, s', id, cities, generated)
    ensures Owned(s') && Consistent(s')
  {
    match cities
    case None =>
      assert s'.primary == s.primary;
    case Some(cs) =>
      PrimaryIsRequested(cs);
      SyncedConsistent(s, s', id, cs, generated);
  }

  /** An import keeps the table consistent exactly when it brings a primary city. */
  lemma {:induction false} ImportConsistentIff(s: Store, id: string, primaryCityId: string, generated: string)
    requires id !in s.primary && Owned(s) && Consistent(s)
    ensures Owned(Imported(s, id, primaryCityId, generated))
    ensures Consistent(Imported(s, id, primaryCityId, generated)) <==> primaryCityId != ""
  {
    var s' := Imported(s, id, primaryCityId, generated);
    if primaryCityId != "" {
      forall l | l in s'.primary
        ensures match s'.primary[l] case None => !HasRows(s', l) case Some(c) => (l, c) in s'.rows
      {
        if l != id && HasRows(s', l) {
          var c :| (l, c) in s'.rows;
          assert (l, c) in s.rows;
        }
      }
    } else {
      assert id in s'.primary && s'.primary[id] == Some("");
    }
  }

  datatype Op =
    | Create(id: string, cities: Option<seq<CityRef>>, generated: seq<string>)
    | Update(id: string, cities: Option<seq<CityRef>>, generated: seq<string>)
    | Import(id: string, primaryCityId: string, generatedId: string)

  /** One operation as the service performs it; requests name each city once, imports a nonempty city. */
  ghost predicate Transition(s: Store, op: Op, s': Store) {
    match op
    case Create(id, cities, generated) =>
      && id !in s.primary && (cities.Some? ==> DistinctCities(cities.value) && |generated| == |cities.value|)
      && Created(s, s', id, cities, generated)
    case Update(id, cities, generated) =>
      && (cities.Some? ==> DistinctCities(cities.value) && |generated| == |cities.value|)
      && if id in s.primary then UpdatedTo(s, s', id, cities, generated) else s' == s
    case Import(id, primaryCityId, generatedId) =>
      id !in s.primary && primaryCityId != "" && s' == Imported(s, id, primaryCityId, generatedId)
  }

  /** Over all runs of create, update and import the column and the join table agree. */
  lemma {:induction false} RunsStayConsistent(states: seq<Store>, ops: seq<Op>, n: nat)
    requires |states| == |ops| + 1 && n <= |ops|
    requires states[0] == Store(map[], map[])
    requires forall i :: 0 <= i < |ops| ==> Transition(states[i], ops[i], states[i + 1])
    ensures Owned(states[n]) && Consistent(states[n])
    decreases n
  {
    if n > 0 {
      RunsStayConsistent(states, ops, n - 1);
      var s, s' := states[n - 1], states[n];
      assert Transition(s, ops[n - 1], states[n - 1 + 1]);
      match ops[n - 1]
      case Create(id, cities, generated) => CreateConsistent(s, s', id, cities, generated);
      case Update(id, cities, generated) => if id in s.primary { UpdateConsistent(s, s', id, cities, generated); }
      case Import(id, c, g) => ImportConsistentIff(s, id, c, g);
    }
  }

  // ---- The flags on the rows --------------------------------------------------------------------------

  /** The row flagged as primary is the one the column names, and the only one. */
  ghost predicate FlagsMatchColumn(after: CityTable, listingId: string, primary: string) {
    forall c :: (listingId, c) in after ==> (after[(listingId, c)].isPrimary <==> c == primary)
  }

  predicate AtMostOneTrue(cities: seq<CityRef>) {
    forall i, j | 0 <= i < j < |cities| :: cities[i].isPrimary != Some(true) || cities[j].isPrimary != Some(true)
  }

  predicate SomeTrue(cities: seq<CityRef>) {
    exists i | 0 <= i < |cities| :: cities[i].isPrimary == Some(true)
  }

  /**
   * The flags match the column exactly when the request marks at most one city as primary, and
   * answers the question for the first city if and only if it marks one: otherwise the first row is
   * flagged by default beside the marked one, or no row is flagged at all.
   */
  lemma {:induction false} FlagsMatchIff(before: CityTable, after: CityTable, listingId: string, cities: seq<CityRef>,
      generated: seq<string>)
    requires cities != [] && DistinctCities(cities) && |generated| == |cities|
    requires Reconciled(before, after, listingId, cities, generated)
    ensures FlagsMatchColumn(after, listingId, PrimaryOf(Some(cities)).value) <==>
              AtMostOneTrue(cities) && (SomeTrue(cities) <==> cities[0].isPrimary.Some?)
  {
    FirstFlaggedRequested(cities);
    var primary := PrimaryOf(Some(cities)).value;
    forall i | 0 <= i < |cities|
      ensures (listingId, cities[i].cityId) in after
      ensures after[(listingId, cities[i].cityId)].isPrimary == Flag(cities, i)
    {
      assert Fulfils(before, listingId, cities, generated, i, after[(listingId, cities[i].cityId)]);
    }
    if FlagsMatchColumn(after, listingId, primary) {
      forall i | 0 <= i < |cities|
        ensures Flag(cities, i) <==> cities[i].cityId == primary
      {
        assert (listingId, cities[i].cityId) in after;
      }
    }
    if AtMostOneTrue(cities) && (SomeTrue(cities) <==> cities[0].isPrimary.Some?) {
      forall c | (listingId, c) in after
        ensures after[(listingId, c)].isPrimary <==> c == primary
      {
        assert Requested(cities, c);
        var i :| 0 <= i < |cities| && cities[i].cityId == c;
        assert Flag(cities, i) <==> cities[i].cityId == primary;
      }
    }
  }

  /** Marking a later city and leaving the first one open flags both rows. */
  lemma {:induction false} TwoRowsFlagged(after: CityTable, a: string, b: string, generated: seq<string>)
    requires a != b && |generated| == 2
    requires Reconciled(map[], after, "l", [CityRef(a, None, None, None), CityRef(b, None, Some(true), None)],
        generated)
    ensures ("l", a) in after && ("l", b) in after && after[("l", a)].isPrimary && after[("l", b)].isPrimary
    ensures PrimaryOf(Some([CityRef(a, None, None, None), CityRef(b, None, Some(true), None)])) == Some(b)
  {
    var cities := [CityRef(a, None, None, None), CityRef(b, None, Some(true), None)];
    assert cities[0].cityId == a && cities[1].cityId == b;
    assert Fulfils(map[], "l", cities, generated, 0, after[("l", a)]);
    assert Fulfils(map[], "l", cities, generated, 1, after[("l", b)]);
    assert FirstFlagged(cities[1..]) == Some(b) && FirstFlagged(cities) == FirstFlagged(cities[1..]);
  }

  /** Unmarking the first city and leaving the others open flags no row. */
  lemma {:induction false} NoRowFlagged(after: CityTable, a: string, b: string, generated: seq<string>)
    requires a != b && |generated| == 2
    requires Reconciled(map[], after, "l", [CityRef(a, None, Some(false), None), CityRef(b, None, None, None)],
        generated)
    ensures ("l", a) in after && ("l", b) in after && !after[("l", a)].isPrimary && !after[("l", b)].isPrimary
    ensures PrimaryOf(Some([CityRef(a, None, Some(false), None), CityRef(b, None, None, None)])) == Some(a)
  {
    var cities := [CityRef(a, None, Some(false), None), CityRef(b, None, None, None)];
    assert cities[0].cityId == a && cities[1].cityId == b;
    assert Fulfils(map[], "l", cities, generated, 0, after[("l", a)]);
    assert Fulfils(map[], "l", cities, generated, 1, after[("l", b)]);
    assert FirstFlagged(cities[1..][1..]) == None && FirstFlagged(cities[1..]) == None && FirstFlagged(cities) == None;
  }
}
