/**
 * Listing import: `transformToListing` and the item loop of the integration service, and
 * `syncListingFromIntegration` of the core service. A listing row carries its category links and
 * time intervals; generated ids are numbers that are never used twice.
 */
module ListingImport {
  import opened Common
  import CategoryImport
  import DestinationOne
  import ListingTypes
  import Slugs

  type TimeInterval = DestinationOne.TimeInterval

  datatype ListingData = ListingData(
    title: string, content: string, slug: string, externalSource: string, externalId: string, syncHash: string,
    primaryCityId: string, details: map<string, string>, geoLat: Option<real>, geoLng: Option<real>,
    categorySlugs: seq<string>, timeIntervals: Option<seq<TimeInterval>>)

  datatype Listing = Listing(
    title: string, content: string, slug: string, externalSource: Option<string>, externalId: Option<string>,
    syncHash: Option<string>, status: ListingTypes.ListingStatus, moderationStatus: ListingTypes.ModerationStatus,
    sourceType: ListingTypes.SourceType, primaryCityId: Option<string>, details: map<string, string>,
    geoLat: Option<real>, geoLng: Option<real>, categoryIds: set<nat>, timeIntervals: seq<TimeInterval>)

  datatype Tables = Tables(listings: map<nat, Listing>, nextId: nat)

  datatype Action = Created | Updated | Skipped

  datatype Error = SlugTaken | DuplicateCategory | InvalidInterval | InvalidColumn

  type Outcome = Result<(Action, nat), Error>

  // ---- One listing ----------------------------------------------------------------------------------

  predicate IsImport(row: Listing, data: ListingData) {
    row.externalSource == Some(data.externalSource) && row.externalId == Some(data.externalId)
  }

  /** The ids of the slugs that resolve, in order. */
  function CategoryIds(categories: map<string, CategoryImport.Category>, slugs: seq<string>): seq<nat> {
    if slugs == [] then []
    else
      var last := slugs[|slugs| - 1];
      CategoryIds(categories, slugs[..|slugs| - 1]) + if last in categories then [categories[last].id] else []
  }

  function AsSet(ids: seq<nat>): set<nat> {
    set id | id in ids
  }

  // ---- What the database rejects ----------------------------------------------------------------------

  /** Both dates exist, and the interval is a 32-bit integer. */
  predicate Storable(i: TimeInterval) {
    i.start.Some? && i.end.Some? && -0x8000_0000 <= i.interval <= 0x7FFF_FFFF
  }

  predicate IntervalsFit(data: ListingData) {
    data.timeIntervals.Some? ==> forall k | 0 <= k < |data.timeIntervals.value| :: Storable(data.timeIntervals.value[k])
  }

  /** A coordinate of zero counts as absent. */
  function Coordinate(x: Option<real>): Option<real> {
    if x == Some(0.0) then None else x
  }

  /** Three digits before the point, and six after it, to which the column rounds. */
  predicate InDecimal(x: Option<real>) {
    x.Some? ==> -999.9999995 < x.value < 999.9999995
  }

  predicate ColumnsFit(data: ListingData) {
    InDecimal(data.geoLat) && InDecimal(data.geoLng)
  }

  /** Nothing in the payload is rejected: no category twice, and values the columns can hold. */
  ghost predicate Fits(data: ListingData, ids: seq<nat>) {
    Distinct(ids) && IntervalsFit(data) && ColumnsFit(data)
  }

  /** The first rejection an update runs into. */
  ghost function UpdateError(data: ListingData, ids: seq<nat>): (e: Option<Error>)
    ensures e.None? <==> Fits(data, ids)
  {
    if !Distinct(ids) then Some(DuplicateCategory)
    else if !IntervalsFit(data) then Some(InvalidInterval)
    else if !ColumnsFit(data) then Some(InvalidColumn)
    else None
  }

  // ---- How one sync can end -----------------------------------------------------------------------------

  /** No category resolved: the old links stay. */
  function Relinked(row: Listing, ids: seq<nat>): Listing {
    row.(categoryIds := if ids == [] then row.categoryIds else AsSet(ids))
  }

  function WithIntervals(row: Listing, data: ListingData): Listing {
    row.(timeIntervals := if data.timeIntervals.Some? then data.timeIntervals.value else row.timeIntervals)
  }

  function Or<T>(x: Option<T>, otherwise: Option<T>): Option<T> {
    if x.Some? then x else otherwise
  }

  /** Absent fields leave what was there. */
  function WithColumns(row: Listing, data: ListingData): Listing {
    row.(title := data.title, content := data.content, syncHash := Some(data.syncHash),
         details := row.details + data.details,
         geoLat := Or(Coordinate(data.geoLat), row.geoLat), geoLng := Or(Coordinate(data.geoLng), row.geoLng))
  }

  function UpdatedRow(row: Listing, data: ListingData, ids: seq<nat>): Listing {
    WithColumns(WithIntervals(Relinked(row, ids), data), data)
  }

  /** What an update that ends in this error leaves of the row: everything before the rejected write has happened. */
  function LeftBehind(row: Listing, data: ListingData, ids: seq<nat>, error: Error): Listing {
    match error
    case DuplicateCategory => row.(categoryIds := {})
    case InvalidInterval => Relinked(row, ids).(timeIntervals := [])
    case InvalidColumn => WithIntervals(Relinked(row, ids), data)
    case SlugTaken => row
  }

  function NewRow(data: ListingData, ids: seq<nat>): Listing {
    Listing(data.title, data.content, data.slug, Some(data.externalSource), Some(data.externalId), Some(data.syncHash),
            ListingTypes.ListingStatus.APPROVED, ListingTypes.ModerationStatus.APPROVED,
            ListingTypes.SourceType.API_IMPORT, Some(data.primaryCityId), data.details,
            Coordinate(data.geoLat), Coordinate(data.geoLng), AsSet(ids),
            if data.timeIntervals.Some? then data.timeIntervals.value else [])
  }

  ghost predicate Known(t: Tables, data: ListingData, id: nat) {
    id in t.listings && IsImport(t.listings[id], data)
  }

  ghost predicate Unknown(t: Tables, data: ListingData) {
    forall id :: id in t.listings ==> !IsImport(t.listings[id], data)
  }

  ghost predicate Current(t: Tables, data: ListingData, id: nat) {
    Known(t, data, id) && t.listings[id].syncHash == Some(data.syncHash)
  }

  ghost predicate Outdated(t: Tables, data: ListingData, id: nat) {
    Known(t, data, id) && t.listings[id].syncHash != Some(data.syncHash)
  }

  ghost predicate SlugIsTaken(t: Tables, slug: string) {
    exists id :: id in t.listings && t.listings[id].slug == slug
  }

  function Put(t: Tables, id: nat, row: Listing): Tables {
    t.(listings := t.listings[id := row])
  }

  /** A creation is one nested write, so it is rejected as a whole, for any reason that applies. */
  ghost predicate CreateRefused(t: Tables, data: ListingData, ids: seq<nat>, error: Error) {
    match error
    case DuplicateCategory => !Distinct(ids)
    case InvalidInterval => !IntervalsFit(data)
    case InvalidColumn => !ColumnsFit(data)
    case SlugTaken => SlugIsTaken(t, data.slug)
  }

  ghost predicate UpdateRefused(t: Tables, t': Tables, data: ListingData, ids: seq<nat>, error: Error, id: nat) {
    && Outdated(t, data, id) && UpdateError(data, ids) == Some(error)
    && t' == Put(t, id, LeftBehind(t.listings[id], data, ids, error))
  }

  /** Every way one sync can end, and what the table is then. */
  ghost predicate Synced(t: Tables, t': Tables, data: ListingData, ids: seq<nat>, outcome: Outcome) {
    match outcome
    case Ok((Skipped, id)) => Current(t, data, id) && t' == t
    case Ok((Updated, id)) =>
      Outdated(t, data, id) && Fits(data, ids) && t' == Put(t, id, UpdatedRow(t.listings[id], data, ids))
    case Ok((Created, id)) =>
      && Unknown(t, data) && !SlugIsTaken(t, data.slug) && Fits(data, ids) && id == t.nextId
      && t' == Put(t, id, NewRow(data, ids)).(nextId := t.nextId + 1)
    case Err(error) =>
      || (Unknown(t, data) && CreateRefused(t, data, ids, error) && t' == t)
      || exists id :: UpdateRefused(t, t', data, ids, error, id)
  }

  // ---- What a sync that succeeds leaves -----------------------------------------------------------------

  /** The row shows the payload: its texts, source and hash, and each optional value that it gives. */
  ghost predicate Carries(row: Listing, data: ListingData) {
    && row.title == data.title && row.content == data.content && row.syncHash == Some(data.syncHash)
    && row.externalSource == Some(data.externalSource) && row.externalId == Some(data.externalId)
    && (forall k :: k in data.details ==> k in row.details && row.details[k] == data.details[k])
    && (data.geoLat !in {None, Some(0.0)} ==> row.geoLat == data.geoLat)
    && (data.geoLng !in {None, Some(0.0)} ==> row.geoLng == data.geoLng)
    && (data.timeIntervals.Some? ==> row.timeIntervals == data.timeIntervals.value)
  }

  /** What the payload does not give, and what an update never writes, is as it was. */
  ghost predicate KeepsOthers(row: Listing, row': Listing, data: ListingData) {
    && row'.slug == row.slug && row'.status == row.status && row'.moderationStatus == row.moderationStatus
    && row'.sourceType == row.sourceType && row'.primaryCityId == row.primaryCityId
    && (forall k :: k !in data.details ==> (k in row'.details <==> k in row.details))
    && (forall k :: k !in data.details && k in row.details ==> row'.details[k] == row.details[k])
    && (data.geoLat in {None, Some(0.0)} ==> row'.geoLat == row.geoLat)
    && (data.geoLng in {None, Some(0.0)} ==> row'.geoLng == row.geoLng)
    && (data.timeIntervals == None ==> row'.timeIntervals == row.timeIntervals)
  }

  /** Beside the payload, a created row holds its slug and city, both approvals, and nothing that was not given. */
  ghost predicate StartsWith(row: Listing, data: ListingData) {
    && row.slug == data.slug && row.primaryCityId == Some(data.primaryCityId)
    && row.status == ListingTypes.ListingStatus.APPROVED
    && row.moderationStatus == ListingTypes.ModerationStatus.APPROVED
    && row.sourceType == ListingTypes.SourceType.API_IMPORT
    && row.details.Keys == data.details.Keys
    && (data.geoLat in {None, Some(0.0)} ==> row.geoLat == None)
    && (data.geoLng in {None, Some(0.0)} ==> row.geoLng == None)
    && (data.timeIntervals == None ==> row.timeIntervals == [])
  }

  /**
   * A sync that writes leaves the listing of the payload showing it, and every other listing as it
   * was. An update keeps what the payload does not give, its links included when no category
   * resolved; a creation adds one approved listing under an id that was not used.
   */
  lemma {:induction false} WriteStores(t: Tables, t': Tables, data: ListingData, ids: seq<nat>, outcome: Outcome)
    requires WellFormed(t) && Synced(t, t', data, ids, outcome) && outcome.Ok? && outcome.value.0 != Skipped
    ensures var id := outcome.value.1;
            && id in t'.listings && Carries(t'.listings[id], data)
            && t'.listings.Keys == t.listings.Keys + {id}
            && forall other :: other in t.listings && other != id ==> t'.listings[other] == t.listings[other]
    ensures outcome.value.0 == Updated ==>
              var id := outcome.value.1;
              && id in t.listings && KeepsOthers(t.listings[id], t'.listings[id], data)
              && (ids == [] ==> t'.listings[id].categoryIds == t.listings[id].categoryIds)
              && (ids != [] ==> forall c :: c in t'.listings[id].categoryIds <==> c in ids)
    ensures outcome.value.0 == Created ==>
              var id := outcome.value.1;
              && id !in t.listings && StartsWith(t'.listings[id], data)
              && forall c :: c in t'.listings[id].categoryIds <==> c in ids
  {
  }

  // ---- What every import keeps ------------------------------------------------------------------------

  predicate SameExternal(a: Listing, b: Listing) {
    a.externalSource.Some? && a.externalId.Some? && b.externalSource == a.externalSource && b.externalId == a.externalId
  }

  /** At most one listing per external source and id; slugs unique; ids already issued. */
  ghost predicate WellFormed(t: Tables) {
    && (forall i, j | i in t.listings && j in t.listings && SameExternal(t.listings[i], t.listings[j]) :: i == j)
    && (forall i, j :: i in t.listings && j in t.listings && t.listings[i].slug == t.listings[j].slug ==> i == j)
    && forall i :: i in t.listings ==> i < t.nextId
  }

  /** The row keeps its slug and external id, and all of it unless it is the listing of this payload. */
  ghost predicate RowKept(a: Listing, b: Listing, data: ListingData) {
    && b.slug == a.slug && b.externalSource == a.externalSource && b.externalId == a.externalId
    && (!IsImport(a, data) ==> b == a)
  }

  ghost predicate OldRowsKept(t: Tables, t': Tables, data: ListingData) {
    forall id :: id in t.listings ==> id in t'.listings && RowKept(t.listings[id], t'.listings[id], data)
  }

  /** One more row, of this payload, under a slug that was free. */
  ghost predicate RowAdded(t: Tables, t': Tables, data: ListingData) {
    && Unknown(t, data) && !SlugIsTaken(t, data.slug) && t'.nextId == t.nextId + 1
    && t'.listings.Keys == t.listings.Keys + {t.nextId}
    && IsImport(t'.listings[t.nextId], data) && t'.listings[t.nextId].slug == data.slug
  }

  ghost predicate NoRowAdded(t: Tables, t': Tables) {
    t'.listings.Keys == t.listings.Keys && t'.nextId == t.nextId
  }

  /** All that a sync can do to other listings, and to the slugs and external ids of any. */
  lemma {:induction false} SyncFrame(t: Tables, t': Tables, data: ListingData, ids: seq<nat>, outcome: Outcome)
    requires WellFormed(t) && Synced(t, t', data, ids, outcome)
    ensures OldRowsKept(t, t', data)
    ensures if outcome.Ok? && outcome.value.0.Created? then RowAdded(t, t', data) else NoRowAdded(t, t')
  {
    if outcome.Ok? {
      match outcome.value.0
      case Skipped =>
      case Created => AddKeepsRows(t, t', data, ids);
      case Updated => PutKeepsRows(t, t', data, outcome.value.1, UpdatedRow(t.listings[outcome.value.1], data, ids));
    } else if !Unknown(t, data) {
      var id :| UpdateRefused(t, t', data, ids, outcome.error, id);
      PutKeepsRows(t, t', data, id, LeftBehind(t.listings[id], data, ids, outcome.error));
    }
  }

  lemma {:induction false} AddKeepsRows(t: Tables, t': Tables, data: ListingData, ids: seq<nat>)
    requires WellFormed(t) && Unknown(t, data) && !SlugIsTaken(t, data.slug)
    requires t' == Put(t, t.nextId, NewRow(data, ids)).(nextId := t.nextId + 1)
    ensures OldRowsKept(t, t', data) && RowAdded(t, t', data)
  {
  }

  lemma {:induction false} PutKeepsRows(t: Tables, t': Tables, data: ListingData, id: nat, row: Listing)
    requires Known(t, data, id) && t' == Put(t, id, row) && RowKept(t.listings[id], row, data)
    ensures OldRowsKept(t, t', data) && NoRowAdded(t, t')
  {
  }

  lemma {:induction false} FrameKeeps(t: Tables, t': Tables, data: ListingData)
    requires WellFormed(t) && OldRowsKept(t, t', data) && (RowAdded(t, t', data) || NoRowAdded(t, t'))
    ensures WellFormed(t')
  {
    forall i | i in t'.listings
      ensures i in t.listings ==> RowKept(t.listings[i], t'.listings[i], data)
    {
    }
  }

  lemma {:induction false} SyncKeeps(t: Tables, t': Tables, data: ListingData, ids: seq<nat>, outcome: Outcome)
    requires WellFormed(t) && Synced(t, t', data, ids, outcome)
    ensures WellFormed(t')
  {
    SyncFrame(t, t', data, ids, outcome);
    FrameKeeps(t, t', data);
  }

  /** Over all import runs there is at most one listing per external source and id. */
  lemma {:induction false} ImportsKeepOnePerExternal(states: seq<Tables>, datas: seq<ListingData>, ids: seq<seq<nat>>,
      outcomes: seq<Outcome>, n: nat)
    requires |states| == |datas| + 1 && |ids| == |datas| && |outcomes| == |datas| && n <= |datas|
    requires WellFormed(states[0])
    requires forall i :: 0 <= i < |datas| ==> Synced(states[i], states[i + 1], datas[i], ids[i], outcomes[i])
    ensures WellFormed(states[n])
    decreases n
  {
    if n > 0 {
      ImportsKeepOnePerExternal(states, datas, ids, outcomes, n - 1);
      assert Synced(states[n - 1], states[n - 1 + 1], datas[n - 1], ids[n - 1], outcomes[n - 1]);
      SyncKeeps(states[n - 1], states[n], datas[n - 1], ids[n - 1], outcomes[n - 1]);
    }
  }

  ghost predicate IsCurrent(t: Tables, data: ListingData) {
    exists id :: Current(t, data, id)
  }

  /** In a well-formed table a payload has one listing. */
  lemma {:induction false} KnownOnce(t: Tables, data: ListingData, i: nat, j: nat)
    requires WellFormed(t) && Known(t, data, i) && Known(t, data, j)
    ensures i == j
  {
    assert SameExternal(t.listings[i], t.listings[j]);
  }

  /** Skipped exactly when the hash of the stored listing is the one that arrives; and then nothing changes. */
  lemma {:induction false} UnchangedIffSameHash(t: Tables, t': Tables, data: ListingData, ids: seq<nat>,
      outcome: Outcome)
    requires WellFormed(t) && Synced(t, t', data, ids, outcome)
    ensures IsCurrent(t, data) <==> outcome.Ok? && outcome.value.0 == Skipped
    ensures outcome.Ok? && outcome.value.0 == Skipped ==> t' == t
  {
    if IsCurrent(t, data) {
      var i :| Current(t, data, i);
      if outcome.Ok? && outcome.value.0.Updated? { KnownOnce(t, data, i, outcome.value.1); }
      if outcome.Err? && !Unknown(t, data) {
        var j :| UpdateRefused(t, t', data, ids, outcome.error, j);
        KnownOnce(t, data, i, j);
      }
    }
  }

  /**
   * A sync succeeds if and only if the listing is current, or nothing in the payload is rejected and
   * its listing exists or its slug is free.
   */
  lemma {:induction false} SucceedsIff(t: Tables, t': Tables, data: ListingData, ids: seq<nat>, outcome: Outcome)
    requires WellFormed(t) && Synced(t, t', data, ids, outcome)
    ensures outcome.Ok? <==>
      || IsCurrent(t, data)
      || (Fits(data, ids) && (!Unknown(t, data) || !SlugIsTaken(t, data.slug)))
  {
    UnchangedIffSameHash(t, t', data, ids, outcome);
    if outcome.Err? && !Unknown(t, data) {
      var id :| UpdateRefused(t, t', data, ids, outcome.error, id);
    }
  }

  /** A sync that succeeded makes its repetition a skip of the same listing. */
  lemma {:induction false} SecondSyncSkips(t: Tables, t1: Tables, t2: Tables, data: ListingData, ids1: seq<nat>,
      ids2: seq<nat>, first: Outcome, second: Outcome)
    requires WellFormed(t) && Synced(t, t1, data, ids1, first) && first.Ok?
    requires Synced(t1, t2, data, ids2, second)
    ensures t2 == t1 && second == Ok((Skipped, first.value.1))
  {
    SyncKeeps(t, t1, data, ids1, first);
    assert Current(t1, data, first.value.1);
    UnchangedIffSameHash(t1, t2, data, ids2, second);
    KnownOnce(t1, data, first.value.1, second.value.1);
  }

  // ---- Failed updates -----------------------------------------------------------------------------------

  /** A category is named twice. */
  ghost predicate Repeats(ids: seq<nat>) {
    exists i, j :: 0 <= i < j < |ids| && ids[i] == ids[j]
  }

  /** Some given interval has no start or end, or an interval beyond 32 bits. */
  ghost predicate OddInterval(data: ListingData) {
    data.timeIntervals.Some?
    && exists x | x in data.timeIntervals.value ::
         x.start == None || x.end == None || x.interval < -2147483648 || x.interval > 2147483647
  }

  /** A given coordinate does not round to three digits before the point. */
  ghost predicate OddCoordinate(data: ListingData) {
    || (data.geoLat.Some? && !(-999.9999995 < data.geoLat.value < 999.9999995))
    || (data.geoLng.Some? && !(-999.9999995 < data.geoLng.value < 999.9999995))
  }

  lemma {:induction false} RejectedMeans(data: ListingData, ids: seq<nat>)
    ensures !Distinct(ids) <==> Repeats(ids)
    ensures !IntervalsFit(data) <==> OddInterval(data)
    ensures !ColumnsFit(data) <==> OddCoordinate(data)
  {
    if data.timeIntervals.Some? && IntervalsFit(data) {
      forall x | x in data.timeIntervals.value
        ensures Storable(x)
      {
        var k :| 0 <= k < |data.timeIntervals.value| && data.timeIntervals.value[k] == x;
      }
    }
  }

  /**
   * An update fails if and only if a category repeats or a value does not fit its column, with the
   * first of these as the error. Hash and columns are the old ones then; a repeated category costs
   * the listing its links, and an interval that does not fit all its intervals.
   */
  lemma {:induction false} UpdateFailsIff(t: Tables, t': Tables, data: ListingData, ids: seq<nat>,
      outcome: Outcome, id: nat)
    requires WellFormed(t) && Synced(t, t', data, ids, outcome) && Outdated(t, data, id)
    ensures outcome == Err(DuplicateCategory) <==> Repeats(ids)
    ensures outcome == Err(InvalidInterval) <==> !Repeats(ids) && OddInterval(data)
    ensures outcome == Err(InvalidColumn) <==> !Repeats(ids) && !OddInterval(data) && OddCoordinate(data)
    ensures outcome.Ok? <==> !Repeats(ids) && !OddInterval(data) && !OddCoordinate(data)
    ensures outcome.Err? ==>
              var row, row' := t.listings[id], t'.listings[id];
              && t' == Put(t, id, row')
              && row' == row.(categoryIds := row'.categoryIds, timeIntervals := row'.timeIntervals)
              && (Repeats(ids) ==> row'.categoryIds == {} && row'.timeIntervals == row.timeIntervals)
              && (!Repeats(ids) && ids == [] ==> row'.categoryIds == row.categoryIds)
              && (!Repeats(ids) && ids != [] ==> forall c :: c in row'.categoryIds <==> c in ids)
              && (!Repeats(ids) && OddInterval(data) ==> row'.timeIntervals == [])
              && (!Repeats(ids) && !OddInterval(data) ==>
                  row'.timeIntervals == if data.timeIntervals.Some? then data.timeIntervals.value
                                        else row.timeIntervals)
  {
    OutcomeOfUpdate(t, t', data, ids, outcome, id);
    RejectedMeans(data, ids);
  }

  /** A creation fails if and only if its slug is taken, a category repeats or a value does not fit; nothing is left. */
  lemma {:induction false} CreateFailsIff(t: Tables, t': Tables, data: ListingData, ids: seq<nat>, outcome: Outcome)
    requires Synced(t, t', data, ids, outcome) && Unknown(t, data)
    ensures outcome.Err? <==>
      SlugIsTaken(t, data.slug) || Repeats(ids) || OddInterval(data) || OddCoordinate(data)
    ensures outcome == Err(SlugTaken) ==> SlugIsTaken(t, data.slug)
    ensures outcome == Err(DuplicateCategory) ==> Repeats(ids)
    ensures outcome == Err(InvalidInterval) ==> OddInterval(data)
    ensures outcome == Err(InvalidColumn) ==> OddCoordinate(data)
    ensures outcome.Err? ==> t' == t
  {
    RejectedMeans(data, ids);
  }

  lemma {:induction false} OutcomeOfUpdate(t: Tables, t': Tables, data: ListingData, ids: seq<nat>,
      outcome: Outcome, id: nat)
    requires WellFormed(t) && Synced(t, t', data, ids, outcome) && Outdated(t, data, id)
    ensures outcome.Ok? ==> outcome == Ok((Updated, id)) && Fits(data, ids)
    ensures outcome.Err? ==> UpdateRefused(t, t', data, ids, outcome.error, id)
  {
    if outcome.Ok? {
      if !outcome.value.0.Created? { KnownOnce(t, data, id, outcome.value.1); }
    } else {
      var i :| UpdateRefused(t, t', data, ids, outcome.error, i);
      KnownOnce(t, data, id, i);
    }
  }

  /** What failed fails again, and does no more damage. */
  lemma {:induction false} FailureRepeats(t: Tables, t1: Tables, t2: Tables, data: ListingData, ids: seq<nat>,
      first: Outcome, second: Outcome)
    requires WellFormed(t) && Synced(t, t1, data, ids, first) && first.Err?
    requires Synced(t1, t2, data, ids, second)
    ensures second.Err? && t2 == t1
  {
    SyncKeeps(t, t1, data, ids, first);
    if Unknown(t, data) {
      SucceedsIff(t, t1, data, ids, first);
      SucceedsIff(t1, t2, data, ids, second);
    } else {
      var id :| UpdateRefused(t, t1, data, ids, first.error, id);
      RefusedTwice(t, t1, data, ids, first.error, id);
      OutcomeOfUpdate(t1, t2, data, ids, second, id);
    }
  }

  lemma {:induction false} RefusedTwice(t: Tables, t1: Tables, data: ListingData, ids: seq<nat>, error: Error, id: nat)
    requires UpdateRefused(t, t1, data, ids, error, id)
    ensures Outdated(t1, data, id) && UpdateError(data, ids) == Some(error)
    ensures Put(t1, id, LeftBehind(t1.listings[id], data, ids, error)) == t1
  {
  }

  /** A linked listing, and an update that names its category twice: the links are gone, the rest is old. */
  lemma {:induction false} LinksStripped(row: Listing, data: ListingData, category: CategoryImport.Category)
    requires IsImport(row, data) && row.syncHash != Some(data.syncHash)
    ensures var t := Tables(map[0 := row.(categoryIds := {category.id})], 1);
            var t' := Tables(map[0 := row.(categoryIds := {})], 1);
            var ids := CategoryIds(map["events" := category], ["events", "events"]);
            WellFormed(t) && Synced(t, t', data, ids, Err(DuplicateCategory))
  {
    var t := Tables(map[0 := row.(categoryIds := {category.id})], 1);
    var t' := Tables(map[0 := row.(categoryIds := {})], 1);
    var categories := map["events" := category];
    assert ["events", "events"][..1] == ["events"] && ["events"][..0] == [];
    assert CategoryIds(categories, ["events"]) == [category.id];
    var ids := CategoryIds(categories, ["events", "events"]);
    assert ids == [category.id, category.id] && ids[0] == ids[1];
    assert UpdateRefused(t, t', data, ids, DuplicateCategory, 0);
  }

  /** A dated interval, and an update whose interval has no start: the interval is gone, the hash is old. */
  lemma {:induction false} IntervalsLost(row: Listing, data: ListingData, good: TimeInterval, bad: TimeInterval)
    requires IsImport(row, data) && row.syncHash != Some(data.syncHash)
    requires data.timeIntervals == Some([bad]) && bad.start.None?
    ensures var t := Tables(map[0 := row.(timeIntervals := [good])], 1);
            var t' := Tables(map[0 := row.(timeIntervals := [])], 1);
            WellFormed(t) && Synced(t, t', data, [], Err(InvalidInterval))
  {
    var t := Tables(map[0 := row.(timeIntervals := [good])], 1);
    var t' := Tables(map[0 := row.(timeIntervals := [])], 1);
    assert !Storable(data.timeIntervals.value[0]);
    assert UpdateRefused(t, t', data, [], InvalidInterval, 0);
  }

  /** Two new payloads with the same slug: the second has no listing afterwards. */
  lemma {:induction false} SecondOfSameSlugLost(a: ListingData, b: ListingData, t1: Tables, t2: Tables,
      first: Outcome, second: Outcome)
    requires a.slug == b.slug && a.externalId != b.externalId && Fits(a, []) && Fits(b, [])
    requires Synced(Tables(map[], 0), t1, a, [], first) && Synced(t1, t2, b, [], second)
    ensures first == Ok((Created, 0)) && second == Err(SlugTaken) && t2 == t1 && Unknown(t2, b)
  {
    var t := Tables(map[], 0);
    SucceedsIff(t, t1, a, [], first);
    assert t1.listings[0].slug == b.slug;
    SyncKeeps(t, t1, a, [], first);
    SucceedsIff(t1, t2, b, [], second);
  }

  // ---- Categories of an imported listing ---------------------------------------------------------------

  lemma {:induction false} CategoryIdsMember(categories: map<string, CategoryImport.Category>, slugs: seq<string>,
      id: nat)
    ensures id in CategoryIds(categories, slugs) <==>
        exists s :: s in slugs && s in categories && categories[s].id == id
  {
    if slugs != [] {
      var front, last := slugs[..|slugs| - 1], slugs[|slugs| - 1];
      assert slugs == front + [last];
      CategoryIdsMember(categories, front, id);
      if s :| s in front && s in categories && categories[s].id == id { assert s in slugs; }
    }
  }

  /** Distinct slugs give distinct ids, so a sync of them never fails on its links. */
  lemma {:induction false} DistinctSlugsDistinctIds(t: CategoryImport.Tables, slugs: seq<string>)
    requires CategoryImport.WellFormed(t) && Distinct(slugs)
    ensures Distinct(CategoryIds(t.categories, slugs))
  {
    if slugs != [] {
      var front, last := slugs[..|slugs| - 1], slugs[|slugs| - 1];
      DistinctSlugsDistinctIds(t, front);
      if last in t.categories {
        var id := t.categories[last].id;
        CategoryIdsMember(t.categories, front, id);
        assert last !in front;
        DistinctConcat(CategoryIds(t.categories, front), [id]);
      }
    }
  }

  /** The listing is in exactly the categories that the item's slugs name. */
  ghost predicate FullyLinked(fold: char -> string, row: Listing, t: CategoryImport.Tables, item: DestinationOne.Item) {
    forall id :: id in row.categoryIds <==>
        exists s :: DestinationOne.Emits(fold, item, s) && s in t.categories && t.categories[s].id == id
  }

  /**
   * After the category sync the slugs of an item of a seeded type link its listing to exactly the
   * categories they name, whenever the sync of the listing writes.
   */
  lemma {:induction false} ImportLinksCategories(fold: char -> string, c: CategoryImport.Tables, t: Tables,
      t': Tables, item: DestinationOne.Item, data: ListingData, outcome: Outcome)
    requires CategoryImport.WellFormed(c) && WellFormed(t)
    requires DestinationOne.RootCategoryOf(item.kind).Some? &&
        DestinationOne.RootCategoryOf(item.kind).value.slug in c.categories
    requires Distinct(data.categorySlugs)
    requires forall s :: s in data.categorySlugs <==> DestinationOne.Emits(fold, item, s)
    requires Synced(t, t', data, CategoryIds(c.categories, data.categorySlugs), outcome)
    ensures Distinct(CategoryIds(c.categories, data.categorySlugs)) && outcome != Err(DuplicateCategory)
    ensures outcome.Ok? && outcome.value.0 != Skipped ==>
              outcome.value.1 in t'.listings && FullyLinked(fold, t'.listings[outcome.value.1], c, item)
  {
    var ids := CategoryIds(c.categories, data.categorySlugs);
    DistinctSlugsDistinctIds(c, data.categorySlugs);
    forall id
      ensures id in ids <==>
          exists s :: DestinationOne.Emits(fold, item, s) && s in c.categories && c.categories[s].id == id
    {
      CategoryIdsMember(c.categories, data.categorySlugs, id);
    }
    var root := DestinationOne.RootCategoryOf(item.kind).value.slug;
    assert DestinationOne.Emits(fold, item, root);
    assert c.categories[root].id in ids;
  }

  /**
   * The two services agree: once the facets that cover an item are synced, every slug the item is
   * sent with names a category, and a sync that writes links the listing to exactly those.
   */
  lemma {:induction false} ImportAgreement(
    fold: char -> string, before: CategoryImport.Tables, cityId: string, facets: seq<DestinationOne.Facet>,
    t: Tables, t': Tables, item: DestinationOne.Item, data: ListingData, outcome: Outcome)
    requires CategoryImport.WellFormed(before) && WellFormed(t) && Transformed(fold, item, cityId, data)
    requires DestinationOne.RootCategoryOf(item.kind).Some? &&
        DestinationOne.RootCategoryOf(item.kind).value.slug in before.categories
    requires forall c :: c in item.categories ==> CategoryImport.Covered(fold, facets, item.kind, c)
    requires Synced(t, t', data,
        CategoryIds(CategoryImport.Synced(fold, before, cityId, facets).categories, data.categorySlugs), outcome)
    ensures forall s :: s in data.categorySlugs ==> s in CategoryImport.Synced(fold, before, cityId, facets).categories
    ensures outcome != Err(DuplicateCategory)
    ensures outcome.Ok? && outcome.value.0 != Skipped ==>
              && outcome.value.1 in t'.listings
              && FullyLinked(fold, t'.listings[outcome.value.1], CategoryImport.Synced(fold, before, cityId, facets),
                  item)
  {
    var c := CategoryImport.Synced(fold, before, cityId, facets);
    CategoryImport.SyncTwice(fold, before, cityId, facets);
    CategoryImport.ItemResolvesIff(fold, before, cityId, facets, item);
    assert CategoryImport.Resolves(fold, c, item);
    assert DestinationOne.Emits(fold, item, DestinationOne.RootCategoryOf(item.kind).value.slug);
    ImportLinksCategories(fold, c, t, t', item, data, outcome);
  }

  // ---- The item loop -------------------------------------------------------------------------------------

  /** What the transport does with one request: the core may have acted although no answer comes back. */
  datatype Delivery = Answered | RequestLost | ReplyLost | ReplyEmpty

  predicate Arrives(d: Delivery) { d != RequestLost }

  datatype Tally = CountCreated | CountUpdated | CountSkipped | CountError | CountNothing

  function TallyOf(d: Delivery, outcome: Outcome): Tally {
    match d
    case RequestLost => CountError
    case ReplyLost => CountError
    case ReplyEmpty => if outcome.Err? then CountError else CountNothing
    case Answered =>
      if outcome.Err? then CountError
      else match outcome.value.0 case Created => CountCreated case Updated => CountUpdated case Skipped => CountSkipped
  }

  ghost predicate Transformed(fold: char -> string, item: DestinationOne.Item, cityId: string, data: ListingData) {
    && data.externalSource == "destination_one" && data.externalId == item.id && data.syncHash == item.syncHash
    && data.title == item.title && data.content == (if item.content != "" then item.content else item.title)
    && data.slug == Slugs.Slugify(fold, if item.title != "" then item.title else "item-" + item.id)
    && data.primaryCityId == cityId && data.details == item.details
    && data.geoLat == item.latitude && data.geoLng == item.longitude
    && data.timeIntervals == (match item.timeIntervals
                              case None => None
                              case Some(raws) => Some(DestinationOne.ConvertIntervals(raws)))
    && Distinct(data.categorySlugs) && forall s :: s in data.categorySlugs <==> DestinationOne.Emits(fold, item, s)
  }

  method TransformToListing(fold: char -> string, item: DestinationOne.Item, cityId: string) returns (data: ListingData)
    ensures Transformed(fold, item, cityId, data)
  {
    var slug := Slugs.Slugify(fold, if item.title != "" then item.title else "item-" + item.id);
    var categorySlugs := DestinationOne.CategorySlugs(fold, item);
    var content := if item.content != "" then item.content else item.title;
    var timeIntervals := match item.timeIntervals
      case None => None
      case Some(raws) => Some(DestinationOne.ConvertIntervals(raws));
    data := ListingData(item.title, content, slug, "destination_one", item.id, item.syncHash, cityId, item.details,
                        item.latitude, item.longitude, categorySlugs, timeIntervals);
  }

  datatype Entry = Entry(item: DestinationOne.Item, data: ListingData, delivery: Delivery, outcome: Outcome)

  ghost predicate EntryOf(fold: char -> string, cityId: string, item: DestinationOne.Item, delivery: Delivery,
      e: Entry) {
    e.item == item && e.delivery == delivery && Transformed(fold, item, cityId, e.data)
  }

  /** The log of the first items, one entry each. */
  ghost predicate Logged(fold: char -> string, cityId: string, items: seq<DestinationOne.Item>,
      deliveries: seq<Delivery>, log: seq<Entry>) {
    && |log| <= |items| == |deliveries|
    && forall i :: 0 <= i < |log| ==> EntryOf(fold, cityId, items[i], deliveries[i], log[i])
  }

  /** Entry by entry: the item, what the transport did with it, and a payload that came from the item. */
  lemma {:induction false} LoggedMeans(fold: char -> string, cityId: string, items: seq<DestinationOne.Item>,
      deliveries: seq<Delivery>, log: seq<Entry>, i: nat)
    requires Logged(fold, cityId, items, deliveries, log) && i < |log|
    ensures log[i].item == items[i] && log[i].delivery == deliveries[i]
    ensures log[i].data.externalId == items[i].id && log[i].data.syncHash == items[i].syncHash
    ensures Arrives(deliveries[i]) <==> deliveries[i] in {Answered, ReplyLost, ReplyEmpty}
  {
    assert EntryOf(fold, cityId, items[i], deliveries[i], log[i]);
  }

  lemma {:induction false} LoggedMore(fold: char -> string, cityId: string, items: seq<DestinationOne.Item>,
      deliveries: seq<Delivery>, log: seq<Entry>, e: Entry)
    requires Logged(fold, cityId, items, deliveries, log) && |log| < |items|
    requires EntryOf(fold, cityId, items[|log|], deliveries[|log|], e)
    ensures Logged(fold, cityId, items, deliveries, log + [e])
  {
    forall i | 0 <= i < |log + [e]|
      ensures EntryOf(fold, cityId, items[i], deliveries[i], (log + [e])[i])
    {
      if i < |log| { assert (log + [e])[i] == log[i]; }
    }
  }

  function Tallied(e: Entry): Tally {
    TallyOf(e.delivery, e.outcome)
  }

  function Count(log: seq<Entry>, what: Tally): nat {
    if log == [] then 0 else Count(log[..|log| - 1], what) + if Tallied(log[|log| - 1]) == what then 1 else 0
  }

  /** Every item counts exactly once. */
  lemma {:induction false} CountsSum(log: seq<Entry>)
    ensures Count(log, CountCreated) + Count(log, CountUpdated) + Count(log, CountSkipped)
            + Count(log, CountError) + Count(log, CountNothing) == |log|
  {
    if log != [] { CountsSum(log[..|log| - 1]); }
  }

  lemma {:induction false} CountZero(log: seq<Entry>, what: Tally)
    ensures Count(log, what) == 0 <==> forall e :: e in log ==> Tallied(e) != what
  {
    if log != [] {
      assert log == log[..|log| - 1] + [log[|log| - 1]];
      CountZero(log[..|log| - 1], what);
    }
  }

  /** How an entry counts: by the answer that came back, if one did. */
  lemma {:induction false} TallyMeans(e: Entry)
    ensures Tallied(e) == CountCreated <==> e.delivery == Answered && e.outcome.Ok? && e.outcome.value.0 == Created
    ensures Tallied(e) == CountUpdated <==> e.delivery == Answered && e.outcome.Ok? && e.outcome.value.0 == Updated
    ensures Tallied(e) == CountSkipped <==> e.delivery == Answered && e.outcome.Ok? && e.outcome.value.0 == Skipped
    ensures Tallied(e) == CountError <==> e.delivery in {RequestLost, ReplyLost} || e.outcome.Err?
    ensures Tallied(e) == CountNothing <==> e.delivery == ReplyEmpty && e.outcome.Ok?
  {
  }

  ghost function EntriesCounting(log: seq<Entry>, what: Tally): set<nat> {
    set i: nat | i < |log| && Tallied(log[i]) == what
  }

  lemma {:induction false} CountIs(log: seq<Entry>, what: Tally)
    ensures Count(log, what) == |EntriesCounting(log, what)|
  {
    if log != [] {
      var n := |log| - 1;
      CountIs(log[..n], what);
      assert EntriesCounting(log, what) ==
          EntriesCounting(log[..n], what) + if Tallied(log[n]) == what then {n} else {};
    }
  }

  /** The four counters agree with the log. */
  ghost predicate Counted(log: seq<Entry>, created: nat, updated: nat, skipped: nat, errorCount: nat) {
    && created == Count(log, CountCreated) && updated == Count(log, CountUpdated)
    && skipped == Count(log, CountSkipped) && errorCount == Count(log, CountError)
  }

  function Bump(n: nat, tally: Tally, what: Tally): nat {
    if tally == what then n + 1 else n
  }

  lemma {:induction false} CountedMore(log: seq<Entry>, e: Entry, created: nat, updated: nat, skipped: nat,
      errorCount: nat)
    requires Counted(log, created, updated, skipped, errorCount)
    ensures var t := Tallied(e);
            Counted(log + [e], Bump(created, t, CountCreated), Bump(updated, t, CountUpdated),
                    Bump(skipped, t, CountSkipped), Bump(errorCount, t, CountError))
  {
  }

  ghost predicate EntryStep(t: Tables, t': Tables, categories: map<string, CategoryImport.Category>, e: Entry) {
    if Arrives(e.delivery)
    then Synced(t, t', e.data, CategoryIds(categories, e.data.categorySlugs), e.outcome)
    else t' == t
  }

  ghost predicate StepAt(states: seq<Tables>, log: seq<Entry>, categories: map<string, CategoryImport.Category>, i: nat)
    requires |states| == |log| + 1 && i < |log|
  {
    EntryStep(states[i], states[i + 1], categories, log[i])
  }

  ghost predicate IsRun(states: seq<Tables>, log: seq<Entry>, categories: map<string, CategoryImport.Category>) {
    |states| == |log| + 1 && forall i: nat :: i < |log| ==> StepAt(states, log, categories, i)
  }

  ghost predicate Creates(e: Entry) {
    Arrives(e.delivery) && e.outcome.Ok? && e.outcome.value.0.Created?
  }

  ghost predicate Frame(t: Tables, t': Tables, e: Entry) {
    && OldRowsKept(t, t', e.data)
    && (if Creates(e) then RowAdded(t, t', e.data) else NoRowAdded(t, t'))
  }

  lemma {:induction false} StepFrame(states: seq<Tables>, log: seq<Entry>,
      categories: map<string, CategoryImport.Category>, i: nat)
    requires IsRun(states, log, categories) && i < |log| && WellFormed(states[i])
    ensures Frame(states[i], states[i + 1], log[i]) && WellFormed(states[i + 1])
  {
    assert StepAt(states, log, categories, i);
    var e := log[i];
    if Arrives(e.delivery) {
      SyncFrame(states[i], states[i + 1], e.data, CategoryIds(categories, e.data.categorySlugs), e.outcome);
      FrameKeeps(states[i], states[i + 1], e.data);
    }
  }

  lemma {:induction false} RunKeeps(states: seq<Tables>, log: seq<Entry>,
      categories: map<string, CategoryImport.Category>, n: nat)
    requires IsRun(states, log, categories) && WellFormed(states[0]) && n <= |log|
    ensures WellFormed(states[n])
    decreases n
  {
    if n > 0 {
      RunKeeps(states, log, categories, n - 1);
      StepFrame(states, log, categories, n - 1);
    }
  }

  lemma {:induction false} OneStepMore(states: seq<Tables>, log: seq<Entry>,
      categories: map<string, CategoryImport.Category>, t': Tables, e: Entry)
    requires IsRun(states, log, categories) && EntryStep(states[|log|], t', categories, e)
    ensures IsRun(states + [t'], log + [e], categories)
  {
    forall i: nat | i < |log + [e]|
      ensures StepAt(states + [t'], log + [e], categories, i)
    {
      if i < |log| { assert StepAt(states, log, categories, i); }
    }
  }

  lemma {:induction false} OwnEntryLands(t: Tables, t': Tables, categories: map<string, CategoryImport.Category>,
      e: Entry)
    requires EntryStep(t, t', categories, e) && Arrives(e.delivery) && e.outcome.Ok?
    ensures Current(t', e.data, e.outcome.value.1)
  {
  }

  ghost predicate DistinctEntries(log: seq<Entry>) {
    forall j, k :: 0 <= j < k < |log| ==> log[j].data.externalId != log[k].data.externalId
  }

  /** An entry for another external id leaves the listings of a payload alone. */
  ghost predicate SameFor(t: Tables, t': Tables, data: ListingData) {
    && (forall id :: Known(t, data, id) <==> Known(t', data, id))
    && forall id :: Known(t, data, id) ==> t'.listings[id] == t.listings[id]
  }

  lemma {:induction false} FrameSameFor(t: Tables, t': Tables, data: ListingData, e: Entry)
    requires Frame(t, t', e) && e.data.externalId != data.externalId
    ensures SameFor(t, t', data)
  {
    forall id
      ensures Known(t, data, id) <==> Known(t', data, id)
      ensures Known(t, data, id) ==> t'.listings[id] == t.listings[id]
    {
      if id in t.listings { assert RowKept(t.listings[id], t'.listings[id], e.data); }
    }
  }

  lemma {:induction false} SameForTrans(a: Tables, b: Tables, c: Tables, data: ListingData)
    requires SameFor(a, b, data) && SameFor(b, c, data)
    ensures SameFor(a, c, data)
  {
    forall id
      ensures Known(a, data, id) <==> Known(c, data, id)
      ensures Known(a, data, id) ==> c.listings[id] == a.listings[id]
    {
      assert Known(b, data, id) <==> Known(a, data, id);
    }
  }

  /** With every external id once, only its own entry touches the listing of a payload. */
  lemma {:induction false} SameForInRun(states: seq<Tables>, log: seq<Entry>,
      categories: map<string, CategoryImport.Category>, i: nat, m: nat, n: nat)
    requires IsRun(states, log, categories) && WellFormed(states[0]) && DistinctEntries(log)
    requires i < |log| && m <= n <= |log| && !(m <= i < n)
    ensures SameFor(states[m], states[n], log[i].data)
    decreases n
  {
    if m < n {
      SameForInRun(states, log, categories, i, m, n - 1);
      SameForStep(states, log, categories, i, n - 1);
      SameForTrans(states[m], states[n - 1], states[n], log[i].data);
    }
  }

  lemma {:induction false} SameForStep(states: seq<Tables>, log: seq<Entry>,
      categories: map<string, CategoryImport.Category>, i: nat, n: nat)
    requires IsRun(states, log, categories) && WellFormed(states[0]) && DistinctEntries(log)
    requires i < |log| && n < |log| && i != n
    ensures SameFor(states[n], states[n + 1], log[i].data)
  {
    RunKeeps(states, log, categories, n);
    StepFrame(states, log, categories, n);
    assert i < n || n < i;
    FrameSameFor(states[n], states[n + 1], log[i].data, log[n]);
  }

  /** So what an entry left of its listing stays to the end of the run. */
  lemma {:induction false} RowStaysInRun(states: seq<Tables>, log: seq<Entry>,
      categories: map<string, CategoryImport.Category>, i: nat, n: nat, id: nat)
    requires IsRun(states, log, categories) && WellFormed(states[0]) && DistinctEntries(log)
    requires i < n <= |log| && Known(states[i + 1], log[i].data, id)
    ensures Known(states[n], log[i].data, id) && states[n].listings[id] == states[i + 1].listings[id]
  {
    SameForInRun(states, log, categories, i, i + 1, n);
  }

  /**
   * With every external id once, after the run each item whose sync succeeded has exactly one
   * listing, and it carries the hash that came with the item.
   */
  lemma {:induction false} ItemsLand(states: seq<Tables>, log: seq<Entry>,
      categories: map<string, CategoryImport.Category>, i: nat, n: nat)
    requires IsRun(states, log, categories) && WellFormed(states[0]) && DistinctEntries(log)
    requires i < n <= |log| && Arrives(log[i].delivery) && log[i].outcome.Ok?
    ensures Current(states[n], log[i].data, log[i].outcome.value.1)
  {
    assert StepAt(states, log, categories, i);
    OwnEntryLands(states[i], states[i + 1], categories, log[i]);
    RowStaysInRun(states, log, categories, i, n, log[i].outcome.value.1);
  }

  /** What was written for an item stays as it was written to the end of the run. */
  lemma {:induction false} ItemsStayWritten(states: seq<Tables>, log: seq<Entry>,
      categories: map<string, CategoryImport.Category>, i: nat, n: nat)
    requires IsRun(states, log, categories) && WellFormed(states[0]) && DistinctEntries(log)
    requires i < n <= |log| && Written(log[i])
    ensures var id := log[i].outcome.value.1;
            && id in states[n].listings && Carries(states[n].listings[id], log[i].data)
            && (log[i].outcome.value.0 == Created ==> StartsWith(states[n].listings[id], log[i].data))
  {
    var e := log[i];
    assert StepAt(states, log, categories, i);
    RunKeeps(states, log, categories, i);
    WriteStores(states[i], states[i + 1], e.data, CategoryIds(categories, e.data.categorySlugs), e.outcome);
    OwnEntryLands(states[i], states[i + 1], categories, e);
    RowStaysInRun(states, log, categories, i, n, e.outcome.value.1);
  }

  /** The listing shows the item as the feed delivered it. */
  ghost predicate ShowsItem(row: Listing, item: DestinationOne.Item) {
    && row.title == item.title && row.content == (if item.content == "" then item.title else item.content)
    && row.externalSource == Some("destination_one") && row.externalId == Some(item.id)
    && row.syncHash == Some(item.syncHash)
    && (forall k :: k in item.details ==> k in row.details && row.details[k] == item.details[k])
    && (item.latitude !in {None, Some(0.0)} ==> row.geoLat == item.latitude)
    && (item.longitude !in {None, Some(0.0)} ==> row.geoLng == item.longitude)
    && (item.timeIntervals.Some? ==>
          && |row.timeIntervals| == |item.timeIntervals.value|
          && forall k :: 0 <= k < |row.timeIntervals| ==>
               DestinationOne.Converted(item.timeIntervals.value[k], row.timeIntervals[k]))
  }

  /** A listing the item was created as: in the city of the run, approved, under the slug of its title or id. */
  ghost predicate NewForItem(fold: char -> string, row: Listing, item: DestinationOne.Item, cityId: string) {
    && row.primaryCityId == Some(cityId) && row.slug == Slugs.Slugify(fold, if item.title == "" then "item-" + item.id
                                                                            else item.title)
    && row.status == ListingTypes.ListingStatus.APPROVED
    && row.moderationStatus == ListingTypes.ModerationStatus.APPROVED
    && row.sourceType == ListingTypes.SourceType.API_IMPORT
  }

  lemma {:induction false} CarriedItemShows(fold: char -> string, item: DestinationOne.Item, cityId: string,
      data: ListingData, row: Listing)
    requires Transformed(fold, item, cityId, data) && Carries(row, data)
    ensures ShowsItem(row, item)
    ensures StartsWith(row, data) ==> NewForItem(fold, row, item, cityId)
  {
    if item.timeIntervals.Some? { DestinationOne.IntervalsConvert(item.timeIntervals.value); }
  }

  // ---- Which items of a run land ------------------------------------------------------------------------

  /** One of the first `n` entries created a listing under this slug. */
  ghost predicate CreatedUnder(log: seq<Entry>, n: nat, slug: string)
    requires n <= |log|
  {
    exists i: nat :: i < n && Creates(log[i]) && log[i].data.slug == slug
  }

  lemma {:induction false} FrameSlugs(t: Tables, t': Tables, e: Entry, slug: string)
    requires Frame(t, t', e)
    ensures SlugIsTaken(t', slug) <==> SlugIsTaken(t, slug) || (Creates(e) && e.data.slug == slug)
  {
    if SlugIsTaken(t, slug) {
      var id :| id in t.listings && t.listings[id].slug == slug;
      assert RowKept(t.listings[id], t'.listings[id], e.data);
    }
    if Creates(e) && e.data.slug == slug {
      assert t.nextId in t'.listings && t'.listings[t.nextId].slug == slug;
    }
    if SlugIsTaken(t', slug) {
      var id :| id in t'.listings && t'.listings[id].slug == slug;
      if id in t.listings { assert RowKept(t.listings[id], t'.listings[id], e.data); }
    }
  }

  /** The slugs of a run: those of its start, and those it created listings under. */
  lemma {:induction false} SlugsOfRun(states: seq<Tables>, log: seq<Entry>,
      categories: map<string, CategoryImport.Category>, n: nat, slug: string)
    requires IsRun(states, log, categories) && WellFormed(states[0]) && n <= |log|
    ensures SlugIsTaken(states[n], slug) <==> SlugIsTaken(states[0], slug) || CreatedUnder(log, n, slug)
    decreases n
  {
    if n > 0 {
      SlugsOfRun(states, log, categories, n - 1, slug);
      SlugsOfStep(states, log, categories, n - 1, slug);
      CreatedUnderStep(log, n - 1, slug);
    }
  }

  lemma {:induction false} SlugsOfStep(states: seq<Tables>, log: seq<Entry>,
      categories: map<string, CategoryImport.Category>, n: nat, slug: string)
    requires IsRun(states, log, categories) && WellFormed(states[0]) && n < |log|
    ensures SlugIsTaken(states[n + 1], slug) <==>
              SlugIsTaken(states[n], slug) || (Creates(log[n]) && log[n].data.slug == slug)
  {
    RunKeeps(states, log, categories, n);
    StepFrame(states, log, categories, n);
    FrameSlugs(states[n], states[n + 1], log[n], slug);
  }

  lemma {:induction false} CreatedUnderStep(log: seq<Entry>, n: nat, slug: string)
    requires n < |log|
    ensures CreatedUnder(log, n + 1, slug) <==>
      || CreatedUnder(log, n, slug)
      || (Creates(log[n]) && log[n].data.slug == slug)
  {
  }

  /** The entry's payload is accepted, and its listing exists from the start or its slug is free when it comes. */
  ghost predicate Admitted(start: Tables, log: seq<Entry>, categories: map<string, CategoryImport.Category>, i: nat)
    requires i < |log|
  {
    var data := log[i].data;
    && Fits(data, CategoryIds(categories, data.categorySlugs))
    && (!Unknown(start, data) || !(SlugIsTaken(start, data.slug) || CreatedUnder(log, i, data.slug)))
  }

  ghost predicate Written(e: Entry) {
    Arrives(e.delivery) && e.outcome.Ok? && e.outcome.value.0 != Skipped
  }

  lemma {:induction false} SameForStatus(t: Tables, t': Tables, data: ListingData)
    requires SameFor(t, t', data)
    ensures Unknown(t, data) <==> Unknown(t', data)
    ensures IsCurrent(t, data) <==> IsCurrent(t', data)
  {
    if !Unknown(t, data) {
      var id :| id in t.listings && IsImport(t.listings[id], data);
      assert Known(t, data, id);
    }
    if !Unknown(t', data) {
      var id :| id in t'.listings && IsImport(t'.listings[id], data);
      assert Known(t', data, id);
    }
    if IsCurrent(t, data) {
      var id :| Current(t, data, id);
      assert Current(t', data, id);
    }
    if IsCurrent(t', data) {
      var id :| Current(t', data, id);
      assert Known(t, data, id) && Current(t, data, id);
    }
  }

  /**
   * With every external id once, an item that arrives succeeds if and only if its listing was current
   * at the start or it is admitted: of several new items with one slug only the first can land. It is
   * written if and only if it is admitted and was not current.
   */
  lemma {:induction false} LandsIff(states: seq<Tables>, log: seq<Entry>,
      categories: map<string, CategoryImport.Category>, i: nat)
    requires IsRun(states, log, categories) && WellFormed(states[0]) && DistinctEntries(log)
    requires i < |log| && Arrives(log[i].delivery)
    ensures log[i].outcome.Ok? <==> IsCurrent(states[0], log[i].data) || Admitted(states[0], log, categories, i)
    ensures Written(log[i]) <==> !IsCurrent(states[0], log[i].data) && Admitted(states[0], log, categories, i)
  {
    var data, ids := log[i].data, CategoryIds(categories, log[i].data.categorySlugs);
    RunKeeps(states, log, categories, i);
    assert StepAt(states, log, categories, i);
    SameForInRun(states, log, categories, i, 0, i);
    SameForStatus(states[0], states[i], data);
    SlugsOfRun(states, log, categories, i, data.slug);
    SucceedsIff(states[i], states[i + 1], data, ids, log[i].outcome);
    UnchangedIffSameHash(states[i], states[i + 1], data, ids, log[i].outcome);
  }

  /** And if the sync wrote, the listing is still in exactly the categories its slugs name. */
  lemma {:induction false} ItemsStayLinked(fold: char -> string, c: CategoryImport.Tables, states: seq<Tables>,
      log: seq<Entry>, cityId: string, i: nat, n: nat)
    requires CategoryImport.WellFormed(c)
    requires IsRun(states, log, c.categories) && WellFormed(states[0]) && DistinctEntries(log)
    requires i < n <= |log| && Written(log[i]) && Transformed(fold, log[i].item, cityId, log[i].data)
    requires DestinationOne.RootCategoryOf(log[i].item.kind).Some?
    requires DestinationOne.RootCategoryOf(log[i].item.kind).value.slug in c.categories
    ensures Known(states[n], log[i].data, log[i].outcome.value.1)
    ensures FullyLinked(fold, states[n].listings[log[i].outcome.value.1], c, log[i].item)
  {
    var e := log[i];
    assert StepAt(states, log, c.categories, i);
    RunKeeps(states, log, c.categories, i);
    ImportLinksCategories(fold, c, states[i], states[i + 1], e.item, e.data, e.outcome);
    OwnEntryLands(states[i], states[i + 1], c.categories, e);
    RowStaysInRun(states, log, c.categories, i, n, e.outcome.value.1);
  }

  class ListingTables {
    var listings: map<nat, Listing>
    var nextId: nat

    function View(): Tables
      reads this
    {
      Tables(listings, nextId)
    }

    method ResolveCategories(categories: map<string, CategoryImport.Category>, slugs: seq<string>)
      returns (categoryIds: seq<nat>)
      ensures categoryIds == CategoryIds(categories, slugs)
    {
      categoryIds := [];
      for i := 0 to |slugs|
        invariant categoryIds == CategoryIds(categories, slugs[..i])
      {
        assert slugs[..i + 1][..i] == slugs[..i];
        if slugs[i] in categories { categoryIds := categoryIds + [categories[slugs[i]].id]; }
      }
      assert slugs[..|slugs|] == slugs;
    }

    /** Insert the links one row each; a pair that exists already fails the whole statement. */
    method CreateLinks(ids: seq<nat>) returns (ok: bool, links: set<nat>)
      ensures ok <==> Distinct(ids)
      ensures ok ==> links == AsSet(ids)
    {
      links := {};
      for i := 0 to |ids|
        invariant links == AsSet(ids[..i]) && Distinct(ids[..i])
      {
        assert ids[..i + 1] == ids[..i] + [ids[i]];
        if ids[i] in links {
          var j :| 0 <= j < i && ids[j] == ids[i];
          return false, {};
        }
        links := links + {ids[i]};
      }
      assert ids[..|ids|] == ids;
      ok := true;
    }

    /** Delete the listing's links, then create the new ones, unless nothing resolved. */
    method ReplaceLinks(id: nat, ids: seq<nat>) returns (ok: bool)
      requires id in listings
      modifies this`listings
      ensures ok <==> Distinct(ids)
      ensures var row := old(listings)[id];
              View() == Put(old(View()), id, if ok then Relinked(row, ids) else row.(categoryIds := {}))
    {
      ok := true;
      if ids != [] {
        listings := listings[id := listings[id].(categoryIds := {})];
        var links;
        ok, links := CreateLinks(ids);
        if ok { listings := listings[id := listings[id].(categoryIds := links)]; }
      }
    }

    /** Delete the listing's intervals, then create the new ones, when some are given. */
    method ReplaceIntervals(id: nat, data: ListingData) returns (ok: bool)
      requires id in listings
      modifies this`listings
      ensures ok <==> IntervalsFit(data)
      ensures var row := old(listings)[id];
              View() == Put(old(View()), id, if ok then WithIntervals(row, data) else row.(timeIntervals := []))
    {
      ok := true;
      if data.timeIntervals.Some? {
        listings := listings[id := listings[id].(timeIntervals := [])];
        ok := forall k | 0 <= k < |data.timeIntervals.value| :: Storable(data.timeIntervals.value[k]);
        if ok { listings := listings[id := listings[id].(timeIntervals := data.timeIntervals.value)]; }
      }
    }

    /** Each write goes to the database by itself: what comes before a rejected one stays. */
    method UpdateListing(id: nat, data: ListingData, categoryIds: seq<nat>) returns (outcome: Outcome)
      requires Outdated(View(), data, id)
      modifies this`listings
      ensures Synced(old(View()), View(), data, categoryIds, outcome)
    {
      ghost var before := View();
      var ok := ReplaceLinks(id, categoryIds);
      if !ok {
        assert UpdateRefused(before, View(), data, categoryIds, DuplicateCategory, id);
        return Err(DuplicateCategory);
      }
      ok := ReplaceIntervals(id, data);
      if !ok {
        assert UpdateRefused(before, View(), data, categoryIds, InvalidInterval, id);
        return Err(InvalidInterval);
      }
      if !ColumnsFit(data) {
        assert UpdateRefused(before, View(), data, categoryIds, InvalidColumn, id);
        return Err(InvalidColumn);
      }
      WriteColumns(id, data);
      outcome := Ok((Updated, id));
    }

    method WriteColumns(id: nat, data: ListingData)
      requires id in listings
      modifies this`listings
      ensures View() == Put(old(View()), id, WithColumns(old(listings)[id], data))
    {
      var row := listings[id].(title := data.title, content := data.content, syncHash := Some(data.syncHash),
                               details := listings[id].details + data.details);
      if data.geoLat.Some? && data.geoLat.value != 0.0 { row := row.(geoLat := data.geoLat); }
      if data.geoLng.Some? && data.geoLng.value != 0.0 { row := row.(geoLng := data.geoLng); }
      listings := listings[id := row];
    }

    method CreateListing(data: ListingData, categoryIds: seq<nat>) returns (outcome: Outcome)
      requires Unknown(View(), data)
      modifies this
      ensures Synced(old(View()), View(), data, categoryIds, outcome)
    {
      if !IntervalsFit(data) { return Err(InvalidInterval); }
      if id :| id in listings && listings[id].slug == data.slug {
        return Err(SlugTaken);
      }
      if !ColumnsFit(data) { return Err(InvalidColumn); }
      var ok, links := CreateLinks(categoryIds);
      if !ok { return Err(DuplicateCategory); }
      var id := nextId;
      nextId := nextId + 1;
      listings := listings[id := NewRow(data, categoryIds).(categoryIds := links)];
      outcome := Ok((Created, id));
    }

    /** Resolve the categories, look the listing up by its external id, then skip, update or create. */
    method SyncListingFromIntegration(categories: map<string, CategoryImport.Category>, data: ListingData)
      returns (outcome: Outcome)
      requires WellFormed(View())
      modifies this
      ensures Synced(old(View()), View(), data, CategoryIds(categories, data.categorySlugs), outcome)
      ensures WellFormed(View())
    {
      ghost var before := View();
      var categoryIds := ResolveCategories(categories, data.categorySlugs);
      if id :| id in listings && IsImport(listings[id], data) {
        if listings[id].syncHash != Some(data.syncHash) {
          outcome := UpdateListing(id, data, categoryIds);
        } else {
          outcome := Ok((Skipped, id));
        }
      } else {
        outcome := CreateListing(data, categoryIds);
      }
      SyncKeeps(before, View(), data, categoryIds, outcome);
    }

    /** One turn of the item loop: what it counts as, and what it did. */
    method ProcessItem(fold: char -> string, item: DestinationOne.Item, cityId: string,
        categories: map<string, CategoryImport.Category>, delivery: Delivery)
      returns (tally: Tally, ghost e: Entry)
      requires WellFormed(View())
      modifies this
      ensures WellFormed(View()) && EntryStep(old(View()), View(), categories, e)
      ensures EntryOf(fold, cityId, item, delivery, e) && tally == Tallied(e)
    {
      var data := TransformToListing(fold, item, cityId);
      var outcome: Outcome := Err(SlugTaken);
      if delivery != RequestLost {
        outcome := SyncListingFromIntegration(categories, data);
      }
      e := Entry(item, data, delivery, outcome);
      if delivery == RequestLost || delivery == ReplyLost || outcome.Err? {
        tally := CountError;
      } else if delivery == ReplyEmpty {
        tally := CountNothing;
      } else if outcome.value.0 == Created {
        tally := CountCreated;
      } else if outcome.value.0 == Updated {
        tally := CountUpdated;
      } else {
        tally := CountSkipped;
      }
    }

    /** The item loop of `syncIntegration`, with what it did to the tables in `states` and `log`. */
    method ProcessItems(fold: char -> string, items: seq<DestinationOne.Item>, cityId: string,
        categories: map<string, CategoryImport.Category>, deliveries: seq<Delivery>)
      returns (created: nat, updated: nat, skipped: nat, errorCount: nat, ghost states: seq<Tables>,
          ghost log: seq<Entry>)
      requires WellFormed(View()) && |deliveries| == |items|
      modifies this
      ensures WellFormed(View())
      ensures IsRun(states, log, categories) && states[0] == old(View()) && states[|log|] == View() && |log| == |items|
      ensures Logged(fold, cityId, items, deliveries, log)
      ensures Counted(log, created, updated, skipped, errorCount)
      ensures created + updated + skipped + errorCount == |items| <==>
          forall e :: e in log ==> Tallied(e) != CountNothing
    {
      created, updated, skipped, errorCount := 0, 0, 0, 0;
      states, log := [View()], [];
      for i := 0 to |items|
        invariant WellFormed(View())
        invariant IsRun(states, log, categories) && states[0] == old(View()) && states[|log|] == View() && |log| == i
        invariant Logged(fold, cityId, items, deliveries, log)
        invariant Counted(log, created, updated, skipped, errorCount)
      {
        var tally, e := ProcessItem(fold, items[i], cityId, categories, deliveries[i]);
        CountedMore(log, e, created, updated, skipped, errorCount);
        created, updated := Bump(created, tally, CountCreated), Bump(updated, tally, CountUpdated);
        skipped, errorCount := Bump(skipped, tally, CountSkipped), Bump(errorCount, tally, CountError);
        LoggedMore(fold, cityId, items, deliveries, log, e);
        OneStepMore(states, log, categories, View(), e);
        states, log := states + [View()], log + [e];
      }
      CountsSum(log);
      CountZero(log, CountNothing);
    }
  }
}
