/**
 * The listing filter: compiled into a where-tree for the database, with the database's reading of
 * such a tree (nulls included), and the paging arithmetic on top. Dates are milliseconds.
 */
module ListingQuery {
  import opened Arithmetic
  import opened Common
  import opened ListingTypes
  import Slugs

  datatype Interval = Interval(start: int, end: int)

  datatype Row = Row(id: string, title: string, summary: Option<string>, content: string,
                     status: ListingStatus, moderationStatus: ModerationStatus, visibility: Visibility,
                     sourceType: SourceType, isFeatured: bool, languageCode: Option<string>,
                     publishAt: Option<int>, eventStart: Option<int>,
                     cityIds: set<string>, categoryIds: set<string>, timeIntervals: seq<Interval>)

  datatype Filter = Filter(search: Option<string>, status: Option<ListingStatus>,
                           moderationStatus: Option<ModerationStatus>, visibility: Option<Visibility>,
                           sourceType: Option<SourceType>, isFeatured: Option<bool>,
                           languageCodes: Option<seq<string>>, cityIds: Option<seq<string>>,
                           categoryIds: Option<seq<string>>,
                           publishAfter: Option<int>, publishBefore: Option<int>,
                           upcomingAfter: Option<int>, upcomingBefore: Option<int>)

  // ---- Where-trees and how the database reads them ------------------------------------------------

  /** `gte` and `lte`, each optional. */
  datatype DateFilter = DateFilter(gte: Option<int>, lte: Option<int>)

  /** Conditions on the `start` and `end` of an interval. */
  datatype IntervalFilter = IntervalFilter(start: Option<DateFilter>, end: Option<DateFilter>)

  /** One field of a where object. */
  datatype Clause =
    | Title(contains: string)
    | Summary(contains: string)
    | Content(contains: string)
    | Status(status: ListingStatus)
    | Moderation(moderationStatus: ModerationStatus)
    | Visible(visibility: Visibility)
    | Source(sourceType: SourceType)
    | Featured(isFeatured: bool)
    | Language(codes: seq<string>)
    | SomeCity(ids: seq<string>)
    | SomeCategory(ids: seq<string>)
    | PublishAt(range: DateFilter)
    | EventStart(range: DateFilter)
    | SomeInterval(filter: IntervalFilter)
    | OR(wheres: seq<Where>)
    | AND(wheres: seq<Where>)

  /** A where object: all its fields must hold. */
  datatype Where = Where(clauses: seq<Clause>)

  predicate InRange(range: DateFilter, x: int) {
    && (range.gte.Some? ==> range.gte.value <= x)
    && (range.lte.Some? ==> x <= range.lte.value)
  }

  predicate IntervalPasses(f: IntervalFilter, i: Interval) {
    && (f.start.Some? ==> InRange(f.start.value, i.start))
    && (f.end.Some? ==> InRange(f.end.value, i.end))
  }

  /** Case-insensitive containment, up to how characters are folded. */
  predicate Contains(fold: char -> string, text: string, term: string) {
    Includes(Slugs.ToLowerCase(fold, text), Slugs.ToLowerCase(fold, term))
  }

  predicate Includes(t: string, p: string) {
    exists i | 0 <= i <= |t| :: p <= t[i..]
  }

  predicate Holds(fold: char -> string, w: Where, row: Row) {
    forall c | c in w.clauses :: ClauseHolds(fold, c, row)
  }

  /** A comparison with null is never true. */
  predicate ClauseHolds(fold: char -> string, c: Clause, row: Row) {
    match c
    case Title(term) => Contains(fold, row.title, term)
    case Summary(term) => row.summary.Some? && Contains(fold, row.summary.value, term)
    case Content(term) => Contains(fold, row.content, term)
    case Status(x) => row.status == x
    case Moderation(x) => row.moderationStatus == x
    case Visible(x) => row.visibility == x
    case Source(x) => row.sourceType == x
    case Featured(x) => row.isFeatured == x
    case Language(codes) => row.languageCode.Some? && row.languageCode.value in codes
    case SomeCity(ids) => exists x | x in row.cityIds :: x in ids
    case SomeCategory(ids) => exists x | x in row.categoryIds :: x in ids
    case PublishAt(range) => row.publishAt.Some? && InRange(range, row.publishAt.value)
    case EventStart(range) => row.eventStart.Some? && InRange(range, row.eventStart.value)
    case SomeInterval(f) => exists i | i in row.timeIntervals :: IntervalPasses(f, i)
    case OR(ws) => exists w | w in ws :: Holds(fold, w, row)
    case AND(ws) => forall w | w in ws :: Holds(fold, w, row)
  }

  // ---- The compiler ---------------------------------------------------------------------------------

  function Trim(s: string): string {
    Slugs.TrimEnd(Slugs.TrimStart(s))
  }

  predicate Given(codes: Option<seq<string>>) {
    codes.Some? && |codes.value| > 0
  }

  function SearchClauses(f: Filter): seq<Clause> {
    if f.search.Some? && f.search.value != "" then
      var term := Trim(f.search.value);
      [OR([Where([Title(term)]), Where([Summary(term)]), Where([Content(term)])])]
    else []
  }

  function UpcomingIntervalFilter(f: Filter): IntervalFilter {
    IntervalFilter(if f.upcomingBefore.Some? then Some(DateFilter(None, f.upcomingBefore)) else None,
                   if f.upcomingAfter.Some? then Some(DateFilter(f.upcomingAfter, None)) else None)
  }

  function AndConditions(f: Filter): seq<Where> {
    (if f.publishAfter.Some? || f.publishBefore.Some?
     then [Where([PublishAt(DateFilter(f.publishAfter, f.publishBefore))])] else [])
    + (if f.upcomingAfter.Some? || f.upcomingBefore.Some?
       then [Where([OR([Where([EventStart(DateFilter(f.upcomingAfter, f.upcomingBefore))]),
                        Where([SomeInterval(UpcomingIntervalFilter(f))])])])]
       else [])
  }

  function StateClauses(f: Filter): seq<Clause> {
    (match f.status case Some(x) => [Status(x)] case None => [])
    + (match f.moderationStatus case Some(x) => [Moderation(x)] case None => [])
    + (match f.visibility case Some(x) => [Visible(x)] case None => [])
  }

  function OriginClauses(f: Filter): seq<Clause> {
    (match f.sourceType case Some(x) => [Source(x)] case None => [])
    + (match f.isFeatured case Some(x) => [Featured(x)] case None => [])
  }

  function ListClauses(f: Filter): seq<Clause> {
    (if Given(f.languageCodes) then [Language(f.languageCodes.value)] else [])
    + (if Given(f.cityIds) then [SomeCity(f.cityIds.value)] else [])
    + (if Given(f.categoryIds) then [SomeCategory(f.categoryIds.value)] else [])
  }

  function AndClauses(f: Filter): seq<Clause> {
    if AndConditions(f) != [] then [AND(AndConditions(f))] else []
  }

  function BuildListingWhere(f: Filter): Where {
    Where(SearchClauses(f) + StateClauses(f) + OriginClauses(f) + ListClauses(f) + AndClauses(f))
  }

  // ---- What the filter means --------------------------------------------------------------------------

  /** A moment lies in the window the two optional bounds span. */
  predicate InWindow(after: Option<int>, before: Option<int>, t: int) {
    (after.Some? ==> after.value <= t) && (before.Some? ==> t <= before.value)
  }

  /** Some moment of the interval lies in the window. */
  ghost predicate Overlaps(i: Interval, after: Option<int>, before: Option<int>) {
    exists t: int :: i.start <= t <= i.end && InWindow(after, before, t)
  }

  /** The interval does not end before the window opens nor start after it closes. */
  predicate Meets(i: Interval, after: Option<int>, before: Option<int>) {
    (after.Some? ==> after.value <= i.end) && (before.Some? ==> i.start <= before.value)
  }

  /** `term` is what is left of `text` without the white space around it. */
  ghost predicate Trimmed(text: string, term: string) {
    exists before, after :: SpacedOut(text, before, term, after)
  }

  ghost predicate SpacedOut(text: string, before: string, term: string, after: string) {
    && text == before + term + after
    && (forall c :: c in before + after ==> Slugs.IsSpace(c))
    && (term != "" ==> !Slugs.IsSpace(term[0]) && !Slugs.IsSpace(term[|term| - 1]))
  }

  /** A listing mentions the term in one of its three texts. */
  ghost predicate Mentions(fold: char -> string, row: Row, term: string) {
    exists text :: Contains(fold, text, term) && (text == row.title || Some(text) == row.summary || text == row.content)
  }

  predicate WellFormed(i: Interval) {
    i.start <= i.end
  }

  /** The direct reading of a filter, clause by clause; an unset or empty field asks nothing. */
  ghost predicate Matches(fold: char -> string, f: Filter, row: Row) {
    && (f.search.Some? && f.search.value != "" ==>
          exists term :: Trimmed(f.search.value, term) && Mentions(fold, row, term))
    && (f.status.Some? ==> row.status == f.status.value)
    && (f.moderationStatus.Some? ==> row.moderationStatus == f.moderationStatus.value)
    && (f.visibility.Some? ==> row.visibility == f.visibility.value)
    && (f.sourceType.Some? ==> row.sourceType == f.sourceType.value)
    && (f.isFeatured.Some? ==> row.isFeatured == f.isFeatured.value)
    && (f.languageCodes.Some? && f.languageCodes.value != [] ==>
          exists c :: row.languageCode == Some(c) && c in f.languageCodes.value)
    && (f.cityIds.Some? && f.cityIds.value != [] ==> exists x :: x in row.cityIds && x in f.cityIds.value)
    && (f.categoryIds.Some? && f.categoryIds.value != [] ==>
          exists x :: x in row.categoryIds && x in f.categoryIds.value)
    && (f.publishAfter.Some? || f.publishBefore.Some? ==>
          exists t :: row.publishAt == Some(t) && InWindow(f.publishAfter, f.publishBefore, t))
    && (f.upcomingAfter.Some? || f.upcomingBefore.Some? ==> Upcoming(f, row))
  }

  /** The event starts in the window, or some interval neither ends before it opens nor starts after it closes. */
  ghost predicate Upcoming(f: Filter, row: Row) {
    || (exists t :: row.eventStart == Some(t) && InWindow(f.upcomingAfter, f.upcomingBefore, t))
    || exists i :: i in row.timeIntervals && Meets(i, f.upcomingAfter, f.upcomingBefore)
  }

  predicate WindowOpen(f: Filter) {
    f.upcomingAfter.Some? && f.upcomingBefore.Some? ==> f.upcomingAfter.value <= f.upcomingBefore.value
  }

  /** The compiled interval arm is overlap with the window, except on a reversed interval or window. */
  lemma {:induction false} ArmIsOverlap(f: Filter, i: Interval)
    ensures Overlaps(i, f.upcomingAfter, f.upcomingBefore) <==>
              IntervalPasses(UpcomingIntervalFilter(f), i) && WellFormed(i) && WindowOpen(f)
  {
    if IntervalPasses(UpcomingIntervalFilter(f), i) && WellFormed(i) && WindowOpen(f) {
      var t := if f.upcomingAfter.Some? && i.start < f.upcomingAfter.value then f.upcomingAfter.value else i.start;
      assert i.start <= t <= i.end && InWindow(f.upcomingAfter, f.upcomingBefore, t);
    }
  }

  lemma {:induction false} HoldsSplit(fold: char -> string, a: seq<Clause>, b: seq<Clause>, row: Row)
    ensures Holds(fold, Where(a + b), row) <==> Holds(fold, Where(a), row) && Holds(fold, Where(b), row)
  {
  }

  lemma {:induction false} HoldsOne(fold: char -> string, c: Clause, row: Row)
    ensures Holds(fold, Where([c]), row) <==> ClauseHolds(fold, c, row)
    ensures Holds(fold, Where([]), row)
  {
  }

  lemma {:induction false} TrimStartTrims(s: string) returns (before: string)
    ensures s == before + Slugs.TrimStart(s)
    ensures forall c :: c in before ==> Slugs.IsSpace(c)
    ensures Slugs.TrimStart(s) != "" ==> !Slugs.IsSpace(Slugs.TrimStart(s)[0])
  {
    before := "";
    if s != "" && Slugs.IsSpace(s[0]) {
      before := TrimStartTrims(s[1..]);
      assert s == [s[0]] + s[1..];
      before := [s[0]] + before;
    }
  }

  lemma {:induction false} TrimEndTrims(s: string) returns (after: string)
    ensures s == Slugs.TrimEnd(s) + after
    ensures forall c :: c in after ==> Slugs.IsSpace(c)
    ensures var t := Slugs.TrimEnd(s); t != "" ==> !Slugs.IsSpace(t[|t| - 1]) && t[0] == s[0]
  {
    after := "";
    if s != "" && Slugs.IsSpace(s[|s| - 1]) {
      after := TrimEndTrims(s[..|s| - 1]);
      assert s == s[..|s| - 1] + [s[|s| - 1]];
      after := after + [s[|s| - 1]];
    }
  }

  /** Trimming takes the white space at both ends and nothing else. */
  lemma {:induction false} TrimTrims(s: string)
    ensures Trimmed(s, Trim(s))
  {
    var before := TrimStartTrims(s);
    var after := TrimEndTrims(Slugs.TrimStart(s));
    assert s == before + Trim(s) + after;
    assert SpacedOut(s, before, Trim(s), after);
  }

  lemma {:induction false} OutsideIsSpace(text: string, before: string, term: string, after: string, k: nat)
    requires SpacedOut(text, before, term, after) && k < |text|
    requires k < |before| || |before| + |term| <= k
    ensures Slugs.IsSpace(text[k])
  {
    assert text[k] in before + after by {
      if k < |before| {
        assert text[k] == (before + after)[k];
      } else {
        assert text[k] == (before + after)[k - |term|];
      }
    }
  }

  lemma {:induction false} OthersAreInside(text: string, before: string, term: string, after: string, k: nat)
    requires SpacedOut(text, before, term, after) && k < |text| && !Slugs.IsSpace(text[k])
    ensures |before| <= k < |before| + |term|
  {
    if k < |before| || |before| + |term| <= k { OutsideIsSpace(text, before, term, after, k); }
  }

  lemma {:induction false} EndsInside(text: string, b0: string, b: string, b1: string,
      a0: string, a: string, a1: string)
    requires SpacedOut(text, a0, a, a1) && SpacedOut(text, b0, b, b1) && b != ""
    ensures |a0| <= |b0| && |b0| + |b| <= |a0| + |a|
  {
    assert text[|b0|] == b[0] && text[|b0| + |b| - 1] == b[|b| - 1];
    OthersAreInside(text, a0, a, a1, |b0|);
    OthersAreInside(text, a0, a, a1, |b0| + |b| - 1);
  }

  /** There is only one way to trim a text. */
  lemma {:induction false} TrimmedOnce(text: string, a: string, b: string)
    requires Trimmed(text, a) && Trimmed(text, b)
    ensures a == b
  {
    var a0, a1 :| SpacedOut(text, a0, a, a1);
    var b0, b1 :| SpacedOut(text, b0, b, b1);
    if b != "" { EndsInside(text, b0, b, b1, a0, a, a1); }
    if a != "" { EndsInside(text, a0, a, a1, b0, b, b1); }
    assert a == text[|a0|..|a0| + |a|] && b == text[|b0|..|b0| + |b|];
  }

  /** `t` is `p` with something before and after it. */
  ghost predicate StandsIn(t: string, p: string) {
    exists a, b :: t == a + p + b
  }

  /** Containment, spelt out: the folded term stands somewhere in the folded text. */
  lemma {:induction false} ContainsMeans(fold: char -> string, text: string, term: string)
    ensures Contains(fold, text, term) <==>
              StandsIn(Slugs.ToLowerCase(fold, text), Slugs.ToLowerCase(fold, term))
  {
    IncludesMeans(Slugs.ToLowerCase(fold, text), Slugs.ToLowerCase(fold, term));
  }

  lemma {:induction false} IncludesMeans(t: string, p: string)
    ensures Includes(t, p) <==> StandsIn(t, p)
  {
    if i :| 0 <= i <= |t| && p <= t[i..] {
      assert t == t[..i] + p + t[i + |p|..];
    }
    if a, b :| t == a + p + b {
      StandsAt(t, a, p, b);
    }
  }

  lemma {:induction false} StandsAt(t: string, a: string, p: string, b: string)
    requires t == a + p + b
    ensures |a| <= |t| && p <= t[|a|..]
  {
    assert t[|a|..] == p + b;
  }

  lemma {:induction false} SearchMeans(fold: char -> string, f: Filter, row: Row)
    requires f.search.Some? && f.search.value != ""
    ensures Holds(fold, Where(SearchClauses(f)), row) <==>
              exists term :: Trimmed(f.search.value, term) && Mentions(fold, row, term)
  {
    var term := Trim(f.search.value);
    TrimTrims(f.search.value);
    SearchTermMeans(fold, f, row, term);
    forall other | Trimmed(f.search.value, other) ensures other == term { TrimmedOnce(f.search.value, term, other); }
  }

  lemma {:induction false} SearchTermMeans(fold: char -> string, f: Filter, row: Row, term: string)
    requires f.search.Some? && f.search.value != "" && term == Trim(f.search.value)
    ensures Holds(fold, Where(SearchClauses(f)), row) <==> Mentions(fold, row, term)
  {
    var ws := [Where([Title(term)]), Where([Summary(term)]), Where([Content(term)])];
    HoldsOne(fold, OR(ws), row);
    HoldsOne(fold, Title(term), row);
    HoldsOne(fold, Summary(term), row);
    HoldsOne(fold, Content(term), row);
    assert ws[0] in ws && ws[1] in ws && ws[2] in ws;
    assert forall w :: w in ws ==> w == ws[0] || w == ws[1] || w == ws[2];
  }

  lemma {:induction false} UpcomingMeans(fold: char -> string, f: Filter, row: Row)
    ensures Upcoming(f, row) <==>
              ClauseHolds(fold, OR([Where([EventStart(DateFilter(f.upcomingAfter, f.upcomingBefore))]),
                                    Where([SomeInterval(UpcomingIntervalFilter(f))])]), row)
    ensures Upcoming(f, row) <==>
              || (row.eventStart.Some?
                  && (f.upcomingAfter.Some? ==> f.upcomingAfter.value <= row.eventStart.value)
                  && (f.upcomingBefore.Some? ==> row.eventStart.value <= f.upcomingBefore.value))
              || exists i :: i in row.timeIntervals
                  && (f.upcomingAfter.Some? ==> f.upcomingAfter.value <= i.end)
                  && (f.upcomingBefore.Some? ==> i.start <= f.upcomingBefore.value)
  {
    var event := EventStart(DateFilter(f.upcomingAfter, f.upcomingBefore));
    var interval := SomeInterval(UpcomingIntervalFilter(f));
    var ws := [Where([event]), Where([interval])];
    HoldsOne(fold, event, row);
    HoldsOne(fold, interval, row);
    assert ws[0] in ws && ws[1] in ws;
    assert forall w :: w in ws ==> w == ws[0] || w == ws[1];
  }

  lemma {:induction false} AndMeans(fold: char -> string, f: Filter, row: Row)
    ensures ClauseHolds(fold, AND(AndConditions(f)), row) <==>
              && (f.publishAfter.Some? ==> row.publishAt.Some? && f.publishAfter.value <= row.publishAt.value)
              && (f.publishBefore.Some? ==> row.publishAt.Some? && row.publishAt.value <= f.publishBefore.value)
              && (f.upcomingAfter.Some? || f.upcomingBefore.Some? ==> Upcoming(f, row))
  {
    var p := PublishAt(DateFilter(f.publishAfter, f.publishBefore));
    var u := OR([Where([EventStart(DateFilter(f.upcomingAfter, f.upcomingBefore))]),
                 Where([SomeInterval(UpcomingIntervalFilter(f))])]);
    UpcomingMeans(fold, f, row);
    HoldsOne(fold, p, row);
    HoldsOne(fold, u, row);
    var ws := AndConditions(f);
    assert f.publishAfter.Some? || f.publishBefore.Some? ==> ws[0] == Where([p]) && ws[0] in ws;
    assert f.upcomingAfter.Some? || f.upcomingBefore.Some? ==> ws[|ws| - 1] == Where([u]) && ws[|ws| - 1] in ws;
    assert forall w :: w in ws ==> w == Where([p]) || w == Where([u]);
  }

  lemma {:induction false} StatesMean(fold: char -> string, f: Filter, row: Row)
    ensures Holds(fold, Where(StateClauses(f)), row) <==>
              && (f.status.Some? ==> row.status == f.status.value)
              && (f.moderationStatus.Some? ==> row.moderationStatus == f.moderationStatus.value)
              && (f.visibility.Some? ==> row.visibility == f.visibility.value)
  {
    var cs := StateClauses(f);
    assert f.status.Some? ==> Status(f.status.value) in cs;
    assert f.moderationStatus.Some? ==> Moderation(f.moderationStatus.value) in cs;
    assert f.visibility.Some? ==> Visible(f.visibility.value) in cs;
  }

  lemma {:induction false} OriginsMean(fold: char -> string, f: Filter, row: Row)
    ensures Holds(fold, Where(OriginClauses(f)), row) <==>
              && (f.sourceType.Some? ==> row.sourceType == f.sourceType.value)
              && (f.isFeatured.Some? ==> row.isFeatured == f.isFeatured.value)
  {
    var cs := OriginClauses(f);
    assert f.sourceType.Some? ==> Source(f.sourceType.value) in cs;
    assert f.isFeatured.Some? ==> Featured(f.isFeatured.value) in cs;
  }

  lemma {:induction false} ListsMean(fold: char -> string, f: Filter, row: Row)
    ensures Holds(fold, Where(ListClauses(f)), row) <==>
              && (f.languageCodes.Some? && f.languageCodes.value != [] ==>
                    exists c :: row.languageCode == Some(c) && c in f.languageCodes.value)
              && (f.cityIds.Some? && f.cityIds.value != [] ==>
                    exists x :: x in row.cityIds && x in f.cityIds.value)
              && (f.categoryIds.Some? && f.categoryIds.value != [] ==>
                    exists x :: x in row.categoryIds && x in f.categoryIds.value)
  {
    var cs := ListClauses(f);
    assert Given(f.languageCodes) ==> Language(f.languageCodes.value) in cs;
    assert Given(f.cityIds) ==> SomeCity(f.cityIds.value) in cs;
    assert Given(f.categoryIds) ==> SomeCategory(f.categoryIds.value) in cs;
  }

  /** Compilation preserves meaning: the tree selects exactly the rows the filter describes. */
  lemma {:induction false} CompilationPreservesMeaning(fold: char -> string, f: Filter, row: Row)
    ensures Holds(fold, BuildListingWhere(f), row) <==> Matches(fold, f, row)
  {
    PartsHold(fold, f, row);
    if f.search.Some? && f.search.value != "" { SearchMeans(fold, f, row); }
    StatesMean(fold, f, row);
    OriginsMean(fold, f, row);
    ListsMean(fold, f, row);
    AndMeans(fold, f, row);
  }

  /** The tree holds when each of its five groups of clauses does. */
  lemma {:induction false} PartsHold(fold: char -> string, f: Filter, row: Row)
    ensures Holds(fold, BuildListingWhere(f), row) <==>
              && Holds(fold, Where(SearchClauses(f)), row)
              && Holds(fold, Where(StateClauses(f)), row)
              && Holds(fold, Where(OriginClauses(f)), row)
              && Holds(fold, Where(ListClauses(f)), row)
              && (AndConditions(f) != [] ==> ClauseHolds(fold, AND(AndConditions(f)), row))
  {
    var search, states, origins := SearchClauses(f), StateClauses(f), OriginClauses(f);
    var lists, ands := ListClauses(f), AndClauses(f);
    HoldsSplit(fold, search, states, row);
    HoldsSplit(fold, search + states, origins, row);
    HoldsSplit(fold, search + states + origins, lists, row);
    HoldsSplit(fold, search + states + origins + lists, ands, row);
    HoldsOne(fold, AND(AndConditions(f)), row);
  }

  /** Over intervals and a window that do not run backwards, "meets" is "overlaps". */
  lemma {:induction false} UpcomingIsOverlap(f: Filter, row: Row)
    requires WindowOpen(f) && forall i :: i in row.timeIntervals ==> WellFormed(i)
    ensures Upcoming(f, row) <==>
              || (exists t :: row.eventStart == Some(t) && InWindow(f.upcomingAfter, f.upcomingBefore, t))
              || exists i :: i in row.timeIntervals && Overlaps(i, f.upcomingAfter, f.upcomingBefore)
  {
    forall i | i in row.timeIntervals
      ensures Meets(i, f.upcomingAfter, f.upcomingBefore) <==> Overlaps(i, f.upcomingAfter, f.upcomingBefore)
    {
      ArmIsOverlap(f, i);
    }
  }

  // ---- Paging ---------------------------------------------------------------------------------------

  datatype PageMeta = PageMeta(page: nat, pageSize: nat, total: nat, totalPages: nat)

  function EffectivePage(page: Option<int>): (p: nat)
    ensures p > 0
  {
    if page.Some? && page.value > 0 then page.value else 1
  }

  function EffectiveSize(pageSize: Option<int>): (s: nat)
    ensures 0 < s <= 100
  {
    var candidate := if pageSize.Some? && pageSize.value > 0 then pageSize.value else 20;
    if candidate < 100 then candidate else 100
  }

  function TotalPages(total: nat, pageSize: nat): nat
    requires pageSize > 0
  {
    var n := CeilDiv(total, pageSize);
    if n > 1 then n else 1
  }

  /** The rows the where-tree lets through, in table order. */
  function Select(fold: char -> string, w: Where, table: seq<Row>): seq<Row> {
    if table == [] then []
    else (if Holds(fold, w, table[0]) then [table[0]] else []) + Select(fold, w, table[1..])
  }

  /** The database's `skip` and `take`. */
  function Slice(rows: seq<Row>, skip: nat, take: nat): seq<Row> {
    var from := if skip < |rows| then skip else |rows|;
    var to := if skip + take < |rows| then skip + take else |rows|;
    rows[from..to]
  }

  /** One page of the selected rows. */
  function PageOf(rows: seq<Row>, page: Option<int>, pageSize: Option<int>): (r: (seq<Row>, PageMeta)) {
    var p, size := EffectivePage(page), EffectiveSize(pageSize);
    MulMonotone(0, p - 1, size);
    (Slice(rows, (p - 1) * size, size), PageMeta(p, size, |rows|, TotalPages(|rows|, size)))
  }

  function ListListings(fold: char -> string, table: seq<Row>, f: Filter, page: Option<int>, pageSize: Option<int>)
    : (r: (seq<Row>, PageMeta))
  {
    PageOf(Select(fold, BuildListingWhere(f), table), page, pageSize)
  }

  /** The items of pages 1 to `n`, one after the other. */
  function FirstPages(rows: seq<Row>, n: nat, pageSize: Option<int>): seq<Row> {
    if n == 0 then [] else FirstPages(rows, n - 1, pageSize) + PageOf(rows, Some(n), pageSize).0
  }

  lemma {:induction false} FirstPagesArePrefix(rows: seq<Row>, n: nat, pageSize: Option<int>)
    ensures n * EffectiveSize(pageSize) >= 0
    ensures FirstPages(rows, n, pageSize) == Slice(rows, 0, n * EffectiveSize(pageSize))
  {
    var size := EffectiveSize(pageSize);
    MulMonotone(0, n, size);
    if n > 0 {
      FirstPagesArePrefix(rows, n - 1, pageSize);
      assert n * size == (n - 1) * size + size;
      SliceAppend(rows, (n - 1) * size, size);
    }
  }

  lemma {:induction false} SliceAppend(rows: seq<Row>, skip: nat, take: nat)
    ensures Slice(rows, 0, skip) + Slice(rows, skip, take) == Slice(rows, 0, skip + take)
  {
  }

  /** Pages 1 to `totalPages` are the whole selection, each row where it belongs and once. */
  lemma {:induction false} PagesCoverSelection(rows: seq<Row>, pageSize: Option<int>)
    ensures FirstPages(rows, TotalPages(|rows|, EffectiveSize(pageSize)), pageSize) == rows
  {
    var size := EffectiveSize(pageSize);
    var n := TotalPages(|rows|, size);
    FirstPagesArePrefix(rows, n, pageSize);
    CeilDivLeast(|rows|, size, n);
    assert Slice(rows, 0, n * size) == rows;
  }

  lemma {:induction false} SliceNonempty(rows: seq<Row>, skip: nat, take: nat)
    requires take > 0
    ensures Slice(rows, skip, take) != [] <==> skip < |rows|
  {
  }

  /** No page up to `totalPages` is empty unless nothing is selected; every later page is. */
  lemma {:induction false} PagesAreNeeded(rows: seq<Row>, page: Option<int>, pageSize: Option<int>)
    ensures PageOf(rows, page, pageSize).0 != [] <==>
        rows != [] && EffectivePage(page) <= PageOf(rows, page, pageSize).1.totalPages
  {
    var p, size := EffectivePage(page), EffectiveSize(pageSize);
    MulMonotone(0, p - 1, size);
    SliceNonempty(rows, (p - 1) * size, size);
    CeilDivLeast(|rows|, size, p - 1);
    CeilDivLeast(|rows|, size, 0);
  }

  lemma {:induction false} SelectIsFilter(fold: char -> string, w: Where, table: seq<Row>, row: Row)
    ensures multiset(Select(fold, w, table))[row] == if Holds(fold, w, row) then multiset(table)[row] else 0
  {
    if table != [] {
      assert table == [table[0]] + table[1..];
      SelectIsFilter(fold, w, table[1..], row);
    }
  }

  /** Read through: all pages together show each matching row as often as the table holds it, and no other. */
  lemma {:induction false} PagesShowMatches(fold: char -> string, table: seq<Row>, f: Filter, pageSize: Option<int>,
      row: Row)
    ensures var rows := Select(fold, BuildListingWhere(f), table);
            var n := ListListings(fold, table, f, Some(1), pageSize).1.totalPages;
            multiset(FirstPages(rows, n, pageSize))[row] == if Matches(fold, f, row) then multiset(table)[row] else 0
  {
    PagesCoverSelection(Select(fold, BuildListingWhere(f), table), pageSize);
    SelectIsFilter(fold, BuildListingWhere(f), table, row);
    CompilationPreservesMeaning(fold, f, row);
  }

  /** Pages count from 1 and hold 20 rows unless asked otherwise, and never more than 100. */
  lemma {:induction false} PagingDefaults(asked: int)
    ensures EffectivePage(None) == 1 && EffectivePage(Some(asked)) == if asked >= 1 then asked else 1
    ensures EffectiveSize(None) == 20
    ensures asked <= 0 ==> EffectiveSize(Some(asked)) == 20
    ensures 1 <= asked <= 100 ==> EffectiveSize(Some(asked)) == asked
    ensures asked > 100 ==> EffectiveSize(Some(asked)) == 100
  {
  }

  /** `at` are the places of the rows the where-tree lets through. */
  ghost predicate HoldsAt(fold: char -> string, w: Where, table: seq<Row>, at: seq<nat>) {
    forall i: nat :: i in at <==> i < |table| && Holds(fold, w, table[i])
  }

  lemma {:induction false} HoldsAtPrepend(fold: char -> string, w: Where, table: seq<Row>, rest: seq<nat>)
    requires table != [] && HoldsAt(fold, w, table[1..], rest)
    ensures HoldsAt(fold, w, table, if Holds(fold, w, table[0]) then [0] + Shifted(rest) else Shifted(rest))
  {
  }

  lemma {:induction false} SelectFirst(fold: char -> string, w: Where, table: seq<Row>, rest: seq<nat>)
    requires table != [] && Picks(table[1..], rest, Select(fold, w, table[1..]))
    ensures Picks(table, if Holds(fold, w, table[0]) then [0] + Shifted(rest) else Shifted(rest),
                  Select(fold, w, table))
  {
    PicksPrepend(table[0], table[1..], rest, Select(fold, w, table[1..]));
    assert [table[0]] + table[1..] == table;
  }

  /** The selection, by the places of the rows let through; they increase, so table order is kept. */
  lemma {:induction false} SelectPicks(fold: char -> string, w: Where, table: seq<Row>) returns (at: seq<nat>)
    ensures Picks(table, at, Select(fold, w, table)) && HoldsAt(fold, w, table, at)
  {
    at := [];
    if table != [] {
      var rest := SelectPicks(fold, w, table[1..]);
      SelectFirst(fold, w, table, rest);
      HoldsAtPrepend(fold, w, table, rest);
      at := if Holds(fold, w, table[0]) then [0] + Shifted(rest) else Shifted(rest);
    }
  }

  /** Page and size as defaulted, all that is selected, and the least number of pages that hold it, one at least. */
  ghost predicate Counts(meta: PageMeta, page: Option<int>, pageSize: Option<int>, total: nat) {
    && meta.page == EffectivePage(page) && meta.pageSize == EffectiveSize(pageSize) && meta.total == total
    && (total == 0 ==> meta.totalPages == 1)
    && (total > 0 ==>
          meta.totalPages > 0 && (meta.totalPages - 1) * meta.pageSize < total <= meta.totalPages * meta.pageSize)
  }

  lemma {:induction false} PageCounts(rows: seq<Row>, page: Option<int>, pageSize: Option<int>)
    ensures Counts(PageOf(rows, page, pageSize).1, page, pageSize, |rows|)
  {
    var size := EffectiveSize(pageSize);
    CeilDivLeast(|rows|, size, 0);
    CeilDivLeast(|rows|, size, CeilDiv(|rows|, size));
    if |rows| > 0 { CeilDivLeast(|rows|, size, CeilDiv(|rows|, size) - 1); }
  }

  /** `items` are the rows at the places `at[skip]`, `at[skip + 1]` and so on, `take` of them or all that are left. */
  ghost predicate ShowsFrom(table: seq<Row>, at: seq<nat>, items: seq<Row>, skip: int, take: nat) {
    && skip >= 0
    && |items| <= take && (|items| < take ==> |items| == if skip < |at| then |at| - skip else 0)
    && forall k :: 0 <= k < |items| ==> skip + k < |at| && at[skip + k] < |table| && items[k] == table[at[skip + k]]
  }

  lemma {:induction false} SliceShows(table: seq<Row>, at: seq<nat>, rows: seq<Row>, skip: nat, take: nat)
    requires Picks(table, at, rows)
    ensures ShowsFrom(table, at, Slice(rows, skip, take), skip, take)
  {
  }

  lemma {:induction false} PageShows(table: seq<Row>, at: seq<nat>, rows: seq<Row>, page: Option<int>,
      pageSize: Option<int>)
    requires Picks(table, at, rows)
    ensures ShowsFrom(table, at, PageOf(rows, page, pageSize).0,
                      (EffectivePage(page) - 1) * EffectiveSize(pageSize), EffectiveSize(pageSize))
  {
    MulMonotone(0, EffectivePage(page) - 1, EffectiveSize(pageSize));
    SliceShows(table, at, rows, (EffectivePage(page) - 1) * EffectiveSize(pageSize), EffectiveSize(pageSize));
  }

  /**
   * One answer of the service: the rows of the table that match, in table order, counted in full and
   * shown from the first of the page on, as far as the page and the selection reach.
   */
  lemma {:induction false} AnswerShows(fold: char -> string, table: seq<Row>, f: Filter, page: Option<int>,
      pageSize: Option<int>) returns (at: seq<nat>)
    ensures forall i, j :: 0 <= i < j < |at| ==> at[i] < at[j]
    ensures forall i: nat :: i in at <==> i < |table| && Matches(fold, f, table[i])
    ensures var (items, meta) := ListListings(fold, table, f, page, pageSize);
            && Counts(meta, page, pageSize, |at|)
            && ShowsFrom(table, at, items, (EffectivePage(page) - 1) * EffectiveSize(pageSize), EffectiveSize(pageSize))
  {
    var rows := Select(fold, BuildListingWhere(f), table);
    at := SelectPicks(fold, BuildListingWhere(f), table);
    forall i: nat
      ensures i in at <==> i < |table| && Matches(fold, f, table[i])
    {
      if i < |table| { CompilationPreservesMeaning(fold, f, table[i]); }
    }
    PageCounts(rows, page, pageSize);
    PageShows(table, at, rows, page, pageSize);
  }
}
