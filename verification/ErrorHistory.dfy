/**
 * The error reporting service: a bounded history, and the metrics and trends computed from the part
 * of it inside a time window. Timestamps are milliseconds.
 */
module ErrorHistory {
  import opened Common
  import opened Grouping
  import opened Sorting

  datatype ErrorReport = ErrorReport(id: string, timestamp: int, errorCode: string, severity: string,
                                     service: string, message: string)

  const MAX_HISTORY_SIZE: nat := 1000
  const DAY: int := 24 * 60 * 60 * 1000
  const HOUR: int := 60 * 60 * 1000

  /** The last `n` elements, or all of them. */
  function LastN<T>(s: seq<T>, n: nat): seq<T> {
    if |s| <= n then s else s[|s| - n..]
  }

  /** The reports inside a window, in history order. */
  function Since(history: seq<ErrorReport>, start: int): seq<ErrorReport> {
    if history == [] then []
    else
      var last := history[|history| - 1];
      Since(history[..|history| - 1], start) + if last.timestamp > start then [last] else []
  }

  /** A missing or zero window means "from the epoch on". */
  function MetricsStart(now: int, timeWindow: Option<int>): int {
    if timeWindow.Some? && timeWindow.value != 0 then now - timeWindow.value else 0
  }

  /** A missing window means one day; a zero window is taken as it is. */
  function TrendsStart(now: int, timeWindow: Option<int>): int {
    now - if timeWindow.Some? then timeWindow.value else DAY
  }

  datatype Count<K> = Count(key: K, count: nat)

  function CountBy<K, T>(groups: seq<Group<K, T>>): (cs: seq<Count<K>>)
    ensures |cs| == |groups|
    ensures forall i :: 0 <= i < |cs| ==> cs[i] == Count(groups[i].key, |groups[i].items|)
  {
    seq(|groups|, i requires 0 <= i < |groups| => Count(groups[i].key, |groups[i].items|))
  }

  function Sum<K>(cs: seq<Count<K>>): nat {
    if cs == [] then 0 else cs[0].count + Sum(cs[1..])
  }

  lemma {:induction false} SumIsTotal<K, T>(groups: seq<Group<K, T>>)
    ensures Sum(CountBy(groups)) == Total(groups)
  {
    if groups != [] {
      assert CountBy(groups)[1..] == CountBy(groups[1..]);
      SumIsTotal(groups[1..]);
    }
  }

  datatype TopError = TopError(code: string, count: nat, message: string)

  function TopOf(g: Group<string, ErrorReport>): TopError {
    TopError(g.key, |g.items|,
             if |g.items| > 0 && g.items[0].message != "" then g.items[0].message else "Unknown error")
  }

  function TopsOf(groups: seq<Group<string, ErrorReport>>): (ts: seq<TopError>)
    ensures |ts| == |groups| && forall i :: 0 <= i < |ts| ==> ts[i] == TopOf(groups[i])
  {
    seq(|groups|, i requires 0 <= i < |groups| => TopOf(groups[i]))
  }

  function MoreFrequent(): (TopError, TopError) -> bool {
    (a: TopError, b: TopError) => a.count >= b.count
  }

  datatype Metrics = Metrics(totalErrors: nat, errorsByCode: seq<Count<string>>, errorsBySeverity: seq<Count<string>>,
                             errorsByService: seq<Count<string>>, recentErrors: seq<ErrorReport>, errorRate: real,
                             topErrors: seq<TopError>)

  function Reverse<T>(s: seq<T>): seq<T> {
    if s == [] then [] else [s[|s| - 1]] + Reverse(s[..|s| - 1])
  }

  function CodeOf(e: ErrorReport): string { e.errorCode }

  function SeverityOf(e: ErrorReport): string { e.severity }

  function ServiceOf(e: ErrorReport): string { e.service }

  function TopTen(relevant: seq<ErrorReport>): seq<TopError> {
    var sorted := Sort(MoreFrequent(), TopsOf(GroupBy(relevant, CodeOf)));
    if |sorted| > 10 then sorted[..10] else sorted
  }

  function ErrorRate(total: nat, timeWindow: Option<int>): real {
    if timeWindow.Some? && timeWindow.value != 0
    then total as real / (timeWindow.value as real / 60000.0) else 0.0
  }

  function GetErrorMetrics(history: seq<ErrorReport>, now: int, timeWindow: Option<int>): Metrics {
    var relevant := Since(history, MetricsStart(now, timeWindow));
    Metrics(|relevant|,
            CountBy(GroupBy(relevant, CodeOf)),
            CountBy(GroupBy(relevant, SeverityOf)),
            CountBy(GroupBy(relevant, ServiceOf)),
            Reverse(LastN(relevant, 20)),
            ErrorRate(|relevant|, timeWindow),
            TopTen(relevant))
  }

  function HourOf(e: ErrorReport): int {
    e.timestamp / HOUR
  }

  /** `map.set(key, (map.get(key) || 0) + 1)` on a map that remembers insertion order. */
  function Increment<K(==)>(counts: seq<Count<K>>, key: K): seq<Count<K>> {
    if counts == [] then [Count(key, 1)]
    else if counts[0].key == key then [Count(key, counts[0].count + 1)] + counts[1..]
    else [counts[0]] + Increment(counts[1..], key)
  }

  lemma {:induction false} IncrementCountsPut<K, T>(groups: seq<Group<K, T>>, key: K, item: T)
    ensures Increment(CountBy(groups), key) == CountBy(Put(groups, key, item))
  {
    if groups == [] {
      CountByCons(Group(key, [item]), []);
    } else {
      var g, rest := groups[0], groups[1..];
      CountByCons(g, rest);
      assert groups == [g] + rest && CountBy(groups)[1..] == CountBy(rest);
      if g.key == key {
        CountByCons(Group(key, g.items + [item]), rest);
      } else {
        IncrementCountsPut(rest, key, item);
        CountByCons(g, Put(rest, key, item));
      }
    }
  }

  lemma {:induction false} CountByCons<K, T>(g: Group<K, T>, groups: seq<Group<K, T>>)
    ensures CountBy([g] + groups) == [Count(g.key, |g.items|)] + CountBy(groups)
  {
  }

  function Earlier(): (Count<int>, Count<int>) -> bool {
    (a: Count<int>, b: Count<int>) => a.key <= b.key
  }

  /** Hourly counts of these reports, by hour. */
  function Trends(relevant: seq<ErrorReport>): seq<Count<int>> {
    Sort(Earlier(), CountBy(GroupBy(relevant, HourOf)))
  }

  class ErrorReportingService {
    var errorHistory: seq<ErrorReport>

    constructor ()
      ensures errorHistory == []
    {
      errorHistory := [];
    }

    method StoreError(errorReport: ErrorReport)
      requires |errorHistory| <= MAX_HISTORY_SIZE
      modifies this
      ensures errorHistory == LastN(old(errorHistory) + [errorReport], MAX_HISTORY_SIZE)
      ensures |errorHistory| <= MAX_HISTORY_SIZE
    {
      errorHistory := errorHistory + [errorReport];
      if |errorHistory| > MAX_HISTORY_SIZE {
        errorHistory := errorHistory[|errorHistory| - MAX_HISTORY_SIZE..];
      }
    }

    method ClearErrorHistory()
      modifies this
      ensures errorHistory == []
    {
      errorHistory := [];
    }
  }

  method GetErrorTrends(history: seq<ErrorReport>, now: int, timeWindow: Option<int>) returns (trends: seq<Count<int>>)
    ensures trends == Trends(Since(history, TrendsStart(now, timeWindow)))
  {
    var relevantErrors := Since(history, TrendsStart(now, timeWindow));
    var hourlyErrors: seq<Count<int>> := [];
    for i := 0 to |relevantErrors|
      invariant hourlyErrors == CountBy(GroupBy(relevantErrors[..i], HourOf))
    {
      var hour := HourOf(relevantErrors[i]);
      assert relevantErrors[..i + 1][..i] == relevantErrors[..i];
      IncrementCountsPut(GroupBy(relevantErrors[..i], HourOf), hour, relevantErrors[i]);
      hourlyErrors := Increment(hourlyErrors, hour);
    }
    assert relevantErrors[..|relevantErrors|] == relevantErrors;
    trends := Sort(Earlier(), hourlyErrors);
  }

  // ---- The history over runs ----------------------------------------------------------------------

  datatype Op = Store(report: ErrorReport) | Clear

  function HistoryAfter(ops: seq<Op>): seq<ErrorReport> {
    if ops == [] then []
    else match ops[|ops| - 1]
      case Store(r) => LastN(HistoryAfter(ops[..|ops| - 1]) + [r], MAX_HISTORY_SIZE)
      case Clear => []
  }

  /** All reports stored since the last clear. */
  function StoredSinceClear(ops: seq<Op>): seq<ErrorReport> {
    if ops == [] then []
    else match ops[|ops| - 1]
      case Store(r) => StoredSinceClear(ops[..|ops| - 1]) + [r]
      case Clear => []
  }

  /** The history is always the last min(1000, n) of the n reports since the last clear. */
  lemma {:induction false} HistoryIsSuffix(ops: seq<Op>)
    ensures var all := StoredSinceClear(ops);
            HistoryAfter(ops) == if |all| <= 1000 then all else all[|all| - 1000..]
  {
    if ops != [] { HistoryIsSuffix(ops[..|ops| - 1]); }
  }

  /** Nothing was cleared after the first `n` operations; `n` is zero or the last clear. */
  ghost predicate ClearedLast(ops: seq<Op>, n: nat) {
    && n <= |ops| && (n > 0 ==> ops[n - 1].Clear?)
    && forall i :: n <= i < |ops| ==> ops[i].Store?
  }

  /** The reports since the last clear are those of the operations after it, one by one. */
  lemma {:induction false} StoredSinceClearIs(ops: seq<Op>) returns (n: nat)
    ensures ClearedLast(ops, n) && |StoredSinceClear(ops)| == |ops| - n
    ensures forall i :: 0 <= i < |ops| - n ==> ops[n + i] == Store(StoredSinceClear(ops)[i])
  {
    n := 0;
    if ops != [] {
      if ops[|ops| - 1].Clear? {
        n := |ops|;
      } else {
        n := StoredSinceClearIs(ops[..|ops| - 1]);
      }
    }
  }

  // ---- The window -----------------------------------------------------------------------------------

  /** `at` are the places of the reports later than `start`. */
  ghost predicate LaterAt(history: seq<ErrorReport>, start: int, at: seq<nat>) {
    forall i: nat :: i in at <==> i < |history| && history[i].timestamp > start
  }

  lemma {:induction false} LaterAtNext(history: seq<ErrorReport>, start: int, at: seq<nat>)
    requires history != [] && LaterAt(history[..|history| - 1], start, at)
    ensures LaterAt(history, start, Taken(at, |history| - 1, history[|history| - 1].timestamp > start))
  {
  }

  lemma {:induction false} SincePicksNext(history: seq<ErrorReport>, start: int, at: seq<nat>)
    requires history != [] && Picks(history[..|history| - 1], at, Since(history[..|history| - 1], start))
    ensures Picks(history, Taken(at, |history| - 1, history[|history| - 1].timestamp > start), Since(history, start))
  {
    var front, last := history[..|history| - 1], history[|history| - 1];
    assert history == front + [last];
    PicksAppend(front, last, at, Since(front, start), last.timestamp > start);
  }

  /** A window holds the reports later than its start, all of them and in their order. */
  lemma {:induction false} SincePicks(history: seq<ErrorReport>, start: int) returns (at: seq<nat>)
    ensures Picks(history, at, Since(history, start)) && LaterAt(history, start, at)
  {
    at := [];
    if history != [] {
      at := SincePicks(history[..|history| - 1], start);
      LaterAtNext(history, start, at);
      SincePicksNext(history, start, at);
      at := Taken(at, |history| - 1, history[|history| - 1].timestamp > start);
    }
  }

  /** The places of the reports later than `start` that have this key. */
  ghost function Places<K>(history: seq<ErrorReport>, start: int, key: ErrorReport -> K, k: K): set<nat> {
    set i: nat | i < |history| && history[i].timestamp > start && key(history[i]) == k
  }

  lemma {:induction false} PlacesNext<K>(history: seq<ErrorReport>, start: int, key: ErrorReport -> K, k: K)
    requires history != []
    ensures var n := |history| - 1;
            Places(history, start, key, k) ==
              Places(history[..n], start, key, k)
              + if history[n].timestamp > start && key(history[n]) == k then {n} else {}
    ensures |history| - 1 !in Places(history[..|history| - 1], start, key, k)
  {
  }

  lemma {:induction false} PlacesCount<K>(history: seq<ErrorReport>, start: int, key: ErrorReport -> K, k: K)
    ensures |WithKey(Since(history, start), key, k)| == |Places(history, start, key, k)|
  {
    if history != [] {
      var front, last := history[..|history| - 1], history[|history| - 1];
      PlacesCount(front, start, key, k);
      PlacesNext(history, start, key, k);
      WithKeyNext(Since(front, start), last, key, k);
      assert Since(history, start) ==
        if last.timestamp > start then Since(front, start) + [last] else Since(front, start);
    }
  }

  lemma {:induction false} GroupCounts<K>(history: seq<ErrorReport>, start: int, key: ErrorReport -> K, c: Count<K>)
    ensures c in CountBy(GroupBy(Since(history, start), key)) <==>
              c.count == |Places(history, start, key, c.key)| && c.count > 0
  {
    var relevant := Since(history, start);
    GroupByPartitions(relevant, key);
    CountIsFiled(GroupBy(relevant, key), c);
    PlacesCount(history, start, key, c.key);
  }

  /** From the epoch on without a window or with one of zero, and else within it. */
  ghost function WindowStart(now: int, timeWindow: Option<int>): int {
    match timeWindow
    case None => 0
    case Some(w) => if w == 0 then 0 else now - w
  }

  /** The places of the reports in the window that satisfy a condition on their text fields. */
  ghost function Having(history: seq<ErrorReport>, start: int, field: ErrorReport -> string, k: string): set<nat> {
    set i: nat | i < |history| && history[i].timestamp > start && field(history[i]) == k
  }

  /**
   * The metrics of a history: under each code, severity and service the number of its reports in the
   * window, an entry for every one that occurs and for no other.
   */
  lemma {:induction false} MetricsCount(history: seq<ErrorReport>, now: int, timeWindow: Option<int>, c: Count<string>)
    ensures var m, start := GetErrorMetrics(history, now, timeWindow), WindowStart(now, timeWindow);
            && (c in m.errorsByCode <==>
                c.count > 0 && c.count == |Having(history, start, (e: ErrorReport) => e.errorCode, c.key)|)
            && (c in m.errorsBySeverity <==>
                c.count > 0 && c.count == |Having(history, start, (e: ErrorReport) => e.severity, c.key)|)
            && (c in m.errorsByService <==>
                c.count > 0 && c.count == |Having(history, start, (e: ErrorReport) => e.service, c.key)|)
  {
    var start := WindowStart(now, timeWindow);
    assert start == MetricsStart(now, timeWindow);
    GroupCounts(history, start, CodeOf, c);
    GroupCounts(history, start, SeverityOf, c);
    GroupCounts(history, start, ServiceOf, c);
    SamePlaces(history, start, c.key);
  }

  lemma {:induction false} SamePlaces(history: seq<ErrorReport>, start: int, k: string)
    ensures Places(history, start, CodeOf, k) == Having(history, start, (e: ErrorReport) => e.errorCode, k)
    ensures Places(history, start, SeverityOf, k) == Having(history, start, (e: ErrorReport) => e.severity, k)
    ensures Places(history, start, ServiceOf, k) == Having(history, start, (e: ErrorReport) => e.service, k)
  {
  }

  /** That many errors in the window make this rate; without a window there is none. */
  ghost predicate PerMinute(rate: real, total: nat, timeWindow: Option<int>) {
    if timeWindow in {None, Some(0)} then rate == 0.0
    else rate * timeWindow.value as real == total as real * 60000.0
  }

  /** The rate is that of the window, per minute, and zero without a window. */
  lemma {:induction false} RatePerMinute(history: seq<ErrorReport>, now: int, timeWindow: Option<int>)
    ensures var m := GetErrorMetrics(history, now, timeWindow); PerMinute(m.errorRate, m.totalErrors, timeWindow)
  {
    RateIs(GetErrorMetrics(history, now, timeWindow).totalErrors, timeWindow);
  }

  lemma {:induction false} RateIs(total: nat, timeWindow: Option<int>)
    ensures PerMinute(ErrorRate(total, timeWindow), total, timeWindow)
  {
    if timeWindow.Some? && timeWindow.value != 0 { RateTimesWindow(total as real, timeWindow.value as real); }
  }

  lemma {:induction false} RateTimesWindow(n: real, w: real)
    requires w != 0.0
    ensures w / 60000.0 != 0.0 && n / (w / 60000.0) * w == n * 60000.0
  {
    var minutes := w / 60000.0;
    assert w == minutes * 60000.0;
    assert n / minutes * (minutes * 60000.0) == (n / minutes * minutes) * 60000.0;
  }

  lemma {:induction false} ReverseAt<T>(s: seq<T>, k: nat)
    requires k < |s|
    ensures |Reverse(s)| == |s| && Reverse(s)[k] == s[|s| - 1 - k]
  {
    if |s| > 1 { ReverseAt(s[..|s| - 1], if k > 0 then k - 1 else 0); }
  }

  /** The last twenty, or all, the last one first. */
  lemma {:induction false} LastReversed<T>(s: seq<T>)
    ensures |Reverse(LastN(s, 20))| == if |s| < 20 then |s| else 20
    ensures forall k :: 0 <= k < |Reverse(LastN(s, 20))| ==> Reverse(LastN(s, 20))[k] == s[|s| - 1 - k]
  {
    var last := LastN(s, 20);
    if last != [] { ReverseAt(last, 0); }
    forall k | 0 <= k < |last|
      ensures Reverse(last)[k] == s[|s| - 1 - k]
    {
      ReverseAt(last, k);
    }
  }

  /** The recent reports are the last twenty of the window, or all of it, the newest first. */
  lemma {:induction false} RecentAreLast(history: seq<ErrorReport>, now: int, timeWindow: Option<int>)
    returns (at: seq<nat>)
    ensures forall i, j :: 0 <= i < j < |at| ==> at[i] < at[j]
    ensures LaterAt(history, WindowStart(now, timeWindow), at)
    ensures var m := GetErrorMetrics(history, now, timeWindow);
            && m.totalErrors == |at|
            && |m.recentErrors| == (if |at| < 20 then |at| else 20)
            && forall k :: 0 <= k < |m.recentErrors| ==>
                 at[|at| - 1 - k] < |history| && m.recentErrors[k] == history[at[|at| - 1 - k]]
  {
    var start := MetricsStart(now, timeWindow);
    at := SincePicks(history, start);
    LastReversed(Since(history, start));
    assert GetErrorMetrics(history, now, timeWindow).recentErrors == Reverse(LastN(Since(history, start), 20));
  }

  /** The hourly counts of a history: an entry for every hour with a report in the window, with their number. */
  lemma {:induction false} TrendsCount(history: seq<ErrorReport>, now: int, timeWindow: Option<int>, t: Count<int>)
    ensures var start := now - if timeWindow.Some? then timeWindow.value else 86400000;
            t in Trends(Since(history, TrendsStart(now, timeWindow))) <==>
              t.count > 0 && t.count ==
              |set i: nat | i < |history| && history[i].timestamp > start && history[i].timestamp / 3600000 == t.key|
  {
    var start := TrendsStart(now, timeWindow);
    TrendsAreHours(Since(history, start));
    PlacesCount(history, start, HourOf, t.key);
    SameHours(history, start, t.key);
  }

  lemma {:induction false} SameHours(history: seq<ErrorReport>, start: int, k: int)
    ensures Places(history, start, HourOf, k) ==
              set i: nat | i < |history| && history[i].timestamp > start && history[i].timestamp / 3600000 == k
  {
  }

  // ---- What the metrics add up to -------------------------------------------------------------------

  lemma {:induction false} CountsSum<K>(relevant: seq<ErrorReport>, key: ErrorReport -> K)
    ensures Sum(CountBy(GroupBy(relevant, key))) == |relevant|
  {
    GroupByPartitions(relevant, key);
    SumIsTotal(GroupBy(relevant, key));
  }

  /** For each of the three keys the counts sum to the total. */
  lemma {:induction false} MetricsSum(history: seq<ErrorReport>, now: int, timeWindow: Option<int>)
    ensures var m := GetErrorMetrics(history, now, timeWindow);
            && Sum(m.errorsByCode) == m.totalErrors && Sum(m.errorsBySeverity) == m.totalErrors
            && Sum(m.errorsByService) == m.totalErrors
  {
    var relevant := Since(history, MetricsStart(now, timeWindow));
    CountsSum(relevant, CodeOf);
    CountsSum(relevant, SeverityOf);
    CountsSum(relevant, ServiceOf);
  }

  /**
   * Metrics and trends look at the same window exactly when a nonzero one is given (or the clock
   * stands at the default's length).
   */
  lemma {:induction false} SameWindowIff(now: int, timeWindow: Option<int>)
    ensures MetricsStart(now, timeWindow) == TrendsStart(now, timeWindow) <==>
              || (timeWindow.Some? && timeWindow.value != 0)
              || now == (if timeWindow.Some? then 0 else DAY)
  {
  }

  /** One old report and a window of zero: the metrics count it and the trends do not. */
  lemma {:induction false} ZeroWindowDiffers(report: ErrorReport, now: int)
    requires 0 < report.timestamp <= now
    ensures GetErrorMetrics([report], now, Some(0)).totalErrors == 1
    ensures Trends(Since([report], TrendsStart(now, Some(0)))) == []
  {
    OneReport(report, now);
    OneReport(report, 0);
    NoTrends();
  }

  lemma {:induction false} OneReport(report: ErrorReport, start: int)
    ensures Since([report], start) == if report.timestamp > start then [report] else []
  {
  }

  lemma {:induction false} NoTrends()
    ensures Trends([]) == []
  {
  }

  lemma {:induction false} SumAppend<K>(cs: seq<Count<K>>, c: Count<K>)
    ensures Sum(cs + [c]) == Sum(cs) + c.count
  {
    if cs == [] {
      assert cs + [c] == [c];
    } else {
      assert (cs + [c])[1..] == cs[1..] + [c];
      SumAppend(cs[1..], c);
    }
  }

  lemma {:induction false} SumInsert<K>(le: (Count<K>, Count<K>) -> bool, cs: seq<Count<K>>, c: Count<K>)
    ensures Sum(Insert(le, cs, c)) == Sum(cs) + c.count
  {
    if cs != [] {
      if le(cs[0], c) {
        SumInsert(le, cs[1..], c);
        assert Insert(le, cs, c)[1..] == Insert(le, cs[1..], c);
      } else {
        assert Insert(le, cs, c)[1..] == cs;
      }
    }
  }

  lemma {:induction false} SumSort<K>(le: (Count<K>, Count<K>) -> bool, cs: seq<Count<K>>)
    ensures Sum(Sort(le, cs)) == Sum(cs)
  {
    if cs != [] {
      var front, last := cs[..|cs| - 1], cs[|cs| - 1];
      assert cs == front + [last];
      SumSort(le, front);
      SumInsert(le, Sort(le, front), last);
      SumAppend(front, last);
    }
  }

  /** The hourly counts sum to the total the metrics report for the same nonzero window and clock. */
  lemma {:induction false} TrendsSumToTotal(history: seq<ErrorReport>, now: int, window: int)
    requires window != 0
    ensures Sum(Trends(Since(history, TrendsStart(now, Some(window))))) ==
        GetErrorMetrics(history, now, Some(window)).totalErrors
  {
    var relevant := Since(history, TrendsStart(now, Some(window)));
    SameWindowIff(now, Some(window));
    CountsSum(relevant, HourOf);
    SumSort(Earlier(), CountBy(GroupBy(relevant, HourOf)));
  }

  /** Every hour with a report appears once, in order, with the number of its reports. */
  lemma {:induction false} TrendsAreHours(relevant: seq<ErrorReport>)
    ensures forall t :: t in Trends(relevant) <==> t.count == |WithKey(relevant, HourOf, t.key)| && t.count > 0
    ensures forall i, j :: 0 <= i < j < |Trends(relevant)| ==> Trends(relevant)[i].key < Trends(relevant)[j].key
  {
    var groups := GroupBy(relevant, HourOf);
    GroupByPartitions(relevant, HourOf);
    SortSorts(Earlier(), CountBy(groups));
    forall t
      ensures t in CountBy(groups) <==> t.count == |WithKey(relevant, HourOf, t.key)| && t.count > 0
    {
      CountIsFiled(groups, t);
    }
    var trends := Trends(relevant);
    forall i, j | 0 <= i < j < |trends|
      ensures trends[i].key < trends[j].key
    {
      assert Earlier()(trends[i], trends[j]);
      assert trends[i] in trends && trends[j] in trends;
      if trends[i].key == trends[j].key {
        TwiceInMultiset(trends, i, j);
        CountsOccurOnce(groups, trends[i]);
      }
    }
  }

  lemma {:induction false} TwiceInMultiset<T>(s: seq<T>, i: nat, j: nat)
    requires i < j < |s| && s[i] == s[j]
    ensures multiset(s)[s[i]] >= 2
  {
    assert s == s[..j] + s[j..] && s[i] in s[..j] && s[j] in s[j..];
  }

  lemma {:induction false} CountsOccurOnce<K, T>(groups: seq<Group<K, T>>, t: Count<K>)
    requires DistinctKeys(groups)
    ensures multiset(CountBy(groups))[t] <= if t.key in Keys(groups) then 1 else 0
  {
    if groups != [] {
      assert CountBy(groups) == [Count(groups[0].key, |groups[0].items|)] + CountBy(groups[1..]);
      CountsOccurOnce(groups[1..], t);
    }
  }

  lemma {:induction false} CountIsFiled<K, T>(groups: seq<Group<K, T>>, t: Count<K>)
    requires DistinctKeys(groups) && NoneEmpty(groups)
    ensures t in CountBy(groups) <==> t.count == |ItemsOf(groups, t.key)| && t.count > 0
  {
    if groups != [] {
      assert CountBy(groups) == [CountBy(groups)[0]] + CountBy(groups[1..]);
      CountIsFiled(groups[1..], t);
      if groups[0].key == t.key && ItemsOf(groups[1..], t.key) != [] { KeyOfItems(groups[1..], t.key); }
    }
  }

  lemma {:induction false} KeyOfItems<K, T>(groups: seq<Group<K, T>>, k: K)
    requires ItemsOf(groups, k) != []
    ensures k in Keys(groups)
  {
    if groups[0].key != k { KeyOfItems(groups[1..], k); }
  }

  /** Reports with this code inside the window. */
  function Occurrences(relevant: seq<ErrorReport>, code: string): nat {
    |WithKey(relevant, CodeOf, code)|
  }

  lemma {:induction false} TopsAreCounts(relevant: seq<ErrorReport>)
    ensures var tops := TopsOf(GroupBy(relevant, CodeOf));
            && (forall t :: t in tops ==> t.count == Occurrences(relevant, t.code) && t.count > 0)
            && forall e :: e in relevant ==> exists t :: t in tops && t.code == e.errorCode
  {
    var groups := GroupBy(relevant, CodeOf);
    var tops := TopsOf(groups);
    GroupByPartitions(relevant, CodeOf);
    forall t | t in tops
      ensures t.count == Occurrences(relevant, t.code) && t.count > 0
    {
      var i :| 0 <= i < |tops| && tops[i] == t;
      GroupIsFiled(groups, groups[i]);
    }
    forall e | e in relevant
      ensures exists t :: t in tops && t.code == e.errorCode
    {
      WithKeyMember(relevant, CodeOf, e.errorCode, e);
      KeyHasGroup(groups, e.errorCode);
      var i :| 0 <= i < |groups| && groups[i] == Group(e.errorCode, ItemsOf(groups, e.errorCode));
      assert tops[i] in tops;
    }
  }

  ghost predicate Shows(tops: seq<TopError>, code: string) {
    exists t :: t in tops && t.code == code
  }

  /**
   * The top list is sorted, gives true counts, has at most ten entries, and no code it leaves out
   * occurs more often than one it shows; it leaves none out unless it is full.
   */
  lemma {:induction false} TopTenIsTop(relevant: seq<ErrorReport>)
    ensures Sorted(MoreFrequent(), TopTen(relevant)) && |TopTen(relevant)| <= 10
    ensures forall t :: t in TopTen(relevant) ==> t.count == Occurrences(relevant, t.code) && t.count > 0
    ensures forall e, t | e in relevant && t in TopTen(relevant) ::
              !Shows(TopTen(relevant), e.errorCode) ==> Occurrences(relevant, e.errorCode) <= t.count
    ensures |TopTen(relevant)| < 10 ==> forall e :: e in relevant ==> Shows(TopTen(relevant), e.errorCode)
  {
    var tops := TopsOf(GroupBy(relevant, CodeOf));
    var sorted, top := Sort(MoreFrequent(), tops), TopTen(relevant);
    TopsAreCounts(relevant);
    SortSorts(MoreFrequent(), tops);
    assert top <= sorted;
    forall e, t | e in relevant && t in top && !Shows(top, e.errorCode)
      ensures Occurrences(relevant, e.errorCode) <= t.count
    {
      var u :| u in tops && u.code == e.errorCode;
      LeftOutIsRarer(sorted, top, t, u);
    }
  }

  /** An entry of the top list carries the message of the first report with its code, if that has one. */
  lemma {:induction false} TopMessage(relevant: seq<ErrorReport>, t: TopError) returns (first: nat)
    requires t in TopTen(relevant)
    ensures first < |relevant| && relevant[first].errorCode == t.code
    ensures forall i :: 0 <= i < first ==> relevant[i].errorCode != t.code
    ensures t.message == if relevant[first].message == "" then "Unknown error" else relevant[first].message
  {
    var groups := GroupBy(relevant, CodeOf);
    SortSorts(MoreFrequent(), TopsOf(groups));
    assert t in Sort(MoreFrequent(), TopsOf(groups));
    var k :| 0 <= k < |groups| && TopsOf(groups)[k] == t;
    GroupByPartitions(relevant, CodeOf);
    GroupIsFiled(groups, groups[k]);
    var at := WithKeyPicks(relevant, CodeOf, t.code);
    KeyNonempty(groups, groups[k]);
    first := at[0];
    assert at[0] in at;
    assert forall j :: 0 <= j < |at| ==> at[0] <= at[j];
    assert forall i: nat :: i < first ==> i !in at;
  }

  lemma {:induction false} KeyNonempty<K, T>(groups: seq<Group<K, T>>, g: Group<K, T>)
    requires NoneEmpty(groups) && g in groups
    ensures g.items != []
  {
    if groups[0] != g { KeyNonempty(groups[1..], g); }
  }

  /** Codes of the same frequency stand in the order in which they first appear. */
  lemma {:induction false} TopTiesKeepOrder(relevant: seq<ErrorReport>, i: nat, j: nat)
    requires i < j < |TopTen(relevant)| && TopTen(relevant)[i].count == TopTen(relevant)[j].count
    ensures AppearsBefore(relevant, CodeOf, TopTen(relevant)[i].code, TopTen(relevant)[j].code)
  {
    var groups := GroupBy(relevant, CodeOf);
    var p, q := SortStable(MoreFrequent(), TopsOf(groups), i, j);
    GroupsInAppearance(relevant, CodeOf);
    KeysAt(groups, p);
    KeysAt(groups, q);
  }

  lemma {:induction false} LeftOutIsRarer(sorted: seq<TopError>, top: seq<TopError>, t: TopError, u: TopError)
    requires Sorted(MoreFrequent(), sorted) && top <= sorted && t in top && u in sorted && !Shows(top, u.code)
    ensures u.count <= t.count
  {
  }
}
