/**
 * The monitoring service's alerts: a cooldown per rule, an append-only history that shares its alert
 * objects with a map by id, and resolution in place. The clock is read several times per check and
 * never goes back. Times are milliseconds.
 */
module Alerts {
  import opened Common
  import Arithmetic
  import Decimal

  datatype RuleData = RuleData(id: string, cooldown: nat, last: Option<nat>)

  datatype AlertData = AlertData(id: string, ruleId: string, idTime: nat, timestamp: nat, resolvedAt: Option<nat>)

  datatype State = State(rules: seq<RuleData>, alerts: seq<AlertData>, now: nat)

  function AlertId(ruleId: string, time: nat): string {
    "alert_" + ruleId + ("_" + Decimal.Print(time))
  }

  /** The clock readings of one turn of `checkAlerts`: cooldown test, alert id, timestamp, last trigger. */
  datatype Readings = Readings(test: nat, idTime: nat, timestamp: nat, last: nat)

  datatype Event = Check(rule: nat, fires: bool, at: Readings) | Resolve(alertId: string, time: nat)

  ghost predicate Legal(s: State, e: Event) {
    match e
    case Check(k, _, at) => k < |s.rules| && s.now <= at.test <= at.idTime <= at.timestamp <= at.last
    case Resolve(_, t) => s.now <= t
  }

  predicate CoolingDown(r: RuleData, now: nat) {
    r.last.Some? && now < r.last.value + r.cooldown
  }

  predicate Triggers(s: State, e: Event) {
    e.Check? && e.rule < |s.rules| && !CoolingDown(s.rules[e.rule], e.at.test) && e.fires
  }

  function Raise(s: State, e: Event): State
    requires e.Check? && e.rule < |s.rules|
  {
    var rule := s.rules[e.rule];
    State(s.rules[e.rule := rule.(last := Some(e.at.last))],
          s.alerts + [AlertData(AlertId(rule.id, e.at.idTime), rule.id, e.at.idTime, e.at.timestamp, None)],
          e.at.last)
  }

  predicate Resolves(s: State, e: Event) {
    e.Resolve? && exists i | 0 <= i < |s.alerts| :: s.alerts[i].id == e.alertId && s.alerts[i].resolvedAt.None?
  }

  function ResolveIn(a: AlertData, id: string, time: nat): AlertData {
    if a.id == id && a.resolvedAt.None? then a.(resolvedAt := Some(time)) else a
  }

  function Step(s: State, e: Event): State {
    match e
    case Check(_, _, at) => if Triggers(s, e) then Raise(s, e) else s.(now := at.last)
    case Resolve(id, t) =>
      s.(alerts := seq(|s.alerts|, i requires 0 <= i < |s.alerts| => ResolveIn(s.alerts[i], id, t)), now := t)
  }

  // ---- What one event comes to ------------------------------------------------------------------------

  /**
   * A check whose condition holds raises its rule's alert if and only if the rule never fired or its
   * cooldown has passed; then the alert is the last of the history and the rule is stamped, and
   * otherwise nothing but the clock moves.
   */
  lemma {:induction false} RaisesWhenDue(s: State, e: Event)
    requires e.Check? && e.rule < |s.rules|
    ensures var rule, s' := s.rules[e.rule], Step(s, e);
            && s'.now == e.at.last
            && if e.fires && (rule.last == None || rule.last.value + rule.cooldown <= e.at.test) then
                 && s'.alerts == s.alerts + [AlertData("alert_" + rule.id + ("_" + Decimal.Print(e.at.idTime)),
                                                       rule.id, e.at.idTime, e.at.timestamp, None)]
                 && s'.rules == s.rules[e.rule := RuleData(rule.id, rule.cooldown, Some(e.at.last))]
               else
                 s'.alerts == s.alerts && s'.rules == s.rules
  {
  }

  /** A resolution stamps the open alerts of that id and leaves all else, and their order, as it was. */
  lemma {:induction false} ResolvesOpen(s: State, e: Event)
    requires e.Resolve?
    ensures var s' := Step(s, e);
            && s'.now == e.time && s'.rules == s.rules && |s'.alerts| == |s.alerts|
            && forall i :: 0 <= i < |s.alerts| ==>
                 if s.alerts[i].id == e.alertId && s.alerts[i].resolvedAt == None
                 then s'.alerts[i] == s.alerts[i].(resolvedAt := Some(e.time)) else s'.alerts[i] == s.alerts[i]
    ensures Resolves(s, e) <==> exists i :: 0 <= i < |s.alerts| && Step(s, e).alerts[i] != s.alerts[i]
  {
    if Resolves(s, e) {
      var i :| 0 <= i < |s.alerts| && s.alerts[i].id == e.alertId && s.alerts[i].resolvedAt.None?;
      assert Step(s, e).alerts[i] != s.alerts[i];
    }
  }

  // ---- What every run keeps -----------------------------------------------------------------------

  ghost predicate Configured(rules: seq<RuleData>) {
    && (forall k :: 0 <= k < |rules| ==> rules[k].cooldown > 0)
    && forall j, k :: 0 <= j < k < |rules| ==> rules[j].id != rules[k].id
  }

  /** Alerts of the rule, in history order, are at least its cooldown apart, even from stamp to id. */
  ghost predicate Spaced(alerts: seq<AlertData>, rule: RuleData) {
    forall i, j :: 0 <= i < j < |alerts| && alerts[i].ruleId == rule.id && alerts[j].ruleId == rule.id ==>
      alerts[i].timestamp + rule.cooldown <= alerts[j].idTime
  }

  ghost predicate Remembered(alerts: seq<AlertData>, rule: RuleData, now: nat) {
    && (rule.last.Some? ==> rule.last.value <= now)
    && forall i :: 0 <= i < |alerts| && alerts[i].ruleId == rule.id ==>
         rule.last.Some? && alerts[i].timestamp <= rule.last.value
  }

  ghost predicate Named(s: State) {
    forall i :: 0 <= i < |s.alerts| ==>
      && s.alerts[i].id == AlertId(s.alerts[i].ruleId, s.alerts[i].idTime)
      && s.alerts[i].idTime <= s.alerts[i].timestamp <= s.now
      && exists k :: 0 <= k < |s.rules| && s.rules[k].id == s.alerts[i].ruleId
  }

  ghost predicate Inv(s: State) {
    && Configured(s.rules) && Named(s)
    && forall k :: 0 <= k < |s.rules| ==> Spaced(s.alerts, s.rules[k]) && Remembered(s.alerts, s.rules[k], s.now)
  }

  lemma {:induction false} RaiseNames(s: State, e: Event)
    requires Named(s) && Legal(s, e) && Triggers(s, e)
    ensures Named(Raise(s, e))
  {
    var s' := Raise(s, e);
    var n := |s.alerts|;
    assert forall k :: 0 <= k < |s.rules| ==> s'.rules[k].id == s.rules[k].id;
    forall i | 0 <= i < |s'.alerts|
      ensures exists k :: 0 <= k < |s'.rules| && s'.rules[k].id == s'.alerts[i].ruleId
    {
      if i < n {
        assert s'.alerts[i] == s.alerts[i];
        var k :| 0 <= k < |s.rules| && s.rules[k].id == s.alerts[i].ruleId;
        assert s'.rules[k].id == s.rules[k].id;
      } else {
        assert s'.rules[e.rule].id == s'.alerts[n].ruleId;
      }
    }
  }

  lemma {:induction false} RaiseSpaces(s: State, e: Event, k: nat)
    requires Legal(s, e) && Triggers(s, e) && k < |s.rules| && Configured(s.rules)
    requires Spaced(s.alerts, s.rules[k]) && Remembered(s.alerts, s.rules[k], s.now)
    ensures var s' := Raise(s, e); Spaced(s'.alerts, s'.rules[k]) && Remembered(s'.alerts, s'.rules[k], s'.now)
  {
  }

  lemma {:induction false} RaiseKeeps(s: State, e: Event)
    requires Inv(s) && Legal(s, e) && Triggers(s, e)
    ensures Inv(Raise(s, e))
  {
    var s' := Raise(s, e);
    RaiseNames(s, e);
    assert Configured(s'.rules);
    forall k | 0 <= k < |s'.rules|
      ensures Spaced(s'.alerts, s'.rules[k]) && Remembered(s'.alerts, s'.rules[k], s'.now)
    {
      RaiseSpaces(s, e, k);
    }
  }

  lemma {:induction false} StepKeeps(s: State, e: Event)
    requires Inv(s) && Legal(s, e)
    ensures Inv(Step(s, e))
  {
    if Triggers(s, e) {
      RaiseKeeps(s, e);
    } else {
      var s' := Step(s, e);
      assert s'.rules == s.rules && |s'.alerts| == |s.alerts| && s.now <= s'.now;
      assert forall i :: 0 <= i < |s.alerts| ==>
        s'.alerts[i].id == s.alerts[i].id && s'.alerts[i].ruleId == s.alerts[i].ruleId
        && s'.alerts[i].idTime == s.alerts[i].idTime && s'.alerts[i].timestamp == s.alerts[i].timestamp;
      forall k | 0 <= k < |s'.rules|
        ensures Spaced(s'.alerts, s'.rules[k]) && Remembered(s'.alerts, s'.rules[k], s'.now)
      {
        assert Spaced(s.alerts, s.rules[k]) && Remembered(s.alerts, s.rules[k], s.now);
      }
    }
  }

  ghost function After(start: State, events: seq<Event>): State {
    if events == [] then start else Step(After(start, events[..|events| - 1]), events[|events| - 1])
  }

  ghost predicate LegalRun(start: State, events: seq<Event>) {
    events == [] ||
    (LegalRun(start, events[..|events| - 1]) && Legal(After(start, events[..|events| - 1]), events[|events| - 1]))
  }

  /** The service as it starts: rules that never fired, and no alerts. */
  ghost predicate Initial(s: State) {
    Configured(s.rules) && s.alerts == [] && forall k :: 0 <= k < |s.rules| ==> s.rules[k].last.None?
  }

  lemma {:induction false} RunKeeps(start: State, events: seq<Event>)
    requires Initial(start) && LegalRun(start, events)
    ensures Inv(After(start, events)) && |After(start, events).rules| == |start.rules|
  {
    if events != [] {
      var front := events[..|events| - 1];
      RunKeeps(start, front);
      StepKeeps(After(start, front), events[|events| - 1]);
    }
  }

  // ---- The rate bound -------------------------------------------------------------------------------

  /** How many alerts of the rule carry a timestamp in the closed window. */
  function InWindow(alerts: seq<AlertData>, ruleId: string, from: nat, to: nat): nat {
    if alerts == [] then 0
    else
      var a := alerts[|alerts| - 1];
      InWindow(alerts[..|alerts| - 1], ruleId, from, to)
      + if a.ruleId == ruleId && from <= a.timestamp <= to then 1 else 0
  }

  /** The places of those alerts in the history. */
  ghost function PlacesInWindow(alerts: seq<AlertData>, ruleId: string, from: nat, to: nat): set<nat> {
    set i: nat | i < |alerts| && alerts[i].ruleId == ruleId && from <= alerts[i].timestamp <= to
  }

  lemma {:induction false} PlacesNext(alerts: seq<AlertData>, ruleId: string, from: nat, to: nat)
    requires alerts != []
    ensures var n := |alerts| - 1;
            && n !in PlacesInWindow(alerts[..n], ruleId, from, to)
            && PlacesInWindow(alerts, ruleId, from, to) == PlacesInWindow(alerts[..n], ruleId, from, to)
                 + if alerts[n].ruleId == ruleId && from <= alerts[n].timestamp <= to then {n} else {}
  {
  }

  lemma {:induction false} InWindowCounts(alerts: seq<AlertData>, ruleId: string, from: nat, to: nat)
    ensures InWindow(alerts, ruleId, from, to) == |PlacesInWindow(alerts, ruleId, from, to)|
  {
    if alerts != [] {
      InWindowCounts(alerts[..|alerts| - 1], ruleId, from, to);
      PlacesNext(alerts, ruleId, from, to);
    }
  }

  /** `n - 1` cooldowns. */
  function Gaps(n: nat, cooldown: nat): nat {
    if n <= 1 then 0 else Gaps(n - 1, cooldown) + cooldown
  }

  lemma {:induction false} GapsIs(n: nat, cooldown: nat)
    requires n > 0
    ensures Gaps(n, cooldown) == (n - 1) * cooldown
  {
    if n > 1 {
      GapsIs(n - 1, cooldown);
      assert (n - 1) * cooldown == (n - 2) * cooldown + cooldown;
    }
  }

  /** Some alert of the rule in the window comes at least `gap` after its start. */
  ghost predicate Reached(alerts: seq<AlertData>, ruleId: string, from: nat, to: nat, gap: nat) {
    exists i :: 0 <= i < |alerts| && alerts[i].ruleId == ruleId && from + gap <= alerts[i].timestamp <= to
  }

  lemma {:induction false} WindowSpan(alerts: seq<AlertData>, rule: RuleData, from: nat, to: nat)
    requires Spaced(alerts, rule)
    requires forall i :: 0 <= i < |alerts| ==> alerts[i].idTime <= alerts[i].timestamp
    ensures var n := InWindow(alerts, rule.id, from, to);
            n > 0 ==> Reached(alerts, rule.id, from, to, Gaps(n, rule.cooldown))
  {
    if alerts != [] {
      var front, a := alerts[..|alerts| - 1], alerts[|alerts| - 1];
      WindowSpan(front, rule, from, to);
      var m := InWindow(front, rule.id, from, to);
      if m > 0 {
        var gap := Gaps(m, rule.cooldown);
        var i :| 0 <= i < |front| && front[i].ruleId == rule.id && from + gap <= front[i].timestamp <= to;
        assert alerts[i] == front[i];
        if a.ruleId == rule.id { assert alerts[i].timestamp + rule.cooldown <= a.idTime; }
      }
    }
  }

  /** Any window of length `width` holds at most floor(width / cooldown) + 1 alerts of one rule. */
  lemma {:induction false} RateBound(s: State, k: nat, from: nat, width: nat)
    requires Inv(s) && k < |s.rules|
    ensures InWindow(s.alerts, s.rules[k].id, from, from + width) <= width / s.rules[k].cooldown + 1
  {
    SpacedBound(s.alerts, s.rules[k], from, width);
  }

  lemma {:induction false} SpacedBound(alerts: seq<AlertData>, rule: RuleData, from: nat, width: nat)
    requires Spaced(alerts, rule) && rule.cooldown > 0
    requires forall i :: 0 <= i < |alerts| ==> alerts[i].idTime <= alerts[i].timestamp
    ensures InWindow(alerts, rule.id, from, from + width) <= width / rule.cooldown + 1
  {
    WindowSpan(alerts, rule, from, from + width);
    var n := InWindow(alerts, rule.id, from, from + width);
    if n > 0 { GapsFit(n, rule.cooldown, width); }
  }

  lemma {:induction false} GapsFit(n: nat, cooldown: nat, width: nat)
    requires n > 0 && cooldown > 0 && Gaps(n, cooldown) <= width
    ensures n <= width / cooldown + 1
  {
    GapsIs(n, cooldown);
    DivBound(n - 1, width, cooldown);
  }

  lemma {:induction false} DivBound(m: nat, w: nat, c: nat)
    requires c > 0 && m * c <= w
    ensures m <= w / c
  {
    var q, r := w / c, w % c;
    assert w == q * c + r;
    assert (q + 1) * c == q * c + c;
    Arithmetic.MulMonotone(q + 1, m, c);
  }

  // ---- Alert ids --------------------------------------------------------------------------------------

  /** The number of digits at the end of a string. */
  function TrailingDigits(s: string): nat {
    if s == "" || !Decimal.IsDigit(s[|s| - 1]) then 0 else 1 + TrailingDigits(s[..|s| - 1])
  }

  lemma {:induction false} TrailingDigitsIs(x: string, digits: string)
    requires forall c :: c in digits ==> Decimal.IsDigit(c)
    requires x == "" || !Decimal.IsDigit(x[|x| - 1])
    ensures TrailingDigits(x + digits) == |digits|
  {
    if digits == "" {
      assert x + digits == x;
    } else {
      var n := |digits| - 1;
      assert digits[n] in digits;
      assert (x + digits)[..|x + digits| - 1] == x + digits[..n];
      TrailingDigitsIs(x, digits[..n]);
    }
  }

  /** An alert id determines its rule and its time, whatever underscores and digits the rule id has. */
  lemma {:induction false} AlertIdInjective(r1: string, t1: nat, r2: string, t2: nat)
    requires AlertId(r1, t1) == AlertId(r2, t2)
    ensures r1 == r2 && t1 == t2
  {
    var d1, d2 := Decimal.Print(t1), Decimal.Print(t2);
    var p1, p2 := "alert_" + r1 + "_", "alert_" + r2 + "_";
    assert AlertId(r1, t1) == p1 + d1 && AlertId(r2, t2) == p2 + d2;
    TrailingDigitsIs(p1, d1);
    TrailingDigitsIs(p2, d2);
    assert d1 == (p1 + d1)[|p1|..] && d2 == (p2 + d2)[|p2|..];
    Decimal.PrintInjective(t1, t2);
    assert p1 == (p1 + d1)[..|p1|] && p2 == (p2 + d2)[..|p2|];
    assert r1 == p1[6..|p1| - 1] && r2 == p2[6..|p2| - 1];
  }

  lemma {:induction false} IdsDistinct(s: State)
    requires Inv(s)
    ensures forall i, j :: 0 <= i < j < |s.alerts| ==> s.alerts[i].id != s.alerts[j].id
  {
    forall i, j | 0 <= i < j < |s.alerts|
      ensures s.alerts[i].id != s.alerts[j].id
    {
      var a, b := s.alerts[i], s.alerts[j];
      var k :| 0 <= k < |s.rules| && s.rules[k].id == a.ruleId;
      assert Spaced(s.alerts, s.rules[k]);
      if a.id == b.id { AlertIdInjective(a.ruleId, a.idTime, b.ruleId, b.idTime); }
    }
  }

  /** Once a rule has cooled down, the id it can take is free. */
  lemma {:induction false} NextIdIsNew(s: State, k: nat, t: nat, i: nat)
    requires Inv(s) && k < |s.rules| && !CoolingDown(s.rules[k], t)
    requires s.now <= t && i < |s.alerts|
    ensures s.alerts[i].id != AlertId(s.rules[k].id, t)
  {
    var e := Check(k, true, Readings(t, t, t, t));
    var s' := Raise(s, e);
    RaiseKeeps(s, e);
    IdsDistinct(s');
    assert s'.alerts[i] == s.alerts[i] && s'.alerts[i].id != s'.alerts[|s.alerts|].id;
  }

  // ---- Resolution -------------------------------------------------------------------------------------

  ghost predicate IsResolved(s: State, id: string) {
    exists i :: 0 <= i < |s.alerts| && s.alerts[i].id == id && s.alerts[i].resolvedAt.Some?
  }

  /** How often `resolveAlert` answers true for this id. */
  ghost function TimesResolved(start: State, events: seq<Event>, id: string): nat {
    if events == [] then 0
    else
      var front, e := events[..|events| - 1], events[|events| - 1];
      TimesResolved(start, front, id)
      + if e.Resolve? && e.alertId == id && Resolves(After(start, front), e) then 1 else 0
  }

  lemma {:induction false} ResolveStep(s: State, e: Event, id: string)
    requires forall i, j :: 0 <= i < j < |s.alerts| ==> s.alerts[i].id != s.alerts[j].id
    ensures Resolves(s, e) && e.alertId == id ==> !IsResolved(s, id) && IsResolved(Step(s, e), id)
    ensures !(Resolves(s, e) && e.alertId == id) ==> (IsResolved(Step(s, e), id) <==> IsResolved(s, id))
  {
    var s' := Step(s, e);
    assert forall i :: 0 <= i < |s.alerts| ==> s'.alerts[i].id == s.alerts[i].id;
    assert forall i :: |s.alerts| <= i < |s'.alerts| ==> s'.alerts[i].resolvedAt.None?;
    if Resolves(s, e) && e.alertId == id {
      var i :| 0 <= i < |s.alerts| && s.alerts[i].id == id && s.alerts[i].resolvedAt.None?;
      assert s'.alerts[i].resolvedAt.Some?;
    } else if IsResolved(s, id) {
      var i :| 0 <= i < |s.alerts| && s.alerts[i].id == id && s.alerts[i].resolvedAt.Some?;
      assert s'.alerts[i].id == id;
    }
  }

  /** In every run each alert is resolved at most once, and once it is it stays so. */
  lemma {:induction false} ResolvedOnce(start: State, events: seq<Event>, id: string)
    requires Initial(start) && LegalRun(start, events)
    ensures TimesResolved(start, events, id) <= 1
    ensures TimesResolved(start, events, id) == 1 <==> IsResolved(After(start, events), id)
  {
    if events != [] {
      var front, e := events[..|events| - 1], events[|events| - 1];
      var s := After(start, front);
      ResolvedOnce(start, front, id);
      RunKeeps(start, front);
      IdsDistinct(s);
      ResolveStep(s, e, id);
    }
  }

  /** One check per rule, in rule order, with the answer that is due. */
  ghost predicate ChecksInOrder(events: seq<Event>, due: seq<bool>) {
    |events| <= |due|
    && forall k :: 0 <= k < |events| ==> events[k].Check? && events[k].rule == k && events[k].fires == due[k]
  }

  lemma {:induction false} ChecksExtend(events: seq<Event>, e: Event, due: seq<bool>)
    requires ChecksInOrder(events, due) && |events| < |due|
    requires e.Check? && e.rule == |events| && e.fires == due[|events|]
    ensures ChecksInOrder(events + [e], due)
  {
  }

  /** Check `k` finds its condition true and its rule, as it was before the checks, cooled down. */
  ghost predicate IsDue(rules: seq<RuleData>, checks: seq<Event>, k: nat)
    requires |checks| <= |rules| && k < |checks| && checks[k].Check?
  {
    checks[k].fires && (rules[k].last == None || rules[k].last.value + rules[k].cooldown <= checks[k].at.test)
  }

  /** The alerts of the first `n` checks: one for each that is due, in rule order. */
  ghost function DueAlerts(rules: seq<RuleData>, checks: seq<Event>, n: nat): seq<AlertData>
    requires n <= |checks| <= |rules| && forall k :: 0 <= k < |checks| ==> checks[k].Check?
    decreases n
  {
    if n == 0 then []
    else
      var rule, at := rules[n - 1], checks[n - 1].at;
      DueAlerts(rules, checks, n - 1)
      + if IsDue(rules, checks, n - 1)
        then [AlertData("alert_" + rule.id + ("_" + Decimal.Print(at.idTime)), rule.id, at.idTime, at.timestamp, None)]
        else []
  }

  /** What `n` checks in rule order have done: the rules before `n` may be stamped, the others are as before. */
  ghost predicate Checked(s: State, s': State, checks: seq<Event>, n: nat)
    requires n <= |checks| <= |s.rules| && forall k :: 0 <= k < |checks| ==> checks[k].Check?
  {
    && s'.alerts == s.alerts + DueAlerts(s.rules, checks, n)
    && |s'.rules| == |s.rules|
    && forall k :: 0 <= k < |s.rules| ==>
         s'.rules[k] == if k < n && IsDue(s.rules, checks, k) then s.rules[k].(last := Some(checks[k].at.last))
                        else s.rules[k]
  }

  lemma {:induction false} CheckedNext(s: State, s': State, checks: seq<Event>, n: nat)
    requires n < |checks| <= |s.rules| && forall k :: 0 <= k < |checks| ==> checks[k].Check? && checks[k].rule == k
    requires Checked(s, s', checks, n)
    ensures Checked(s, Step(s', checks[n]), checks, n + 1)
  {
    RaisesWhenDue(s', checks[n]);
    assert s'.rules[n] == s.rules[n];
  }

  /** A pass over all rules adds exactly the alerts that are due, once each in rule order, and stamps their rules. */
  lemma {:induction false} ChecksRaiseDue(s: State, checks: seq<Event>, n: nat)
    requires n <= |checks| <= |s.rules| && forall k :: 0 <= k < |checks| ==> checks[k].Check? && checks[k].rule == k
    ensures Checked(s, After(s, checks[..n]), checks, n)
    decreases n
  {
    if n > 0 {
      ChecksRaiseDue(s, checks, n - 1);
      assert checks[..n][..n - 1] == checks[..n - 1];
      CheckedNext(s, After(s, checks[..n - 1]), checks, n - 1);
    }
  }

  lemma {:induction false} AfterMore(start: State, first: seq<Event>, more: seq<Event>)
    ensures After(start, first + more) == After(After(start, first), more)
    decreases |more|
  {
    if more == [] {
      assert first + more == first;
    } else {
      assert (first + more)[..|first + more| - 1] == first + more[..|more| - 1];
      AfterMore(start, first, more[..|more| - 1]);
    }
  }

  /** The same for a pass that continues a run. */
  lemma {:induction false} PassRaisesDue(start: State, first: seq<Event>, checks: seq<Event>, due: seq<bool>)
    requires |checks| <= |After(start, first).rules| && ChecksInOrder(checks, due)
    ensures Checked(After(start, first), After(start, first + checks), checks, |checks|)
  {
    AfterMore(start, first, checks);
    ChecksRaiseDue(After(start, first), checks, |checks|);
    assert checks[..|checks|] == checks;
  }

  /** Resolving an open alert changes that one entry. */
  lemma {:induction false} ResolveOpen(s: State, id: string, t: nat, i: nat)
    requires forall j, k :: 0 <= j < k < |s.alerts| ==> s.alerts[j].id != s.alerts[k].id
    requires i < |s.alerts| && s.alerts[i].id == id && s.alerts[i].resolvedAt.None?
    ensures Resolves(s, Resolve(id, t))
    ensures Step(s, Resolve(id, t)) == s.(alerts := s.alerts[i := s.alerts[i].(resolvedAt := Some(t))], now := t)
  {
  }

  lemma {:induction false} ResolveNothing(s: State, id: string, t: nat)
    requires forall i :: 0 <= i < |s.alerts| && s.alerts[i].id == id ==> s.alerts[i].resolvedAt.Some?
    ensures !Resolves(s, Resolve(id, t)) && Step(s, Resolve(id, t)) == s.(now := t)
  {
  }

  // ---- The service ------------------------------------------------------------------------------------

  class AlertRule {
    const id: string
    const cooldownMs: nat
    var enabled: bool
    var lastTriggered: Option<nat>

    constructor (id: string, cooldownMinutes: nat)
      ensures this.id == id && cooldownMs == cooldownMinutes * 60 * 1000 && enabled && lastTriggered == None
    {
      this.id := id;
      this.cooldownMs := cooldownMinutes * 60 * 1000;
      enabled, lastTriggered := true, None;
    }
  }

  class Alert {
    const id: string
    const ruleId: string
    const timestamp: nat
    ghost const idTime: nat
    var resolved: bool
    var resolvedAt: Option<nat>

    constructor (id: string, ruleId: string, timestamp: nat, ghost idTime: nat)
      ensures this.id == id && this.ruleId == ruleId && this.timestamp == timestamp && this.idTime == idTime
      ensures !resolved && resolvedAt == None
    {
      this.id, this.ruleId, this.timestamp, this.idTime := id, ruleId, timestamp, idTime;
      resolved, resolvedAt := false, None;
    }
  }

  /** The alerts that are not resolved, in their order. */
  ghost function OpenOf(alerts: seq<Alert>): seq<Alert>
    reads alerts
  {
    if alerts == [] then []
    else OpenOf(alerts[..|alerts| - 1]) + if alerts[|alerts| - 1].resolved then [] else [alerts[|alerts| - 1]]
  }

  lemma {:induction false} OpenOfMember(alerts: seq<Alert>, a: Alert)
    ensures a in OpenOf(alerts) <==> a in alerts && !a.resolved
  {
    if alerts != [] {
      assert alerts == alerts[..|alerts| - 1] + [alerts[|alerts| - 1]];
      OpenOfMember(alerts[..|alerts| - 1], a);
    }
  }

  /** `at` are the places of the alerts that are not resolved. */
  ghost predicate OpenAt(alerts: seq<Alert>, at: seq<nat>)
    reads alerts
  {
    forall i: nat :: i in at <==> i < |alerts| && !alerts[i].resolved
  }

  lemma {:induction false} OpenAtNext(alerts: seq<Alert>, at: seq<nat>)
    requires alerts != [] && OpenAt(alerts[..|alerts| - 1], at)
    ensures OpenAt(alerts, Taken(at, |alerts| - 1, !alerts[|alerts| - 1].resolved))
  {
  }

  lemma {:induction false} OpenOfNext(alerts: seq<Alert>, at: seq<nat>)
    requires alerts != [] && Picks(alerts[..|alerts| - 1], at, OpenOf(alerts[..|alerts| - 1]))
    ensures Picks(alerts, Taken(at, |alerts| - 1, !alerts[|alerts| - 1].resolved), OpenOf(alerts))
  {
    var front, last := alerts[..|alerts| - 1], alerts[|alerts| - 1];
    assert alerts == front + [last];
    PicksAppend(front, last, at, OpenOf(front), !last.resolved);
  }

  /** The open alerts, by their places in the history, which increase. */
  lemma {:induction false} OpenOfPicks(alerts: seq<Alert>) returns (at: seq<nat>)
    ensures Picks(alerts, at, OpenOf(alerts)) && OpenAt(alerts, at)
  {
    at := [];
    if alerts != [] {
      at := OpenOfPicks(alerts[..|alerts| - 1]);
      OpenAtNext(alerts, at);
      OpenOfNext(alerts, at);
      at := Taken(at, |alerts| - 1, !alerts[|alerts| - 1].resolved);
    }
  }

  class MonitoringService {
    const alertRules: seq<AlertRule>
    var activeAlerts: map<string, Alert>
    /** The keys of the map in the order of their insertion, in which it is iterated. */
    var activeKeys: seq<string>
    var alertHistory: seq<Alert>
    var clock: nat
    ghost const initial: State
    ghost var trace: seq<Event>
    /** The rules, the history and the clock as values; `Reflects` ties them to the objects. */
    ghost var view: State

    ghost predicate RulesReflected()
      reads this`view, alertRules
    {
      && |view.rules| == |alertRules|
      && (forall k :: 0 <= k < |alertRules| ==>
            view.rules[k] == RuleData(alertRules[k].id, alertRules[k].cooldownMs, alertRules[k].lastTriggered))
      && forall j, k :: 0 <= j < k < |alertRules| ==> alertRules[j] != alertRules[k]
    }

    ghost predicate AlertsReflected()
      reads this`view, this`alertHistory, alertHistory
    {
      && |view.alerts| == |alertHistory|
      && forall i :: 0 <= i < |alertHistory| ==>
           && view.alerts[i] == AlertData(alertHistory[i].id, alertHistory[i].ruleId, alertHistory[i].idTime,
                                          alertHistory[i].timestamp, alertHistory[i].resolvedAt)
           && (alertHistory[i].resolved <==> alertHistory[i].resolvedAt.Some?)
    }

    /** The map holds exactly the objects of the history, each under its id. */
    ghost predicate Indexed()
      reads this`activeAlerts, this`activeKeys, this`alertHistory
    {
      && |activeKeys| == |alertHistory| && (forall i :: 0 <= i < |alertHistory| ==> activeKeys[i] == alertHistory[i].id)
      && (forall i :: 0 <= i < |alertHistory| ==>
            alertHistory[i].id in activeAlerts && activeAlerts[alertHistory[i].id] == alertHistory[i])
      && forall id :: id in activeAlerts ==> exists i :: 0 <= i < |alertHistory| && alertHistory[i].id == id
    }

    ghost predicate Reflects()
      reads this`view, this`activeAlerts, this`activeKeys, this`alertHistory, alertRules, alertHistory
    {
      RulesReflected() && AlertsReflected() && Indexed()
    }

    /** The service is in the state its own trace of legal events leads to. */
    ghost predicate Valid()
      reads this, alertRules, alertHistory
    {
      && Reflects() && view.now == clock
      && Initial(initial) && LegalRun(initial, trace) && view == After(initial, trace)
    }

    constructor (rules: seq<AlertRule>, now: nat)
      requires forall j, k :: 0 <= j < k < |rules| ==> rules[j].id != rules[k].id
      requires forall k :: 0 <= k < |rules| ==> rules[k].cooldownMs > 0 && rules[k].lastTriggered == None
      ensures Valid() && trace == [] && alertRules == rules && initial.now == now
    {
      ghost var data := seq(|rules|, k requires 0 <= k < |rules| => RuleData(rules[k].id, rules[k].cooldownMs, None));
      alertRules := rules;
      activeAlerts, activeKeys, alertHistory, clock, trace := map[], [], [], now, [];
      initial := State(data, [], now);
      view := State(data, [], now);
    }

    /** One reading of the clock: some moment not before the last one. */
    method ReadClock() returns (t: nat)
      modifies this`clock
      ensures t == clock && old(clock) <= clock
    {
      var passed: nat :| true;
      clock := clock + passed;
      t := clock;
    }

    /** Store the alert in the map and the history. */
    method StoreAlert(rule: AlertRule, alertId: string, idTime: nat, timestamp: nat) returns (alert: Alert)
      requires AlertsReflected() && Indexed()
      requires forall i :: 0 <= i < |alertHistory| ==> alertHistory[i].id != alertId
      modifies this`activeAlerts, this`activeKeys, this`alertHistory, this`view
      ensures AlertsReflected() && Indexed()
      ensures view == old(view).(alerts := old(view).alerts + [AlertData(alertId, rule.id, idTime, timestamp, None)])
      ensures fresh(alert) && alertHistory == old(alertHistory) + [alert]
    {
      alert := new Alert(alertId, rule.id, timestamp, idTime);
      activeAlerts, activeKeys := activeAlerts[alertId := alert], activeKeys + [alertId];
      alertHistory := alertHistory + [alert];
      view := view.(alerts := view.alerts + [AlertData(alertId, rule.id, idTime, timestamp, None)]);
      assert alertHistory[|old(alertHistory)|] == alert;
      forall id | id in activeAlerts
        ensures exists i :: 0 <= i < |alertHistory| && alertHistory[i].id == id
      {
        if id != alertId {
          var i :| 0 <= i < |old(alertHistory)| && old(alertHistory)[i].id == id;
          assert alertHistory[i] == old(alertHistory)[i];
        }
      }
    }

    method StampRule(rule: AlertRule, last: nat, ghost k: nat)
      requires RulesReflected() && k < |alertRules| && alertRules[k] == rule
      modifies this`view, rule`lastTriggered
      ensures RulesReflected()
      ensures view == State(old(view).rules[k := old(view).rules[k].(last := Some(last))], old(view).alerts, last)
    {
      rule.lastTriggered := Some(last);
      view := State(view.rules[k := view.rules[k].(last := Some(last))], view.alerts, last);
    }

    method TriggerAlert(rule: AlertRule, ghost k: nat) returns (ghost at: Readings)
      requires Reflects() && k < |alertRules| && alertRules[k] == rule && view.now <= clock
      requires forall t: nat, i | clock <= t && 0 <= i < |alertHistory| :: alertHistory[i].id != AlertId(rule.id, t)
      modifies this`clock, this`activeAlerts, this`activeKeys, this`alertHistory, this`view, rule`lastTriggered
      ensures Reflects()
      ensures at.test == old(clock) && Legal(old(view), Check(k, true, at))
      ensures view == Raise(old(view), Check(k, true, at)) && clock == at.last
    {
      var idTime := ReadClock();
      var alertId := AlertId(rule.id, idTime);
      var timestamp := ReadClock();
      var alert := StoreAlert(rule, alertId, idTime, timestamp);
      var last := ReadClock();
      StampRule(rule, last, k);
      at := Readings(old(clock), idTime, timestamp, last);
    }

    lemma {:induction false} NextIdsUnused(k: nat)
      requires Valid() && k < |alertRules|
      ensures forall t: nat, i | clock <= t && !CoolingDown(view.rules[k], t) && 0 <= i < |alertHistory| ::
                alertHistory[i].id != AlertId(alertRules[k].id, t)
    {
      RunKeeps(initial, trace);
      forall t: nat, i | clock <= t && !CoolingDown(view.rules[k], t) && 0 <= i < |alertHistory|
        ensures alertHistory[i].id != AlertId(alertRules[k].id, t)
      {
        NextIdIsNew(view, k, t, i);
      }
    }

    /** One event more on the trace. */
    ghost method Record(e: Event, before: State)
      requires before == After(initial, trace) && LegalRun(initial, trace) && Legal(before, e)
      modifies this`trace
      ensures trace == old(trace) + [e] && LegalRun(initial, trace) && After(initial, trace) == Step(before, e)
    {
      assert (trace + [e])[..|trace|] == trace;
      trace := trace + [e];
    }

    /** One turn of the loop of `checkAlerts`; `condition` is what evaluating the rule's condition answers. */
    method CheckRule(rule: AlertRule, condition: bool, ghost k: nat) returns (ghost e: Event)
      requires Valid() && k < |alertRules| && alertRules[k] == rule
      modifies this, rule`lastTriggered
      ensures Valid()
      ensures trace == old(trace) + [e]
      ensures e.Check? && e.rule == k && e.fires == (rule.enabled && condition)
    {
      ghost var before := view;
      if rule.enabled {
        NextIdsUnused(k);
        e := CheckEnabled(rule, condition, k);
      } else {
        e := Check(k, false, Readings(clock, clock, clock, clock));
      }
      Record(e, before);
    }

    /** The cooldown test, and the alert if the condition holds. */
    method CheckEnabled(rule: AlertRule, condition: bool, ghost k: nat) returns (ghost e: Event)
      requires Reflects() && view.now == clock && k < |alertRules| && alertRules[k] == rule
      requires forall t: nat, i | clock <= t && !CoolingDown(view.rules[k], t) && 0 <= i < |alertHistory| ::
                 alertHistory[i].id != AlertId(rule.id, t)
      modifies this`clock, this`activeAlerts, this`activeKeys, this`alertHistory, this`view, rule`lastTriggered
      ensures Reflects() && view.now == clock
      ensures e.Check? && e.rule == k && e.fires == condition
      ensures Legal(old(view), e) && view == Step(old(view), e)
    {
      var now := ReadClock();
      if !(rule.lastTriggered.Some? && now < rule.lastTriggered.value + rule.cooldownMs) && condition {
        ghost var at := TriggerAlert(rule, k);
        e := Check(k, true, at);
      } else {
        e := Check(k, condition, Readings(now, now, now, now));
        view := view.(now := now);
      }
    }

    /** The rules that are enabled and whose condition holds. */
    ghost predicate Due(conditions: seq<bool>, due: seq<bool>)
      reads alertRules
    {
      |due| == |conditions| == |alertRules|
      && forall k :: 0 <= k < |due| ==> due[k] == (alertRules[k].enabled && conditions[k])
    }

    method CheckNext(k: nat, conditions: seq<bool>, ghost due: seq<bool>) returns (ghost e: Event)
      requires Valid() && Due(conditions, due) && k < |alertRules|
      modifies this, alertRules
      ensures Valid() && Due(conditions, due)
      ensures trace == old(trace) + [e] && e.Check? && e.rule == k && e.fires == due[k]
    {
      e := CheckRule(alertRules[k], conditions[k], k);
    }

    /** All rules in turn, in list order; a rule that is due and has cooled down raises its alert. */
    method CheckAlerts(conditions: seq<bool>, ghost due: seq<bool>) returns (ghost checks: seq<Event>)
      requires Valid() && Due(conditions, due)
      modifies this, alertRules
      ensures Valid()
      ensures trace == old(trace) + checks && |checks| == |alertRules| && ChecksInOrder(checks, due)
      ensures Due(conditions, due)
      ensures |checks| == |old(view).rules| && Checked(old(view), view, checks, |checks|)
    {
      checks := [];
      for k := 0 to |alertRules|
        invariant Valid() && Due(conditions, due)
        invariant trace == old(trace) + checks && |checks| == k && ChecksInOrder(checks, due)
      {
        ghost var e := CheckNext(k, conditions, due);
        ChecksExtend(checks, e, due);
        checks := checks + [e];
      }
      PassRaisesDue(initial, old(trace), checks, due);
    }

    /** Answers true exactly when the alert exists and is open; the history sees the change. */
    method ResolveAlert(alertId: string) returns (ok: bool)
      requires Valid()
      modifies this`clock, this`trace, this`view, alertHistory
      ensures Valid()
      ensures trace == old(trace) + [Resolve(alertId, clock)] && (ok <==> Resolves(old(view), Resolve(alertId, clock)))
    {
      ghost var before := view;
      HistoryIdsDistinct();
      var t := ReadClock();
      ok := MarkResolved(alertId, t);
      Record(Resolve(alertId, t), before);
    }

    method MarkResolved(alertId: string, time: nat) returns (ok: bool)
      requires Reflects()
      requires forall i, j :: 0 <= i < j < |alertHistory| ==> alertHistory[i].id != alertHistory[j].id
      modifies this`view, alertHistory
      ensures Reflects()
      ensures ok <==> Resolves(old(view), Resolve(alertId, time))
      ensures view == Step(old(view), Resolve(alertId, time))
    {
      if alertId in activeAlerts && !activeAlerts[alertId].resolved {
        var alert := activeAlerts[alertId];
        ghost var i :| 0 <= i < |alertHistory| && alertHistory[i].id == alertId;
        ResolveOpen(view, alertId, time, i);
        Close(alert, time, i);
        ok := true;
      } else {
        ResolveNothing(view, alertId, time);
        view := view.(now := time);
        ok := false;
      }
    }

    /** Both fields of the open alert at once; nothing else in the history is that object. */
    method Close(alert: Alert, time: nat, ghost i: nat)
      requires AlertsReflected() && Indexed() && i < |alertHistory| && alertHistory[i] == alert
      requires forall i, j :: 0 <= i < j < |alertHistory| ==> alertHistory[i].id != alertHistory[j].id
      modifies this`view, alert
      ensures AlertsReflected()
      ensures view.alerts == old(view).alerts[i := old(view).alerts[i].(resolvedAt := Some(time))]
      ensures view.rules == old(view).rules && view.now == time
    {
      alert.resolved := true;
      alert.resolvedAt := Some(time);
      view := view.(alerts := view.alerts[i := view.alerts[i].(resolvedAt := Some(time))], now := time);
    }

    lemma {:induction false} HistoryIdsDistinct()
      requires Valid()
      ensures forall i, j :: 0 <= i < j < |alertHistory| ==> alertHistory[i].id != alertHistory[j].id
    {
      RunKeeps(initial, trace);
      IdsDistinct(view);
      assert forall i :: 0 <= i < |alertHistory| ==> view.alerts[i].id == alertHistory[i].id;
    }

    /** The open alerts, oldest first. */
    method GetActiveAlerts() returns (open: seq<Alert>)
      requires Valid()
      ensures open == OpenOf(alertHistory)
    {
      open := [];
      for i := 0 to |activeKeys|
        invariant open == OpenOf(alertHistory[..i])
      {
        var alert := activeAlerts[activeKeys[i]];
        assert alertHistory[..i + 1][..i] == alertHistory[..i] && alertHistory[..i + 1][i] == alert;
        if !alert.resolved { open := open + [alert]; }
      }
      assert alertHistory[..|activeKeys|] == alertHistory;
    }

    /** In every state the service can be in, a window holds at most floor(width / cooldown) + 1 alerts of a rule. */
    lemma {:induction false} AlertsAreRateBound(k: nat, from: nat, width: nat)
      requires Valid() && k < |alertRules|
      ensures alertRules[k].cooldownMs > 0
      ensures InWindow(view.alerts, alertRules[k].id, from, from + width) <= width / alertRules[k].cooldownMs + 1
    {
      RunKeeps(initial, trace);
      RateBound(view, k, from, width);
    }

    /** The map and the history have the same size. */
    lemma {:induction false} SameSize()
      requires Valid()
      ensures |activeAlerts| == |alertHistory|
    {
      HistoryIdsDistinct();
      IndexedSize();
    }

    lemma {:induction false} IndexedSize()
      requires Indexed()
      requires forall i, j :: 0 <= i < j < |alertHistory| ==> alertHistory[i].id != alertHistory[j].id
      ensures |activeAlerts| == |alertHistory|
    {
      var history := alertHistory;
      var ids := seq(|history|, i requires 0 <= i < |history| => history[i].id);
      DistinctSize(ids);
      forall id
        ensures id in ids <==> id in activeAlerts
      {
        if id in activeAlerts {
          var i :| 0 <= i < |history| && history[i].id == id;
          assert ids[i] == id;
        }
      }
      assert (set x | x in ids) == activeAlerts.Keys;
    }
  }

  lemma {:induction false} DistinctSize(s: seq<string>)
    requires Distinct(s)
    ensures |set x | x in s| == |s|
  {
    if s != [] {
      var front, last := s[..|s| - 1], s[|s| - 1];
      DistinctSize(front);
      assert (set x | x in s) == (set x | x in front) + {last};
    }
  }
}
