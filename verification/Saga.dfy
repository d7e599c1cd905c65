/**
 * The saga orchestrator: a step machine kept in Redis with a lifetime of one hour. None of its
 * operations looks at the saga's status, so what holds in every run has to be proved.
 */
module Saga {
  import opened Common

  datatype SagaStatus = PENDING | COMPLETED | FAILED | COMPENSATING | COMPENSATED

  datatype StepSpec = StepSpec(stepId: string, action: string, compensation: Option<string>)

  datatype SagaStep = SagaStep(spec: StepSpec, status: SagaStatus, result: Option<string>, error: Option<string>)

  datatype SagaState = SagaState(sagaId: string, transactionType: string, steps: seq<SagaStep>,
                                 currentStep: nat, status: SagaStatus, completedAt: Option<nat>)

  datatype SagaError = NotFound | MissingStep

  datatype Entry = Entry(saga: SagaState, expiresAt: nat)

  const TTL: nat := 3600

  function NewSaga(sagaId: string, transactionType: string, specs: seq<StepSpec>): SagaState {
    SagaState(sagaId, transactionType,
              seq(|specs|, i requires 0 <= i < |specs| => SagaStep(specs[i], PENDING, None, None)),
              0, PENDING, None)
  }

  /** `executeStep`: the current step, if there is one, is done; the counter moves in any case. */
  function Executed(s: SagaState, stepResult: string, now: nat): SagaState {
    var steps := if s.currentStep < |s.steps|
                 then s.steps[s.currentStep := s.steps[s.currentStep].(status := COMPLETED, result := Some(stepResult))]
                 else s.steps;
    var moved := s.(steps := steps, currentStep := s.currentStep + 1);
    if s.currentStep + 1 >= |s.steps| then moved.(status := COMPLETED, completedAt := Some(now)) else moved
  }

  function Failed(s: SagaState, error: string): SagaState {
    var steps := if s.currentStep < |s.steps|
                 then s.steps[s.currentStep := s.steps[s.currentStep].(status := FAILED, error := Some(error))]
                 else s.steps;
    s.(steps := steps, status := COMPENSATING)
  }

  predicate Eligible(step: SagaStep) {
    step.status.COMPLETED? && step.spec.compensation.Some?
  }

  /** The steps below `c` that `compensate` picks, from the highest index down. */
  function Picked(steps: seq<SagaStep>, c: nat): (r: seq<nat>)
    requires c <= |steps|
    ensures forall k :: 0 <= k < |r| ==> r[k] < c
    decreases c
  {
    if c == 0 then []
    else (if Eligible(steps[c - 1]) then [c - 1] else []) + Picked(steps, c - 1)
  }

  function Compensating(step: SagaStep, picked: bool): SagaStep {
    if picked then step.(status := COMPENSATING) else step
  }

  /** `compensate` reads one step per index below the counter, so the counter must not have overrun. */
  predicate CanCompensate(s: SagaState) {
    s.currentStep <= |s.steps|
  }

  /** The steps with those picked among the indices from `i` up to `c` marked. */
  function CompensatingFrom(steps: seq<SagaStep>, i: nat, c: nat): (r: seq<SagaStep>)
    ensures |r| == |steps|
  {
    seq(|steps|, k requires 0 <= k < |steps| => Compensating(steps[k], i <= k < c && Eligible(steps[k])))
  }

  function AfterCompensate(s: SagaState): SagaState
    requires CanCompensate(s)
  {
    s.(steps := CompensatingFrom(s.steps, 0, s.currentStep))
  }

  /** The list handed to the caller: the picked steps, as they stand after the call. */
  function Issued(s: SagaState): (r: seq<SagaStep>)
    requires CanCompensate(s)
  {
    var picked := Picked(s.steps, s.currentStep);
    seq(|picked|, k requires 0 <= k < |picked| => Compensating(s.steps[picked[k]], true))
  }

  function MarkedCompensated(s: SagaState): SagaState {
    s.(steps := seq(|s.steps|, i requires 0 <= i < |s.steps| =>
         if s.steps[i].status.COMPENSATING? then s.steps[i].(status := COMPENSATED) else s.steps[i]),
       status := COMPENSATED)
  }

  // ---- The service ------------------------------------------------------------------------------

  function Load(store: map<string, Entry>, sagaId: string, now: nat): Option<SagaState> {
    if sagaId in store && now < store[sagaId].expiresAt then Some(store[sagaId].saga) else None
  }

  /** What is picked among the indices below `c` down to `i`. */
  function IssuedFrom(steps: seq<SagaStep>, i: nat, c: nat): seq<SagaStep>
    requires i <= c <= |steps|
    decreases c - i
  {
    if i == c then []
    else IssuedFrom(steps, i + 1, c) + if Eligible(steps[i]) then [Compensating(steps[i], true)] else []
  }

  lemma {:induction false} IssuedFromTop(steps: seq<SagaStep>, i: nat, c: nat)
    requires i <= c <= |steps|
    ensures IssuedFrom(steps, i, c) + Tail(steps, i) == Tail(steps, c)
    decreases c - i
  {
    if i < c {
      IssuedFromTop(steps, i + 1, c);
      TailSplit(steps, i + 1);
    }
  }

  lemma {:induction false} OneIndexDown(steps: seq<SagaStep>, i: nat, c: nat)
    requires i < c <= |steps|
    ensures var before := CompensatingFrom(steps, i + 1, c);
            && before[i] == steps[i]
            && CompensatingFrom(steps, i, c) ==
                 if Eligible(steps[i]) then before[i := Compensating(steps[i], true)] else before
  {
  }

  /** The loop of `compensate`, from the step below the counter down to the first. */
  method CompensateSteps(s: SagaState) returns (saga: SagaState, compensationSteps: seq<SagaStep>)
    requires CanCompensate(s)
    ensures saga == AfterCompensate(s) && compensationSteps == Issued(s)
  {
    saga, compensationSteps := s, [];
    var i := s.currentStep - 1;
    while i >= 0
      invariant -1 <= i < s.currentStep
      invariant saga == s.(steps := CompensatingFrom(s.steps, i + 1, s.currentStep))
      invariant compensationSteps == IssuedFrom(s.steps, i + 1, s.currentStep)
    {
      OneIndexDown(s.steps, i, s.currentStep);
      var step := saga.steps[i];
      if step.status == COMPLETED && step.spec.compensation.Some? {
        step := step.(status := COMPENSATING);
        saga := saga.(steps := saga.steps[i := step]);
        compensationSteps := compensationSteps + [step];
      }
      i := i - 1;
    }
    IssuedFromTop(s.steps, 0, s.currentStep);
    assert IssuedFrom(s.steps, 0, s.currentStep) + Tail(s.steps, 0) == IssuedFrom(s.steps, 0, s.currentStep);
  }

  class SagaOrchestrator {
    var store: map<string, Entry>

    /** Every saga is stored under its own id. */
    ghost predicate Valid()
      reads this
    {
      forall id :: id in store ==> store[id].saga.sagaId == id
    }

    constructor ()
      ensures Valid() && store == map[]
    {
      store := map[];
    }

    method CreateSaga(sagaId: string, transactionType: string, specs: seq<StepSpec>, now: nat)
      requires Valid()
      modifies this
      ensures Valid()
      ensures store == old(store)[sagaId := Entry(NewSaga(sagaId, transactionType, specs), now + TTL)]
    {
      SaveSaga(NewSaga(sagaId, transactionType, specs), now);
    }

    method SaveSaga(saga: SagaState, now: nat)
      requires Valid()
      modifies this
      ensures Valid() && store == old(store)[saga.sagaId := Entry(saga, now + TTL)]
    {
      store := store[saga.sagaId := Entry(saga, now + TTL)];
    }

    method ExecuteStep(sagaId: string, stepResult: string, now: nat)
      returns (r: Result<Option<SagaStep>, SagaError>)
      requires Valid()
      modifies this
      ensures Valid()
      ensures match Load(old(store), sagaId, now)
              case None => r == Err(NotFound) && store == old(store)
              case Some(s) =>
                var s' := Executed(s, stepResult, now);
                && store == old(store)[sagaId := Entry(s', now + TTL)]
                && r == Ok(if s'.currentStep < |s'.steps| then Some(s'.steps[s'.currentStep]) else None)
    {
      var loaded := Load(store, sagaId, now);
      if loaded.None? { return Err(NotFound); }
      var saga := loaded.value;
      if saga.currentStep < |saga.steps| {
        saga := saga.(steps := saga.steps[saga.currentStep :=
          saga.steps[saga.currentStep].(status := COMPLETED, result := Some(stepResult))]);
      }
      saga := saga.(currentStep := saga.currentStep + 1);
      if saga.currentStep >= |saga.steps| {
        saga := saga.(status := COMPLETED, completedAt := Some(now));
        SaveSaga(saga, now);
        return Ok(None);
      }
      SaveSaga(saga, now);
      return Ok(Some(saga.steps[saga.currentStep]));
    }

    method FailStep(sagaId: string, error: string, now: nat) returns (r: Result<(), SagaError>)
      requires Valid()
      modifies this
      ensures Valid()
      ensures match Load(old(store), sagaId, now)
              case None => r == Err(NotFound) && store == old(store)
              case Some(s) => r == Ok(()) && store == old(store)[sagaId := Entry(Failed(s, error), now + TTL)]
    {
      var loaded := Load(store, sagaId, now);
      if loaded.None? { return Err(NotFound); }
      var saga := loaded.value;
      if saga.currentStep < |saga.steps| {
        saga := saga.(steps := saga.steps[saga.currentStep :=
          saga.steps[saga.currentStep].(status := FAILED, error := Some(error))]);
      }
      saga := saga.(status := COMPENSATING);
      SaveSaga(saga, now);
      return Ok(());
    }

    /** An overrun counter reads a missing step: the call throws and nothing is saved. */
    method Compensate(sagaId: string, now: nat) returns (r: Result<seq<SagaStep>, SagaError>)
      requires Valid()
      modifies this
      ensures Valid()
      ensures match Load(old(store), sagaId, now)
              case None => r == Err(NotFound) && store == old(store)
              case Some(s) =>
                if CanCompensate(s)
                then r == Ok(Issued(s)) && store == old(store)[sagaId := Entry(AfterCompensate(s), now + TTL)]
                else r == Err(MissingStep) && store == old(store)
    {
      var loaded := Load(store, sagaId, now);
      if loaded.None? { return Err(NotFound); }
      if loaded.value.currentStep > |loaded.value.steps| { return Err(MissingStep); }
      var saga, compensationSteps := CompensateSteps(loaded.value);
      SaveSaga(saga, now);
      return Ok(compensationSteps);
    }

    method MarkCompensated(sagaId: string, now: nat) returns (r: Result<(), SagaError>)
      requires Valid()
      modifies this
      ensures Valid()
      ensures match Load(old(store), sagaId, now)
              case None => r == Err(NotFound) && store == old(store)
              case Some(s) => r == Ok(()) && store == old(store)[sagaId := Entry(MarkedCompensated(s), now + TTL)]
    {
      var loaded := Load(store, sagaId, now);
      if loaded.None? { return Err(NotFound); }
      var saga := loaded.value;
      ghost var s := saga;
      for i := 0 to |saga.steps|
        invariant saga == s.(steps := saga.steps) && |saga.steps| == |s.steps|
        invariant forall k :: 0 <= k < i ==>
          saga.steps[k] == (if s.steps[k].status.COMPENSATING? then s.steps[k].(status := COMPENSATED) else s.steps[k])
        invariant forall k :: i <= k < |s.steps| ==> saga.steps[k] == s.steps[k]
      {
        if saga.steps[i].status == COMPENSATING {
          saga := saga.(steps := saga.steps[i := saga.steps[i].(status := COMPENSATED)]);
        }
      }
      saga := saga.(status := COMPENSATED);
      assert saga.steps == MarkedCompensated(s).steps;
      SaveSaga(saga, now);
      return Ok(());
    }
  }

  /** What is still to be issued once the loop has come down to `c`. */
  ghost function Tail(steps: seq<SagaStep>, c: nat): seq<SagaStep>
    requires c <= |steps|
  {
    var picked := Picked(steps, c);
    seq(|picked|, k requires 0 <= k < |picked| => Compensating(steps[picked[k]], true))
  }

  // ---- What each call comes to ------------------------------------------------------------------------

  /** A fresh saga: its steps as given, none begun. */
  lemma {:induction false} NewSagaIs(id: string, kind: string, specs: seq<StepSpec>)
    ensures var s := NewSaga(id, kind, specs);
            && s.sagaId == id && s.transactionType == kind && s.currentStep == 0
            && s.status == PENDING && s.completedAt == None && |s.steps| == |specs|
            && forall i :: 0 <= i < |specs| ==> s.steps[i] == SagaStep(specs[i], PENDING, None, None)
  {
  }

  /** Both states belong to the same saga: its name, kind and what its steps are to do. */
  ghost predicate SameSaga(s: SagaState, s': SagaState) {
    && s'.sagaId == s.sagaId && s'.transactionType == s.transactionType && |s'.steps| == |s.steps|
    && forall i :: 0 <= i < |s.steps| ==> s'.steps[i].spec == s.steps[i].spec
  }

  /**
   * Executing completes the step at the counter with its result, if there is one there, and moves the
   * counter by one; the saga is completed, with the time, exactly when no step is left.
   */
  lemma {:induction false} ExecuteMeans(s: SagaState, stepResult: string, now: nat)
    ensures var s', c := Executed(s, stepResult, now), s.currentStep;
            && SameSaga(s, s') && s'.currentStep == c + 1
            && (forall i :: 0 <= i < |s.steps| && i != c ==> s'.steps[i] == s.steps[i])
            && (c < |s.steps| ==>
                && s'.steps[c].status == COMPLETED && s'.steps[c].result == Some(stepResult)
                && s'.steps[c].error == s.steps[c].error)
            && (c + 1 < |s.steps| ==> s'.status == s.status && s'.completedAt == s.completedAt)
            && (c + 1 >= |s.steps| ==> s'.status == COMPLETED && s'.completedAt == Some(now))
  {
  }

  /** A failure marks the step at the counter with its error, if there is one there, and the saga as compensating. */
  lemma {:induction false} FailMeans(s: SagaState, error: string)
    ensures var s', c := Failed(s, error), s.currentStep;
            && SameSaga(s, s') && s'.currentStep == c && s'.status == COMPENSATING && s'.completedAt == s.completedAt
            && (forall i :: 0 <= i < |s.steps| && i != c ==> s'.steps[i] == s.steps[i])
            && (c < |s.steps| ==>
                && s'.steps[c].status == FAILED && s'.steps[c].error == Some(error)
                && s'.steps[c].result == s.steps[c].result)
  {
  }

  /** A step that asking for compensations hands out: below the counter, completed, and with a compensation. */
  ghost predicate IsDue(s: SagaState, i: int) {
    0 <= i < |s.steps| && i < s.currentStep && s.steps[i].status == COMPLETED && s.steps[i].spec.compensation != None
  }

  /**
   * Asking for compensations marks the steps that are due, and those alone, and returns them as they
   * stand then, the highest index first; `order` are their indices.
   */
  lemma {:induction false} CompensateMeans(s: SagaState) returns (order: seq<nat>)
    requires s.currentStep <= |s.steps|
    ensures CanCompensate(s)
    ensures var s' := AfterCompensate(s);
            && SameSaga(s, s') && s'.currentStep == s.currentStep && s'.status == s.status
            && s'.completedAt == s.completedAt
            && (forall i :: 0 <= i < |s.steps| ==>
                  s'.steps[i] == if IsDue(s, i) then s.steps[i].(status := COMPENSATING) else s.steps[i])
            && |Issued(s)| == |order|
            && forall k :: 0 <= k < |order| ==> order[k] < |s.steps| && Issued(s)[k] == s'.steps[order[k]]
    ensures forall i: nat :: i in order <==> IsDue(s, i)
    ensures forall j, k :: 0 <= j < k < |order| ==> order[j] > order[k]
  {
    PickedExactly(s.steps, s.currentStep);
    order := Picked(s.steps, s.currentStep);
    forall k | 0 <= k < |order|
      ensures order[k] < |s.steps| && Issued(s)[k] == AfterCompensate(s).steps[order[k]]
    {
      assert order[k] in order;
    }
  }

  /** Marking turns the compensating steps, and the saga, into compensated ones, and changes nothing else. */
  lemma {:induction false} MarkMeans(s: SagaState)
    ensures var s' := MarkedCompensated(s);
            && SameSaga(s, s') && s'.currentStep == s.currentStep && s'.status == COMPENSATED
            && s'.completedAt == s.completedAt
            && forall i :: 0 <= i < |s.steps| ==>
                 s'.steps[i] ==
                   if s.steps[i].status == COMPENSATING then s.steps[i].(status := COMPENSATED) else s.steps[i]
  {
  }

  /** What was saved is found for an hour, and no longer; other sagas are found as before. */
  lemma {:induction false} FoundForAnHour(store: map<string, Entry>, saga: SagaState, savedAt: nat, other: string,
      now: nat)
    ensures var store' := store[saga.sagaId := Entry(saga, savedAt + TTL)];
            && Load(store', saga.sagaId, now) == (if now < savedAt + 3600 then Some(saga) else None)
            && (other != saga.sagaId ==> Load(store', other, now) == Load(store, other, now))
            && (other !in store ==> Load(store, other, now) == None)
  {
  }

  // ---- Rollback -----------------------------------------------------------------------------------

  /** The state after the first `|results|` steps of a fresh saga were executed. */
  ghost function AfterSteps(start: SagaState, results: seq<string>, now: nat): SagaState {
    if results == [] then start
    else Executed(AfterSteps(start, results[..|results| - 1], now), results[|results| - 1], now)
  }

  lemma {:induction false} StepsDone(id: string, kind: string, specs: seq<StepSpec>, results: seq<string>, now: nat)
    requires |results| <= |specs|
    ensures var s := AfterSteps(NewSaga(id, kind, specs), results, now);
            && s.currentStep == |results| && |s.steps| == |specs|
            && forall i :: 0 <= i < |specs| ==>
                 s.steps[i] == if i < |results| then SagaStep(specs[i], COMPLETED, Some(results[i]), None)
                               else SagaStep(specs[i], PENDING, None, None)
  {
    if results != [] { StepsDone(id, kind, specs, results[..|results| - 1], now); }
  }

  /** Run the actions of the first `k` specs. */
  function Forward<W>(act: string -> W -> W, specs: seq<StepSpec>, k: nat, w: W): W
    requires k <= |specs|
    decreases k
  {
    if k == 0 then w else act(specs[k - 1].action)(Forward(act, specs, k - 1, w))
  }

  /** Run the compensations of a list of steps in list order. */
  function Rollback<W>(undo: string -> W -> W, steps: seq<SagaStep>, w: W): W
    requires forall s :: s in steps ==> s.spec.compensation.Some?
  {
    if steps == [] then w
    else
      assert steps[0] in steps;
      Rollback(undo, steps[1..], undo(steps[0].spec.compensation.value)(w))
  }

  /** A step's compensation takes back its action; a step without one changes nothing. */
  ghost predicate Undoable<W(!new)>(act: string -> W -> W, undo: string -> W -> W, spec: StepSpec) {
    forall w: W ::
      match spec.compensation
      case Some(c) => undo(c)(act(spec.action)(w)) == w
      case None => act(spec.action)(w) == w
  }

  lemma {:induction false} TailRollsBack<W(!new)>(act: string -> W -> W, undo: string -> W -> W,
                                                 specs: seq<StepSpec>, steps: seq<SagaStep>, k: nat, w: W)
    requires |steps| == |specs| && k <= |specs|
    requires forall i :: 0 <= i < k ==> steps[i].spec == specs[i] && steps[i].status.COMPLETED?
    requires forall i :: 0 <= i < k ==> Undoable(act, undo, specs[i])
    ensures forall r :: r in Tail(steps, k) ==> r.spec.compensation.Some?
    ensures Rollback(undo, Tail(steps, k), Forward(act, specs, k, w)) == w
    decreases k
  {
    if k > 0 {
      var before := Forward(act, specs, k - 1, w);
      var after := act(specs[k - 1].action)(before);
      assert Forward(act, specs, k, w) == after;
      TailRollsBack(act, undo, specs, steps, k - 1, w);
      assert Undoable(act, undo, specs[k - 1]);
      TailSplit(steps, k);
      if specs[k - 1].compensation.Some? {
        var step := Compensating(steps[k - 1], true);
        assert undo(step.spec.compensation.value)(after) == before;
        assert Tail(steps, k) == [step] + Tail(steps, k - 1);
        assert Tail(steps, k)[0] == step && Tail(steps, k)[1..] == Tail(steps, k - 1);
      } else {
        assert Tail(steps, k) == Tail(steps, k - 1) && after == before;
      }
    }
  }

  lemma {:induction false} TailSplit(steps: seq<SagaStep>, k: nat)
    requires 0 < k <= |steps|
    ensures Tail(steps, k) ==
        (if Eligible(steps[k - 1]) then [Compensating(steps[k - 1], true)] else []) + Tail(steps, k - 1)
  {
  }

  /**
   * Rollback restores the world: execute any number of steps, fail the next one, and apply the list
   * `compensate` returns, in its order.
   */
  lemma {:induction false} RollbackRestores<W(!new)>(act: string -> W -> W, undo: string -> W -> W,
                                                    id: string, kind: string, specs: seq<StepSpec>,
                                                    results: seq<string>, error: string, now: nat, w: W)
    requires |results| <= |specs|
    requires forall i :: 0 <= i < |results| ==> Undoable(act, undo, specs[i])
    ensures var s := Failed(AfterSteps(NewSaga(id, kind, specs), results, now), error);
            && CanCompensate(s)
            && (forall r :: r in Issued(s) ==> r.spec.compensation.Some?)
            && Rollback(undo, Issued(s), Forward(act, specs, |results|, w)) == w
  {
    StepsDone(id, kind, specs, results, now);
    var s := Failed(AfterSteps(NewSaga(id, kind, specs), results, now), error);
    TailRollsBack(act, undo, specs, s.steps, |results|, w);
    assert Issued(s) == Tail(s.steps, |results|);
  }

  /** The picked indices are the completed steps with a compensation, strictly decreasing. */
  lemma {:induction false} PickedExactly(steps: seq<SagaStep>, c: nat)
    requires c <= |steps|
    ensures forall i :: i in Picked(steps, c) <==> 0 <= i < c && Eligible(steps[i])
    ensures forall j, k :: 0 <= j < k < |Picked(steps, c)| ==> Picked(steps, c)[j] > Picked(steps, c)[k]
    decreases c
  {
    if c > 0 { PickedExactly(steps, c - 1); }
  }

  /**
   * After `k` executed steps, a failure, `compensate` and `markCompensated`, exactly the executed
   * steps with a compensation are COMPENSATED, the failed step is FAILED and the later ones PENDING.
   */
  lemma {:induction false} StatusAfterRollback(id: string, kind: string, specs: seq<StepSpec>, results: seq<string>,
      error: string, now: nat)
    requires |results| < |specs|
    ensures var failed := Failed(AfterSteps(NewSaga(id, kind, specs), results, now), error);
            && CanCompensate(failed)
            && var s := MarkedCompensated(AfterCompensate(failed));
            && s.status == COMPENSATED && |s.steps| == |specs|
            && forall i :: 0 <= i < |specs| ==>
                 && s.steps[i].spec == specs[i]
                 && s.steps[i].status ==
                      if i < |results| then (if specs[i].compensation.Some? then COMPENSATED else COMPLETED)
                      else if i == |results| then FAILED
                      else PENDING
  {
    StepsDone(id, kind, specs, results, now);
  }

  // ---- Arbitrary runs -------------------------------------------------------------------------------

  datatype Op = Execute(result: string, at: nat) | Fail(error: string) | Compensate | Mark

  function Apply(s: SagaState, op: Op): SagaState {
    match op
    case Execute(result, at) => Executed(s, result, at)
    case Fail(error) => Failed(s, error)
    case Compensate => if CanCompensate(s) then AfterCompensate(s) else s
    case Mark => MarkedCompensated(s)
  }

  function IssuedBy(s: SagaState, op: Op): seq<nat> {
    if op.Compensate? && CanCompensate(s) then Picked(s.steps, s.currentStep) else []
  }

  function After(s: SagaState, ops: seq<Op>): SagaState {
    if ops == [] then s else Apply(After(s, ops[..|ops| - 1]), ops[|ops| - 1])
  }

  /** The indices whose compensation was issued, call after call. */
  function AllIssued(s: SagaState, ops: seq<Op>): seq<nat> {
    if ops == [] then []
    else AllIssued(s, ops[..|ops| - 1]) + IssuedBy(After(s, ops[..|ops| - 1]), ops[|ops| - 1])
  }

  predicate IssuedAt(s: SagaState, i: nat) {
    i < s.currentStep && i < |s.steps| && (s.steps[i].status.COMPENSATING? || s.steps[i].status.COMPENSATED?)
  }

  lemma {:induction false} StaysIssued(s: SagaState, op: Op, i: nat)
    requires IssuedAt(s, i)
    ensures IssuedAt(Apply(s, op), i)
  {
  }

  /** In every run from a fresh saga: issued steps lie below the counter and never count as completed again. */
  lemma {:induction false} IssuedStayIssued(id: string, kind: string, specs: seq<StepSpec>, ops: seq<Op>)
    ensures var s := After(NewSaga(id, kind, specs), ops);
            && |s.steps| == |specs|
            && forall i :: i in AllIssued(NewSaga(id, kind, specs), ops) ==> IssuedAt(s, i)
  {
    if ops != [] {
      var start, front := NewSaga(id, kind, specs), ops[..|ops| - 1];
      IssuedStayIssued(id, kind, specs, front);
      var s, op := After(start, front), ops[|ops| - 1];
      if op.Compensate? && CanCompensate(s) { PickedExactly(s.steps, s.currentStep); }
      forall i | i in AllIssued(start, ops)
        ensures IssuedAt(After(start, ops), i)
      {
        if i in AllIssued(start, front) { StaysIssued(s, op, i); }
      }
    }
  }

  /** In every run, legal or not, each step's compensation is issued at most once. */
  lemma {:induction false} IssuedOnce(id: string, kind: string, specs: seq<StepSpec>, ops: seq<Op>)
    ensures Distinct(AllIssued(NewSaga(id, kind, specs), ops))
  {
    if ops != [] {
      var start, front := NewSaga(id, kind, specs), ops[..|ops| - 1];
      var s, op := After(start, front), ops[|ops| - 1];
      IssuedOnce(id, kind, specs, front);
      IssuedStayIssued(id, kind, specs, front);
      if op.Compensate? && CanCompensate(s) { PickedExactly(s.steps, s.currentStep); }
      DistinctConcat(AllIssued(start, front), IssuedBy(s, op));
    }
  }

  /** The counter never goes back. */
  lemma {:induction false} CounterNeverDecreases(s: SagaState, ops: seq<Op>, i: nat)
    requires i <= |ops|
    ensures After(s, ops[..i]).currentStep <= After(s, ops).currentStep
    decreases |ops|
  {
    if i < |ops| {
      assert ops[..|ops| - 1][..i] == ops[..i];
      CounterNeverDecreases(s, ops[..|ops| - 1], i);
    } else {
      assert ops[..i] == ops;
    }
  }

  // ---- Guarded runs -----------------------------------------------------------------------------------

  /** Execute and fail happen only while the saga is PENDING; compensate and mark may happen any time. */
  ghost predicate Guarded(s: SagaState, ops: seq<Op>) {
    ops == [] ||
    (var front := ops[..|ops| - 1];
     && Guarded(s, front)
     && (ops[|ops| - 1].Execute? || ops[|ops| - 1].Fail? ==> After(s, front).status.PENDING?))
  }

  ghost predicate BelowCompleted(s: SagaState) {
    forall i :: 0 <= i < |s.steps| && i < s.currentStep ==> s.steps[i].status.COMPLETED?
  }

  ghost predicate AllCompleted(s: SagaState) {
    forall i :: 0 <= i < |s.steps| ==> s.steps[i].status.COMPLETED?
  }

  /** The shape of a saga in guarded runs; `issued` are the compensations issued, `marked` whether it was marked. */
  ghost predicate GuardedShape(s: SagaState, issued: seq<nat>, marked: bool) {
    var n := |s.steps|;
    && s.currentStep <= n
    && (forall i :: s.currentStep < i < n ==> s.steps[i].status.PENDING?)
    && (forall i :: 0 <= i < s.currentStep ==> (s.steps[i].status.COMPLETED? <==> i !in issued))
    && (forall i :: i in issued ==>
          i < s.currentStep && (s.steps[i].status.COMPENSATING? || s.steps[i].status.COMPENSATED?))
    && (if s.currentStep == n then s.status == if marked then COMPENSATED else COMPLETED
        else
          var current := s.steps[s.currentStep].status;
          && (current.PENDING? || current.FAILED?)
          && !s.status.COMPLETED?
          && (s.status.PENDING? ==> current.PENDING? && !marked))
  }

  lemma {:induction false} GuardedStep(s: SagaState, issued: seq<nat>, marked: bool, op: Op)
    requires s.steps != [] && GuardedShape(s, issued, marked)
    requires op.Execute? || op.Fail? ==> s.status.PENDING?
    ensures GuardedShape(Apply(s, op), issued + IssuedBy(s, op), marked || op.Mark?)
  {
    if op.Compensate? { PickedExactly(s.steps, s.currentStep); }
  }

  /** What guarded runs keep of a saga with at least one step. */
  lemma {:induction false} GuardedRun(id: string, kind: string, specs: seq<StepSpec>, ops: seq<Op>)
    requires specs != [] && Guarded(NewSaga(id, kind, specs), ops)
    ensures |After(NewSaga(id, kind, specs), ops).steps| == |specs|
    ensures GuardedShape(After(NewSaga(id, kind, specs), ops), AllIssued(NewSaga(id, kind, specs), ops), Mark in ops)
  {
    var start := NewSaga(id, kind, specs);
    CompensateThrowsIff(id, kind, specs, ops);
    if ops != [] {
      var front, op := ops[..|ops| - 1], ops[|ops| - 1];
      assert ops == front + [op];
      GuardedRun(id, kind, specs, front);
      GuardedStep(After(start, front), AllIssued(start, front), Mark in front, op);
    }
  }

  /** In a guarded run the steps below the counter are COMPLETED exactly until a compensation is issued. */
  lemma {:induction false} BelowCompletedIff(id: string, kind: string, specs: seq<StepSpec>, ops: seq<Op>)
    requires specs != [] && Guarded(NewSaga(id, kind, specs), ops)
    ensures BelowCompleted(After(NewSaga(id, kind, specs), ops)) <==> AllIssued(NewSaga(id, kind, specs), ops) == []
  {
    GuardedRun(id, kind, specs, ops);
    IssuedStayIssued(id, kind, specs, ops);
    var issued := AllIssued(NewSaga(id, kind, specs), ops);
    if issued != [] { assert issued[0] in issued; }
  }

  /**
   * In a guarded run "the saga is COMPLETED iff all its steps are" holds exactly when the counter has
   * not reached the end, or compensations were issued and the saga was marked, or neither happened.
   */
  lemma {:induction false} CompletedIffAllSteps(id: string, kind: string, specs: seq<StepSpec>, ops: seq<Op>)
    requires specs != [] && Guarded(NewSaga(id, kind, specs), ops)
    ensures var s := After(NewSaga(id, kind, specs), ops);
            var issued := AllIssued(NewSaga(id, kind, specs), ops);
            (s.status.COMPLETED? <==> AllCompleted(s))
            <==> (s.currentStep < |specs| || (issued == [] <==> Mark !in ops))
  {
    GuardedRun(id, kind, specs, ops);
    BelowCompletedIff(id, kind, specs, ops);
  }

  /** A guarded run on which the plain claim fails: finish the only step, then ask for compensations. */
  lemma {:induction false} CompensateAfterCompletion(id: string, kind: string, now: nat)
    ensures var specs := [StepSpec("a", "do", Some("undo"))];
            var ops := [Execute("ok", now), Compensate];
            var s := After(NewSaga(id, kind, specs), ops);
            Guarded(NewSaga(id, kind, specs), ops) && s.status.COMPLETED? && !AllCompleted(s)
  {
    var start := NewSaga(id, kind, [StepSpec("a", "do", Some("undo"))]);
    var e, c := Execute("ok", now), Compensate;
    assert [e, c][..1] == [e] && [e][..0] == [];
    assert After(start, []) == start;
    assert After(start, [e]) == Executed(start, "ok", now);
    assert After(start, [e, c]) == AfterCompensate(Executed(start, "ok", now));
    assert AfterCompensate(Executed(start, "ok", now)).steps[0].status.COMPENSATING?;
  }

  /** `compensate` throws exactly when `executeStep` was called more often than there are steps. */
  lemma {:induction false} CompensateThrowsIff(id: string, kind: string, specs: seq<StepSpec>, ops: seq<Op>)
    ensures After(NewSaga(id, kind, specs), ops).currentStep == Executes(ops)
    ensures |After(NewSaga(id, kind, specs), ops).steps| == |specs|
    ensures CanCompensate(After(NewSaga(id, kind, specs), ops)) <==> Executes(ops) <= |specs|
  {
    if ops != [] { CompensateThrowsIff(id, kind, specs, ops[..|ops| - 1]); }
  }

  /** One execute too many on a saga of one step, and `compensate` throws. */
  lemma {:induction false} OverrunThrows(id: string, kind: string, spec: StepSpec, now: nat)
    ensures var ops := [Execute("ok", now), Execute("ok", now)];
            var s := After(NewSaga(id, kind, [spec]), ops);
            s.currentStep == 2 && !CanCompensate(s)
  {
    var ops := [Execute("ok", now), Execute("ok", now)];
    assert ops[..1] == [Execute("ok", now)] && ops[..1][..0] == [];
    assert Executes([]) == 0 && Executes(ops[..1]) == 1 && Executes(ops) == 2;
    CompensateThrowsIff(id, kind, [spec], ops);
  }

  function Executes(ops: seq<Op>): nat {
    if ops == [] then 0 else Executes(ops[..|ops| - 1]) + if ops[|ops| - 1].Execute? then 1 else 0
  }
}
