/**
 `WithReferencedStatesFlow`: runs a wrapped flow as a sub-flow; if the notary rejects it with a conflict, waits
 for the conflicting reference states to be consumed and runs the wrapped flow exactly once more.

 The wrapped flow is an oracle indexed by attempt number (1 and 2); `Call` returns the trace of what the flow did
 (sub-flow starts and the settlement wait) together with its final outcome.
 */
module ReferencedStatesFlow {
  import opened Ledger
  import WaitForStates

  /** The error a `NotaryException` carries: a uniqueness conflict with its consumed states, or any other notary error. */
  datatype NotaryError =
    | Conflict(txId: SecureHash, consumedStates: map<StateRef, StateConsumptionDetails>)
    | OtherNotaryError(code: nat)

  /** What a sub-flow may throw. `NotaryException` and `OtherFlowException` are `FlowException`s; `NonFlowException` is not. */
  datatype FlowError =
    | NotaryException(error: NotaryError)
    | OtherFlowException(message: string)
    | NonFlowException(message: string)

  /** True for the exceptions `call` catches. */
  predicate IsFlowException(e: FlowError) {
    !e.NonFlowException?
  }

  /** One run of the wrapped flow: it returns a value or throws. */
  datatype Attempt<T> = Returned(value: T) | Raised(error: FlowError)

  /** True when the attempt failed with a notary `Conflict`, the one failure `call` recovers from. */
  predicate IsNotaryConflict<T>(a: Attempt<T>) {
    a.Raised? && a.error.NotaryException? && a.error.error.Conflict?
  }

  /** The private `FlowResult` of `call`: the first attempt's value, or the reference states to wait for. */
  datatype FlowResult<T> = Success(value: T) | ConflictResult(stateRefs: set<StateRef>)

  /** The `when` over the caught first result: carry on with a `FlowResult`, or rethrow. */
  datatype Processed<T> = Proceed(result: FlowResult<T>) | Rethrow(error: FlowError)

  /** What `call` did, in order: start the sub-flow (attempt 1 or 2), or wait for state references to be updated. */
  datatype Event = SubFlowStarted(attempt: nat) | WaitedForStates(stateRefs: set<StateRef>)

  /** How `call` ends: it returns a value or an exception escapes it. */
  datatype Outcome<T> = Returns(value: T) | Throws(error: FlowError)

  datatype Run<T> = Run(trace: seq<Event>, outcome: Outcome<T>)

  /** The references whose conflict was a reference-input use; entries for ordinary inputs are dropped, not fatal. */
  function ReferenceInputRefs(consumedStates: map<StateRef, StateConsumptionDetails>): (refs: set<StateRef>)
    ensures refs <= consumedStates.Keys
    ensures forall r :: r in refs ==> consumedStates[r].consumedType != INPUT_STATE
    ensures refs == {} <==> forall r :: r in consumedStates ==> consumedStates[r].consumedType == INPUT_STATE
  {
    var refs := set r | r in consumedStates && consumedStates[r].consumedType == REFERENCE_INPUT_STATE;
    assert forall r :: r in consumedStates && consumedStates[r].consumedType != INPUT_STATE ==> r in refs;
    refs
  }

  /** The conflict keys split into the reference-input refs and the ordinary-input refs, with nothing lost. */
  lemma ReferenceInputRefsPartition(consumedStates: map<StateRef, StateConsumptionDetails>)
    ensures ReferenceInputRefs(consumedStates) + (set r | r in consumedStates && consumedStates[r].consumedType == INPUT_STATE)
            == consumedStates.Keys
    ensures ReferenceInputRefs(consumedStates) !! (set r | r in consumedStates && consumedStates[r].consumedType == INPUT_STATE)
  {
  }

  /** Lifting a sub-flow attempt that is not caught into `call`'s own outcome. */
  function Propagate<T>(a: Attempt<T>): (o: Outcome<T>)
    ensures o.Returns? <==> a.Returned?
    ensures a.Returned? ==> o.value == a.value
    ensures a.Raised? ==> o.error == a.error
  {
    match a
    case Returned(v) => Returns(v)
    case Raised(e) => Throws(e)
  }

  /**
   The `when` of `call` over a caught first result: a notary `Conflict` yields the reference-input refs, any other
   `NotaryException` or `FlowException` is rethrown unchanged, and a value is a success.
   */
  function ProcessResult<T>(first: Attempt<T>): (p: Processed<T>)
    requires first.Raised? ==> IsFlowException(first.error)
    ensures p.Proceed? && p.result.Success? <==> first.Returned?
    ensures p.Proceed? && p.result.Success? ==> p.result.value == first.value
    ensures p.Proceed? && p.result.ConflictResult? <==> IsNotaryConflict(first)
    ensures p.Proceed? && p.result.ConflictResult? ==>
              p.result.stateRefs == ReferenceInputRefs(first.error.error.consumedStates)
    ensures p.Rethrow? ==> first == Raised(p.error) && !IsNotaryConflict(first)
  {
    match first
    case Raised(NotaryException(Conflict(_, consumedStates))) => Proceed(ConflictResult(ReferenceInputRefs(consumedStates)))
    case Raised(NotaryException(error)) => Rethrow(NotaryException(error))
    case Raised(e) => Rethrow(e)
    case Returned(v) => Proceed(Success(v))
  }

  /**
   `call()`: start the sub-flow; a non-`FlowException` escapes at once; otherwise process the result and either
   return, rethrow, or wait for the conflicting reference states and return whatever a second sub-flow gives.
   */
  function Call<T>(subFlow: nat -> Attempt<T>): (run: Run<T>)
    ensures |run.trace| == 1 || |run.trace| == 3
    ensures run.trace[0] == SubFlowStarted(1)
    ensures |run.trace| == 3 <==> IsNotaryConflict(subFlow(1))
    ensures subFlow(1).Returned? ==> run.outcome == Returns(subFlow(1).value)
    ensures subFlow(1).Raised? && !IsNotaryConflict(subFlow(1)) ==> run.outcome == Throws(subFlow(1).error)
    ensures IsNotaryConflict(subFlow(1)) ==>
              && run.trace[1] == WaitedForStates(ReferenceInputRefs(subFlow(1).error.error.consumedStates))
              && run.trace[2] == SubFlowStarted(2)
              && run.outcome == Propagate(subFlow(2))
  {
    var first := subFlow(1);
    if first.Raised? && !IsFlowException(first.error) then
      Run([SubFlowStarted(1)], Throws(first.error))
    else
      match ProcessResult(first)
      case Rethrow(e) => Run([SubFlowStarted(1)], Throws(e))
      case Proceed(Success(v)) => Run([SubFlowStarted(1)], Returns(v))
      case Proceed(ConflictResult(stateRefs)) =>
        Run([SubFlowStarted(1), WaitedForStates(stateRefs), SubFlowStarted(2)], Propagate(subFlow(2)))
  }

  /** Number of sub-flow starts in a trace. */
  function SubFlowStarts(trace: seq<Event>): nat
  {
    if trace == [] then 0 else (if trace[0].SubFlowStarted? then 1 else 0) + SubFlowStarts(trace[1..])
  }

  /** Number of waits in a trace. */
  function Waits(trace: seq<Event>): nat
  {
    if trace == [] then 0 else (if trace[0].WaitedForStates? then 1 else 0) + Waits(trace[1..])
  }

  /**
   There is no retry loop: the wrapped flow is started at most twice, only as attempts 1 and 2, there is at
   most one wait, and a second start happens exactly when there was a wait, after it.
   */
  lemma AtMostOneRetry<T>(subFlow: nat -> Attempt<T>)
    ensures SubFlowStarts(Call(subFlow).trace) <= 2
    ensures Waits(Call(subFlow).trace) <= 1
    ensures SubFlowStarts(Call(subFlow).trace) == 2 <==> Waits(Call(subFlow).trace) == 1
    ensures forall i :: 0 <= i < |Call(subFlow).trace| && Call(subFlow).trace[i].SubFlowStarted? ==>
              Call(subFlow).trace[i].attempt == i / 2 + 1
    ensures forall i, j :: 0 <= i < j < |Call(subFlow).trace| && Call(subFlow).trace[j] == SubFlowStarted(2) ==>
              (Call(subFlow).trace[i].WaitedForStates? <==> i == j - 1)
  {
    var t := Call(subFlow).trace;
    if |t| == 3 {
      assert t[1..][1..][1..] == [];
      assert SubFlowStarts(t[1..][1..]) == 1 && Waits(t[1..][1..]) == 0;
      assert SubFlowStarts(t[1..]) == 1 && Waits(t[1..]) == 1;
    } else {
      assert t[1..] == [];
    }
  }

  /** A successful first attempt is the answer: no wait, no second attempt, whatever attempt 2 would do. */
  lemma FirstSuccessIsFinal<T>(subFlow: nat -> Attempt<T>, subFlow': nat -> Attempt<T>)
    requires subFlow(1).Returned? && subFlow'(1) == subFlow(1)
    ensures Call(subFlow) == Call(subFlow')
    ensures Call(subFlow) == Run([SubFlowStarted(1)], Returns(subFlow(1).value))
  {
  }

  /** Every failure of the first attempt other than a notary conflict escapes unchanged, with no wait or retry. */
  lemma NonConflictFailureIsRethrown<T>(subFlow: nat -> Attempt<T>)
    requires subFlow(1).Raised? && !IsNotaryConflict(subFlow(1))
    ensures Call(subFlow) == Run([SubFlowStarted(1)], Throws(subFlow(1).error))
  {
  }

  /**
   A conflict caused only by ordinary inputs still leads to a wait (over the empty set) and a second attempt;
   the ordinary-input entries are not treated as fatal.
   */
  lemma OrdinaryInputConflictStillRetries<T>(subFlow: nat -> Attempt<T>)
    requires IsNotaryConflict(subFlow(1))
    requires forall r :: r in subFlow(1).error.error.consumedStates ==>
               subFlow(1).error.error.consumedStates[r].consumedType == INPUT_STATE
    ensures Call(subFlow).trace == [SubFlowStarted(1), WaitedForStates({}), SubFlowStarted(2)]
    ensures Call(subFlow).outcome == Propagate(subFlow(2))
  {
  }

  /** Where the flow is as a suspendable computation: parked on the waiter's future, or finished. */
  datatype FlowState<T> = Parked(waiter: WaitForStates.Waiter) | Finished(outcome: Outcome<T>)

  /**
   The flow as the state machine sees it after the consumption `events` have been delivered: if `call` waited, it
   stays parked on the waiter's joined future until that completes, and only then does the second attempt decide
   the outcome.
   */
  function Drive<T>(subFlow: nat -> Attempt<T>,
                    queryBy: WaitForStates.VaultQueryCriteria -> seq<WaitForStates.StateMetadata>,
                    events: seq<StateRef>): (st: FlowState<T>)
    ensures !IsNotaryConflict(subFlow(1)) ==> st.Finished?
    ensures st.Finished? ==> st.outcome == Call(subFlow).outcome
    ensures st.Parked? ==> IsNotaryConflict(subFlow(1)) && st.waiter.pending != {}
    ensures st.Parked? ==> forall e :: e in events ==> e !in st.waiter.pending
  {
    var run := Call(subFlow);
    if |run.trace| == 1 then Finished(run.outcome)
    else
      var waiter := WaitForStates.Deliver(WaitForStates.Subscribe(WaitForStates.Execute(run.trace[1].stateRefs, queryBy)), events);
      if WaitForStates.IsDone(waiter) then Finished(run.outcome) else Parked(waiter)
  }

  /**
   Composition of the flow with its waiter: the flow finishes exactly when there was no conflict or every reference
   the vault reported unconsumed (for the reference-input refs) has since been consumed; when it finishes, its
   outcome is that of `call`.
   */
  lemma DriveFinishesIffSettled<T>(subFlow: nat -> Attempt<T>,
                                   queryBy: WaitForStates.VaultQueryCriteria -> seq<WaitForStates.StateMetadata>,
                                   events: seq<StateRef>)
    ensures Drive(subFlow, queryBy, events).Finished? <==>
            (!IsNotaryConflict(subFlow(1)) ||
             var refs := ReferenceInputRefs(subFlow(1).error.error.consumedStates);
             forall m :: m in queryBy(WaitForStates.VaultQueryCriteria(refs)) && WaitForStates.Unconsumed(m) ==> m.ref in events)
    ensures Drive(subFlow, queryBy, events).Finished? ==> Drive(subFlow, queryBy, events).outcome == Call(subFlow).outcome
  {
    if IsNotaryConflict(subFlow(1)) {
      var refs := ReferenceInputRefs(subFlow(1).error.error.consumedStates);
      WaitForStates.WaitCompletesIffUnconsumedSettled(refs, queryBy, events);
    }
  }

  /**
   A conflicting reference state that the vault reports unconsumed and that is never consumed keeps the flow
   parked for good: the second attempt never runs.
   */
  lemma UnsettledReferenceKeepsFlowParked<T>(subFlow: nat -> Attempt<T>,
                                             queryBy: WaitForStates.VaultQueryCriteria -> seq<WaitForStates.StateMetadata>,
                                             events: seq<StateRef>,
                                             m: WaitForStates.StateMetadata)
    requires IsNotaryConflict(subFlow(1))
    requires m in queryBy(WaitForStates.VaultQueryCriteria(ReferenceInputRefs(subFlow(1).error.error.consumedStates)))
    requires WaitForStates.Unconsumed(m) && m.ref !in events
    ensures Drive(subFlow, queryBy, events).Parked?
    ensures m.ref in Drive(subFlow, queryBy, events).waiter.pending
  {
    DriveFinishesIffSettled(subFlow, queryBy, events);
    var refs := ReferenceInputRefs(subFlow(1).error.error.consumedStates);
    var w := WaitForStates.Subscribe(WaitForStates.Execute(refs, queryBy));
    assert m.ref in w.pending;
    WaitForStates.OnePendingKeepsIncomplete(w, events, m.ref);
  }
}
