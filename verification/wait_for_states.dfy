/**
 The settlement waiter `WaitForStatesToUpdate`: it asks the vault which of the supplied state references
 are not yet consumed and hands back a future that completes once every one of them has been consumed.

 Futures are modelled explicitly: `execute` returns a `WaitFuture` (already done, or the all-of join of one
 `whenConsumed` subscription per unconsumed reference), and a `Waiter` is the completion state of that future,
 driven by consumption events.
 */
module WaitForStates {
  import opened Wrappers
  import opened Ledger

  /** One row of the vault's answer: the state's reference and, once consumed, the time it was consumed. */
  datatype StateMetadata = StateMetadata(ref: StateRef, consumedTime: Option<Instant>)

  /** The vault query `execute` issues: a query restricted to the given state references. */
  datatype VaultQueryCriteria = VaultQueryCriteria(stateRefs: set<StateRef>)

  /** The future `execute` returns: already completed, or the join of one `whenConsumed` future per listed reference. */
  datatype WaitFuture = DoneFuture | AllOf(subscriptions: seq<StateRef>)

  /** True when the vault row has no consumption time, that is, the state is still unconsumed. */
  predicate Unconsumed(m: StateMetadata) {
    m.consumedTime.None?
  }

  /** The positions of the vault rows that are still unconsumed and refer to `r`. */
  function UnconsumedRowsOf(results: seq<StateMetadata>, r: StateRef): set<int>
  {
    set i | 0 <= i < |results| && Unconsumed(results[i]) && results[i].ref == r
  }

  /** `refs` holds each reference once per unconsumed row of `results` that refers to it, and nothing else. */
  ghost predicate CountsUnconsumedRows(results: seq<StateMetadata>, refs: seq<StateRef>) {
    forall r :: multiset(refs)[r] == |UnconsumedRowsOf(results, r)|
  }

  /** Counting matching rows splits into the rows before the last one and the last one. */
  lemma UnconsumedRowsOfLast(results: seq<StateMetadata>, r: StateRef)
    requires results != []
    ensures var last := results[|results| - 1];
            |UnconsumedRowsOf(results, r)|
            == |UnconsumedRowsOf(results[..|results| - 1], r)| + (if Unconsumed(last) && last.ref == r then 1 else 0)
  {
    var n := |results| - 1;
    var front := UnconsumedRowsOf(results[..n], r);
    assert UnconsumedRowsOf(results, r) - {n} == front;
    if Unconsumed(results[n]) && results[n].ref == r {
      assert UnconsumedRowsOf(results, r) == front + {n};
    } else {
      assert UnconsumedRowsOf(results, r) == front;
    }
  }

  /** Keeping the last row's reference when it is unconsumed extends a count of the earlier rows to all rows. */
  lemma CountsUnconsumedRowsLast(results: seq<StateMetadata>, front: seq<StateRef>)
    requires results != []
    requires CountsUnconsumedRows(results[..|results| - 1], front)
    ensures var last := results[|results| - 1];
            CountsUnconsumedRows(results, if Unconsumed(last) then front + [last.ref] else front)
  {
    forall r {
      UnconsumedRowsOfLast(results, r);
    }
  }

  /** The references of the rows that are not yet consumed, in the vault's order, one per such row. */
  function NotYetConsumed(results: seq<StateMetadata>): (refs: seq<StateRef>)
    ensures |refs| <= |results|
    ensures |refs| == |results| <==> forall i :: 0 <= i < |results| ==> Unconsumed(results[i])
    ensures refs == [] <==> forall i :: 0 <= i < |results| ==> !Unconsumed(results[i])
    ensures forall i :: 0 <= i < |results| && Unconsumed(results[i]) ==> results[i].ref in refs
    ensures forall r :: r in refs ==> exists i :: 0 <= i < |results| && Unconsumed(results[i]) && results[i].ref == r
    ensures forall r :: multiset(refs)[r] == |UnconsumedRowsOf(results, r)|
  {
    if results == [] then
      assert forall r :: UnconsumedRowsOf(results, r) == {};
      []
    else
      var n := |results| - 1;
      var front := NotYetConsumed(results[..n]);
      assert forall i :: 0 <= i < n ==> results[i] == results[..n][i];
      CountsUnconsumedRowsLast(results, front);
      if Unconsumed(results[n]) then front + [results[n].ref] else front
  }

  /**
   `execute()`: query the vault for exactly `stateRefs`, keep the unconsumed rows, and either return an already
   completed future (nothing left to wait for) or subscribe once per remaining row and join the subscriptions.
   */
  function Execute(stateRefs: set<StateRef>, queryBy: VaultQueryCriteria -> seq<StateMetadata>): (f: WaitFuture)
    ensures f.DoneFuture? <==> forall m :: m in queryBy(VaultQueryCriteria(stateRefs)) ==> !Unconsumed(m)
    ensures f.AllOf? ==> 0 < |f.subscriptions| <= |queryBy(VaultQueryCriteria(stateRefs))|
    ensures f.AllOf? ==> forall m :: m in queryBy(VaultQueryCriteria(stateRefs)) && Unconsumed(m) ==> m.ref in f.subscriptions
    ensures f.AllOf? ==> forall r :: r in f.subscriptions ==>
              exists m :: m in queryBy(VaultQueryCriteria(stateRefs)) && Unconsumed(m) && m.ref == r
    ensures f.AllOf? ==> forall r :: multiset(f.subscriptions)[r] == |UnconsumedRowsOf(queryBy(VaultQueryCriteria(stateRefs)), r)|
  {
    var results := queryBy(VaultQueryCriteria(stateRefs));
    var notYetConsumed := NotYetConsumed(results);
    if notYetConsumed == [] then DoneFuture else AllOf(notYetConsumed)
  }

  /** The waiter consults the vault only through the query for the supplied references. */
  lemma ExecuteDependsOnlyOnQueriedRefs(stateRefs: set<StateRef>,
                                        queryBy: VaultQueryCriteria -> seq<StateMetadata>,
                                        queryBy': VaultQueryCriteria -> seq<StateMetadata>)
    requires queryBy(VaultQueryCriteria(stateRefs)) == queryBy'(VaultQueryCriteria(stateRefs))
    ensures Execute(stateRefs, queryBy) == Execute(stateRefs, queryBy')
  {
  }

  /** Completion state of the future `execute` returned: the references whose `whenConsumed` future is outstanding. */
  datatype Waiter = Waiter(pending: set<StateRef>)

  /** The state of a freshly returned future: nothing pending for the done future, every subscription otherwise. */
  function Subscribe(f: WaitFuture): (w: Waiter)
    ensures f.DoneFuture? ==> w.pending == {}
    ensures f.AllOf? ==> forall r :: r in w.pending <==> r in f.subscriptions
  {
    match f
    case DoneFuture => Waiter({})
    case AllOf(subscriptions) => Waiter(set r | r in subscriptions)
  }

  /** The joined future is complete exactly when no subscription is outstanding. */
  predicate IsDone(w: Waiter) {
    w.pending == {}
  }

  /** The vault reports `r` consumed: its `whenConsumed` futures complete and every other one is unaffected. */
  function OnConsumed(w: Waiter, r: StateRef): (w': Waiter)
    ensures r !in w'.pending
    ensures w'.pending <= w.pending
    ensures forall q :: q != r && q in w.pending ==> q in w'.pending
  {
    Waiter(w.pending - {r})
  }

  /** A sequence of consumption events delivered in order. */
  function Deliver(w: Waiter, events: seq<StateRef>): (w': Waiter)
    ensures w'.pending <= w.pending
    ensures forall e :: e in events ==> e !in w'.pending
    decreases |events|
  {
    if events == [] then w else Deliver(OnConsumed(w, events[0]), events[1..])
  }

  /** After a sequence of events, exactly the subscriptions no event named are still outstanding. */
  lemma {:induction false} DeliverLeavesUnnamed(w: Waiter, events: seq<StateRef>)
    ensures Deliver(w, events).pending == w.pending - set e | e in events
    decreases |events|
  {
    if events != [] {
      DeliverLeavesUnnamed(OnConsumed(w, events[0]), events[1..]);
      assert forall e :: e in events <==> e == events[0] || e in events[1..];
    }
  }

  /** The join completes exactly when every subscribed reference has been reported consumed (logical AND). */
  lemma AllOfCompletesIffAllConsumed(w: Waiter, events: seq<StateRef>)
    ensures IsDone(Deliver(w, events)) <==> forall r :: r in w.pending ==> r in events
  {
    DeliverLeavesUnnamed(w, events);
    if !IsDone(Deliver(w, events)) {
      var r :| r in Deliver(w, events).pending;
      assert r in w.pending && r !in events;
    }
  }

  /** Leaving any single subscription unresolved keeps the joined future incomplete, however many others complete. */
  lemma OnePendingKeepsIncomplete(w: Waiter, events: seq<StateRef>, r: StateRef)
    requires r in w.pending && r !in events
    ensures !IsDone(Deliver(w, events))
    ensures r in Deliver(w, events).pending
  {
    DeliverLeavesUnnamed(w, events);
  }

  /** A completed future stays complete whatever is consumed afterwards. */
  lemma DoneIsStable(w: Waiter, events: seq<StateRef>)
    requires IsDone(w)
    ensures IsDone(Deliver(w, events))
  {
    DeliverLeavesUnnamed(w, events);
  }

  /** The value of the joined future: `Unit` once complete, nothing before. The waiter carries no other payload. */
  function Get(w: Waiter): (v: Option<()>)
    ensures v.Some? <==> w.pending == {}
  {
    if IsDone(w) then Some(()) else None
  }

  /**
   The whole waiter: after `execute` and a sequence of consumption events, the future has completed exactly
   when every row the vault reported unconsumed has been consumed. The fast path is the case with no such row.
   */
  lemma WaitCompletesIffUnconsumedSettled(stateRefs: set<StateRef>,
                                          queryBy: VaultQueryCriteria -> seq<StateMetadata>,
                                          events: seq<StateRef>)
    ensures IsDone(Deliver(Subscribe(Execute(stateRefs, queryBy)), events)) <==>
            forall m :: m in queryBy(VaultQueryCriteria(stateRefs)) && Unconsumed(m) ==> m.ref in events
  {
    var results := queryBy(VaultQueryCriteria(stateRefs));
    var w := Subscribe(Execute(stateRefs, queryBy));
    AllOfCompletesIffAllConsumed(w, events);
    forall r | r in w.pending
      ensures exists m :: m in results && Unconsumed(m) && m.ref == r
    {
    }
  }
}
