/** `WorkspaceAbortCleanup` of `src/workspace.ts`: the promise that tells a
    timed-out run that its Git commands and staging removals are over.

    The object reacts to events; the runtime decides their order.  `Step` is one
    event, the class performs it field by field, and the lemmas speak about every
    sequence of events. */
module AbortCleanup {

  /** The identity of a tracked promise. */
  type Operation = nat

  datatype Event =
    | Abort                  // the signal fires
    | Finish                 // the preparation reports its end
    | Track(op: Operation)
    | Settles(op: Operation) // the operation's own promise settles
    | Reaction(op: Operation)  // a completion callback registered on it runs
    | Immediate              // the runtime runs a queued setImmediate callback

  /** The object's fields, then what the runtime holds for it. */
  datatype State = State(
    active: set<Operation>,
    aborted: bool,
    finished: bool,
    settleQueued: bool,
    settled: bool,
    listening: bool,
    immediates: nat,
    reactions: multiset<Operation>,
    signalled: bool,
    done: set<Operation>,
    tracked: set<Operation>,
    resolutions: nat)

  function Initial(signalAborted: bool): State {
    QueueSettled(State({}, signalAborted, false, false, false, true, 0, multiset{}, signalAborted, {}, {}, 0))
  }

  predicate MaySettle(s: State) {
    !s.settled && (s.aborted || s.finished) && s.active == {}
  }

  /** A settle check is queued unless it is pointless or queued already. */
  function QueueSettled(s: State): State {
    if !MaySettle(s) || s.settleQueued then s
    else s.(settleQueued := true, immediates := s.immediates + 1)
  }

  /** What the runtime can do in a state. */
  predicate Enabled(s: State, e: Event) {
    match e
    case Abort => !s.signalled
    case Finish => true
    case Track(_) => true
    case Settles(op) => op !in s.done
    case Reaction(op) => op in s.done && op in s.reactions
    case Immediate => 0 < s.immediates
  }

  function Step(s: State, e: Event): State
    requires Enabled(s, e)
  {
    match e
    case Abort =>
      if s.listening then QueueSettled(s.(signalled := true, listening := false, aborted := true))
      else s.(signalled := true)
    case Finish => QueueSettled(s.(finished := true))
    case Track(op) =>
      if s.settled then s
      else s.(active := s.active + {op}, reactions := s.reactions + multiset{op}, tracked := s.tracked + {op})
    case Settles(op) => s.(done := s.done + {op})
    case Reaction(op) => QueueSettled(s.(active := s.active - {op}, reactions := s.reactions - multiset{op}))
    case Immediate =>
      var t := s.(immediates := s.immediates - 1, settleQueued := false);
      if MaySettle(t) then t.(settled := true, listening := false, resolutions := t.resolutions + 1) else t
  }

  /** A run is a sequence of events, each enabled when it happens. */
  predicate IsRun(s: State, events: seq<Event>)
    decreases |events|
  {
    events == [] || (Enabled(s, events[0]) && IsRun(Step(s, events[0]), events[1..]))
  }

  function After(s: State, events: seq<Event>): State
    requires IsRun(s, events)
    decreases |events|
  {
    if events == [] then s else After(Step(s, events[0]), events[1..])
  }

  ghost predicate Reachable(s: State) {
    exists signalAborted: bool, events: seq<Event> ::
      IsRun(Initial(signalAborted), events) && After(Initial(signalAborted), events) == s
  }

  // ---------- Invariant ----------

  /** One settle check at most is queued, and one resolution at most happened. */
  predicate Counters(s: State) {
    && s.immediates == (if s.settleQueued then 1 else 0)
    && s.resolutions == (if s.settled then 1 else 0)
    && (s.settled ==> s.active == {} && (s.aborted || s.finished) && !s.settleQueued)
    && (s.listening ==> !s.settled)
    && (!s.listening ==> s.aborted || s.settled)
  }

  /** An active operation will report its end; an inactive one has ended. */
  predicate Bookkeeping(s: State) {
    && (forall op | op in s.active :: op in s.reactions && op in s.tracked)
    && (forall op | op in s.tracked :: op in s.active || op in s.done)
  }

  predicate Invariant(s: State) {
    Counters(s) && Bookkeeping(s) && (MaySettle(s) ==> s.settleQueued)
  }

  lemma InitialInvariant(signalAborted: bool)
    ensures Invariant(Initial(signalAborted))
  {
  }

  lemma StepBookkeeping(s: State, e: Event)
    requires Invariant(s) && Enabled(s, e)
    ensures Bookkeeping(Step(s, e))
  {
    var t := Step(s, e);
    forall op | op in t.active ensures op in t.reactions && op in t.tracked {
      if op in s.active { assert op in s.reactions && op in s.tracked; }
    }
    forall op | op in t.tracked ensures op in t.active || op in t.done {
      if op in s.tracked { assert op in s.active || op in s.done; }
    }
  }

  lemma StepInvariant(s: State, e: Event)
    requires Invariant(s) && Enabled(s, e)
    ensures Invariant(Step(s, e))
  {
    StepBookkeeping(s, e);
    hide Bookkeeping;
  }

  lemma {:induction false} RunInvariant(s: State, events: seq<Event>)
    requires Invariant(s) && IsRun(s, events)
    ensures Invariant(After(s, events))
    decreases |events|
  {
    if events != [] {
      StepInvariant(s, events[0]);
      RunInvariant(Step(s, events[0]), events[1..]);
    }
  }

  lemma ReachableInvariant(s: State)
    requires Reachable(s)
    ensures Invariant(s)
  {
    var signalAborted, events :| IsRun(Initial(signalAborted), events) && After(Initial(signalAborted), events) == s;
    InitialInvariant(signalAborted);
    RunInvariant(Initial(signalAborted), events);
  }

  // ---------- Safety and liveness over every run ----------

  /** The promise resolves only in a settle check, after abort or finish, when
      nothing is active; and then every operation tracked so far has settled. */
  lemma NeverResolvesEarly(s: State, e: Event)
    requires Reachable(s) && Enabled(s, e)
    requires Step(s, e).resolutions != s.resolutions
    ensures e == Immediate && !s.settled && Step(s, e).settled
    ensures s.active == {} && (s.aborted || s.finished)
    ensures s.tracked <= s.done
  {
    ReachableInvariant(s);
  }

  /** Once resolved, resolved for good: nothing becomes active again, whatever
      happens afterwards, and the promise is not resolved a second time. */
  lemma {:induction false} ResolutionIsFinal(s: State, events: seq<Event>)
    requires Invariant(s) && s.settled && IsRun(s, events)
    ensures var t := After(s, events);
      t.settled && t.active == {} && t.resolutions == 1 && t.tracked == s.tracked
    decreases |events|
  {
    if events != [] {
      StepInvariant(s, events[0]);
      ResolutionIsFinal(Step(s, events[0]), events[1..]);
    }
  }

  /** Steps that happen without the callers doing anything more. */
  predicate Internal(s: State, e: Event) {
    && Enabled(s, e)
    && (match e
        case Settles(op) => op in s.tracked
        case Reaction(_) => true
        case Immediate => true
        case _ => false)
  }

  function Outstanding(s: State): nat {
    |s.tracked - s.done| + 2 * |s.reactions| + s.immediates
  }

  /** Every schedule of internal steps is finite. */
  lemma InternalStepsRunOut(s: State, e: Event)
    requires Internal(s, e)
    ensures Outstanding(Step(s, e)) < Outstanding(s)
  {
    match e
    case Settles(op) =>
      assert s.tracked - (s.done + {op}) == (s.tracked - s.done) - {op};
      assert |(s.tracked - s.done) - {op}| == |s.tracked - s.done| - 1;
    case Reaction(op) =>
      assert |s.reactions - multiset{op}| == |s.reactions| - 1;
    case _ =>
  }

  /** After abort or finish, an unresolved state always has an internal step to
      take, and with nothing active its settle check is queued and resolves. */
  lemma UnresolvedCanMove(s: State)
    requires Reachable(s) && (s.aborted || s.finished) && !s.settled
    ensures exists e :: Internal(s, e)
    ensures s.active == {} ==> s.settleQueued && Enabled(s, Immediate) && Step(s, Immediate).settled
  {
    ReachableInvariant(s);
    if op :| op in s.active {
      assert Internal(s, if op in s.done then Reaction(op) else Settles(op));
    } else {
      assert s.active == {};
      assert Internal(s, Immediate);
    }
  }

  /** No wakeup is lost: when abort or finish has happened and no internal step
      is left to run, the promise has been resolved. */
  lemma QuiescentIsResolved(s: State)
    requires Reachable(s) && (s.aborted || s.finished)
    requires forall e :: !Internal(s, e)
    ensures s.settled
  {
    if !s.settled { UnresolvedCanMove(s); }
  }

  // ---------- The promise over events ----------

  lemma {:induction false} RunSnoc(s: State, events: seq<Event>, e: Event)
    requires IsRun(s, events + [e])
    ensures IsRun(s, events) && Enabled(After(s, events), e)
    ensures After(s, events + [e]) == Step(After(s, events), e)
    decreases |events|
  {
    hide Enabled, Step;
    var all := events + [e];
    if events != [] {
      assert all[1..] == events[1..] + [e];
      RunSnoc(Step(s, events[0]), events[1..], e);
    } else {
      assert all == [e] && all[1..] == [];
    }
  }

  lemma {:induction false} RunPrefix(s: State, events: seq<Event>, n: nat)
    requires IsRun(s, events) && n <= |events|
    ensures IsRun(s, events[..n])
    ensures n < |events| ==> Enabled(After(s, events[..n]), events[n])
    decreases |events| - n
  {
    if n == |events| {
      assert events[..n] == events;
    } else {
      RunPrefix(s, events, n + 1);
      assert events[..n + 1] == events[..n] + [events[n]];
      RunSnoc(s, events[..n], events[n]);
    }
  }

  function Count(events: seq<Event>, e: Event): nat { multiset(events)[e] }

  /** Tracked, and no completion callback of it ran since. */
  predicate Working(events: seq<Event>, i: nat, op: Operation) {
    i < |events| && events[i] == Track(op) && Reaction(op) !in events[i..]
  }

  /** Aborted before construction or by the signal, or reported finished. */
  predicate MayEnd(signalAborted: bool, events: seq<Event>) {
    signalAborted || Abort in events || Finish in events
  }

  ghost predicate OperationExact(s: State, events: seq<Event>, op: Operation) {
    && (op in s.tracked <==> Track(op) in events)
    && (op in s.active <==> exists i :: Working(events, i, op))
    && s.reactions[op] == Count(events, Track(op)) - Count(events, Reaction(op))
  }

  ghost predicate SignalsExact(s: State, signalAborted: bool, events: seq<Event>) {
    && (forall op :: op in s.done <==> Settles(op) in events)
    && (s.finished <==> Finish in events)
    && (!s.settled ==> (s.aborted <==> signalAborted || Abort in events))
  }

  /** The fields as the events determine them, until the promise resolves. */
  ghost predicate History(s: State, signalAborted: bool, events: seq<Event>) {
    SignalsExact(s, signalAborted, events) && (!s.settled ==> forall op :: OperationExact(s, events, op))
  }

  /** What is recorded is what happened: an operation is active exactly when it was
      tracked and its completion has not been reported since. */
  lemma {:induction false} HistoryExact(signalAborted: bool, events: seq<Event>)
    requires IsRun(Initial(signalAborted), events)
    ensures Invariant(After(Initial(signalAborted), events))
    ensures History(After(Initial(signalAborted), events), signalAborted, events)
    decreases |events|
  {
    var first := Initial(signalAborted);
    InitialInvariant(signalAborted);
    RunInvariant(first, events);
    if events != [] {
      var before, last := events[..|events| - 1], events[|events| - 1];
      assert events == before + [last];
      RunSnoc(first, before, last);
      HistoryExact(signalAborted, before);
      HistoryStep(After(first, before), signalAborted, before, last);
    }
  }

  lemma WorkingStep(events: seq<Event>, e: Event, op: Operation)
    ensures (exists i :: Working(events + [e], i, op)) <==>
            e == Track(op) || (e != Reaction(op) && exists i :: Working(events, i, op))
  {
    var all := events + [e];
    forall i: nat | i < |events|
      ensures Working(all, i, op) <==> Working(events, i, op) && e != Reaction(op)
    {
      assert all[i..] == events[i..] + [e];
    }
    if e == Track(op) {
      assert all[|events|..] == [e];
      assert Working(all, |events|, op);
    }
    if i :| Working(events, i, op) && e != Reaction(op) { assert Working(all, i, op); }
  }

  lemma CountStep(events: seq<Event>, e: Event, counted: Event)
    ensures Count(events + [e], counted) == Count(events, counted) + (if e == counted then 1 else 0)
  {
    assert multiset(events + [e]) == multiset(events) + multiset{e};
  }

  lemma OperationStep(s: State, events: seq<Event>, e: Event, op: Operation)
    requires OperationExact(s, events, op) && Enabled(s, e) && !Step(s, e).settled
    ensures OperationExact(Step(s, e), events + [e], op)
  {
    WorkingStep(events, e, op);
    CountStep(events, e, Track(op));
    CountStep(events, e, Reaction(op));
    hide Working, Count;
  }

  lemma StaysUnsettled(s: State, e: Event)
    requires Enabled(s, e) && !Step(s, e).settled
    ensures !s.settled
  {
  }

  lemma SignalsStep(s: State, signalAborted: bool, events: seq<Event>, e: Event)
    requires Counters(s) && SignalsExact(s, signalAborted, events) && Enabled(s, e)
    ensures SignalsExact(Step(s, e), signalAborted, events + [e])
  {
  }

  lemma HistoryStep(s: State, signalAborted: bool, events: seq<Event>, e: Event)
    requires Counters(s) && History(s, signalAborted, events) && Enabled(s, e)
    ensures History(Step(s, e), signalAborted, events + [e])
  {
    var t, all := Step(s, e), events + [e];
    SignalsStep(s, signalAborted, events, e);
    hide SignalsExact, Step;
    if !t.settled {
      forall op ensures OperationExact(t, all, op) {
        StaysUnsettled(s, e);
        OperationStep(s, events, e, op);
      }
    }
    hide OperationExact;
  }

  /** The promise resolves at event `k`. */
  ghost predicate ResolvesAt(signalAborted: bool, events: seq<Event>, k: nat)
    requires IsRun(Initial(signalAborted), events)
  {
    && k < |events| && IsRun(Initial(signalAborted), events[..k]) && IsRun(Initial(signalAborted), events[..k + 1])
    && !After(Initial(signalAborted), events[..k]).settled && After(Initial(signalAborted), events[..k + 1]).settled
  }

  /** In every run: the promise resolves only after an abort or the end of the
      preparation, and every operation tracked by then has settled, its completion
      callback having run after it was last tracked. */
  lemma ResolvesAfterAllWork(signalAborted: bool, events: seq<Event>, k: nat)
    requires IsRun(Initial(signalAborted), events) && ResolvesAt(signalAborted, events, k)
    ensures events[k] == Immediate && MayEnd(signalAborted, events[..k])
    ensures forall op | Track(op) in events[..k] :: Settles(op) in events[..k]
    ensures forall i, op | 0 <= i < k && events[i] == Track(op) :: Reaction(op) in events[i..k]
  {
    var before := events[..k];
    var first := Initial(signalAborted);
    hide IsRun, After, Initial, Working, Count;
    RunPrefix(first, events, k);
    HistoryExact(signalAborted, before);
    assert events[..k + 1] == before + [events[k]];
    RunSnoc(first, before, events[k]);
    var s := After(first, before);
    assert s.active == {} && s.tracked <= s.done;
    forall op | Track(op) in before ensures Settles(op) in before {
      assert OperationExact(s, before, op);
    }
    forall i, op | 0 <= i < k && events[i] == Track(op) ensures Reaction(op) in events[i..k] {
      assert before[i..] == events[i..k];
      assert OperationExact(s, before, op);
      NotWorking(s, before, i, op);
    }
  }

  lemma NotWorking(s: State, events: seq<Event>, i: nat, op: Operation)
    requires OperationExact(s, events, op) && op !in s.active && i < |events| && events[i] == Track(op)
    ensures Reaction(op) in events[i..]
  {
    assert !Working(events, i, op);
  }

  /** Steps that happen without the callers doing anything more. */
  ghost predicate RunsByItself(signalAborted: bool, events: seq<Event>, e: Event)
    requires IsRun(Initial(signalAborted), events)
  {
    && Enabled(After(Initial(signalAborted), events), e)
    && match e
       case Settles(op) => Track(op) in events
       case Reaction(_) => true
       case Immediate => true
       case _ => false
  }

  /** In every run: at rest, the promise has been resolved if and only if there was
      an abort or the preparation ended. */
  lemma RestingIsResolved(signalAborted: bool, events: seq<Event>)
    requires IsRun(Initial(signalAborted), events)
    requires forall e :: !RunsByItself(signalAborted, events, e)
    ensures After(Initial(signalAborted), events).settled <==> MayEnd(signalAborted, events)
  {
    var s := After(Initial(signalAborted), events);
    HistoryExact(signalAborted, events);
    if s.settled {
      SettledMayEnd(signalAborted, events);
    } else if MayEnd(signalAborted, events) {
      UnresolvedCanMove(s);
      var e :| Internal(s, e);
      if e.Settles? { assert OperationExact(s, events, e.op); }
      assert RunsByItself(signalAborted, events, e);
    }
  }

  lemma {:induction false} SettledMayEnd(signalAborted: bool, events: seq<Event>)
    requires IsRun(Initial(signalAborted), events) && After(Initial(signalAborted), events).settled
    ensures MayEnd(signalAborted, events)
    decreases |events|
  {
    if events != [] {
      var before, last := events[..|events| - 1], events[|events| - 1];
      var first := Initial(signalAborted);
      assert events == before + [last];
      hide IsRun, After, Initial, OperationExact, Invariant;
      RunSnoc(first, before, last);
      if After(first, before).settled {
        SettledMayEnd(signalAborted, before);
      } else {
        HistoryExact(signalAborted, before);
      }
    }
  }

  // ---------- The object ----------

  class WorkspaceAbortCleanup {
    var active: set<Operation>
    var aborted: bool
    var finished: bool
    var settleQueued: bool
    var settled: bool
    var listening: bool
    var resolutions: nat
    // The runtime's queues for this object.
    var immediates: nat
    var reactions: multiset<Operation>
    ghost var signalled: bool
    ghost var done: set<Operation>
    ghost var tracked: set<Operation>

    ghost function Snapshot(): State
      reads this
    {
      State(active, aborted, finished, settleQueued, settled, listening, immediates, reactions, signalled, done, tracked, resolutions)
    }

    constructor (signalAborted: bool)
      ensures Snapshot() == Initial(signalAborted) && Invariant(Snapshot())
    {
      active, finished, settleQueued, settled, listening := {}, false, false, false, true;
      aborted := signalAborted;
      immediates, reactions, resolutions := 0, multiset{}, 0;
      signalled, done, tracked := signalAborted, {}, {};
      new;
      QueueSettle();
    }

    method FinishPreparation()
      requires Invariant(Snapshot())
      modifies this
      ensures Snapshot() == Step(old(Snapshot()), Finish) && Invariant(Snapshot())
    {
      StepInvariant(Snapshot(), Finish);
      finished := true;
      QueueSettle();
    }

    /** Registers an operation and its completion callback, unless resolved. */
    method TrackOperation(operation: Operation)
      requires Invariant(Snapshot())
      modifies this
      ensures Snapshot() == Step(old(Snapshot()), Track(operation)) && Invariant(Snapshot())
    {
      StepInvariant(Snapshot(), Track(operation));
      if settled {
        return;
      }
      active := active + {operation};
      reactions := reactions + multiset{operation};
      tracked := tracked + {operation};
    }

    /** The signal fires; the listener is registered for one call. */
    method OnAbort()
      requires Invariant(Snapshot()) && Enabled(Snapshot(), Abort)
      modifies this
      ensures Snapshot() == Step(old(Snapshot()), Abort) && Invariant(Snapshot())
    {
      StepInvariant(Snapshot(), Abort);
      signalled := true;
      if listening {
        listening := false;
        aborted := true;
        QueueSettle();
      }
    }

    /** A completion callback of a settled operation runs. */
    method Complete(operation: Operation)
      requires Invariant(Snapshot()) && Enabled(Snapshot(), Reaction(operation))
      modifies this
      ensures Snapshot() == Step(old(Snapshot()), Reaction(operation)) && Invariant(Snapshot())
    {
      StepInvariant(Snapshot(), Reaction(operation));
      reactions := reactions - multiset{operation};
      active := active - {operation};
      QueueSettle();
    }

    method QueueSettle()
      modifies this`settleQueued, this`immediates
      ensures Snapshot() == QueueSettled(old(Snapshot()))
    {
      if settled || settleQueued || (!aborted && !finished) || active != {} {
        return;
      }
      settleQueued := true;
      immediates := immediates + 1;
    }

    /** The queued callback: it repeats the check before resolving. */
    method RunImmediate()
      requires Invariant(Snapshot()) && Enabled(Snapshot(), Immediate)
      modifies this
      ensures Snapshot() == Step(old(Snapshot()), Immediate) && Invariant(Snapshot())
    {
      StepInvariant(Snapshot(), Immediate);
      immediates := immediates - 1;
      settleQueued := false;
      if settled || (!aborted && !finished) || active != {} {
        return;
      }
      settled := true;
      listening := false;
      resolutions := resolutions + 1;
    }
  }
}
