/** The per-cache promise chain of `ensureRepositoryCacheTracked` in
    `src/workspace.ts`.

    Each invocation appends itself behind the tail recorded in `fetchLocks` and
    keeps its place even when its caller stops waiting.  Promise reactions run
    after the promise settles, in any order the runtime chooses. */
module FetchLocks {
  import opened Wrappers

  type CallId = nat

  datatype Phase = Waiting | Running | Settled

  datatype Waiter = Pending | GaveUp | Returned

  /** One invocation: the tail it queued behind, the phase of its own promise,
      its signal, whether its release callback ran, and its caller. */
  datatype Call = Call(path: string, prior: Option<CallId>, phase: Phase, aborted: bool, released: bool, waiter: Waiter)

  /** `turns` records the invocations that entered the guarded section. */
  datatype State = State(locks: map<string, CallId>, calls: seq<Call>, turns: seq<CallId>)

  datatype Event =
    | Arrive(path: string)
    | Begin(c: CallId)    // the predecessor has settled; the queued callback runs
    | End(c: CallId)      // clone or fetch finished, failed or was interrupted
    | Release(c: CallId)  // the callback on the settled promise runs
    | Signal(c: CallId)   // the caller's abort signal fires
    | Leave(c: CallId)    // the caller stops waiting because of its signal
    | Resume(c: CallId)   // the caller learns the outcome

  const INITIAL := State(map[], [], [])

  predicate PriorSettled(s: State, c: CallId)
    requires c < |s.calls|
  {
    match s.calls[c].prior
    case None => true
    case Some(q) => q < |s.calls| && s.calls[q].phase == Settled
  }

  predicate Enabled(s: State, e: Event) {
    match e
    case Arrive(_) => true
    case Begin(c) => c < |s.calls| && s.calls[c].phase == Waiting && PriorSettled(s, c)
    case End(c) => c < |s.calls| && s.calls[c].phase == Running
    case Release(c) => c < |s.calls| && s.calls[c].phase == Settled && !s.calls[c].released
    case Signal(c) => c < |s.calls|
    case Leave(c) =>
      // Also after its own callback settled without a turn: the race is decided later.
      && c < |s.calls| && s.calls[c].aborted && s.calls[c].waiter == Pending
      && (s.calls[c].phase == Waiting || (s.calls[c].phase == Settled && c !in s.turns))
    case Resume(c) => c < |s.calls| && s.calls[c].waiter == Pending && s.calls[c].phase == Settled
  }

  function Lookup(locks: map<string, CallId>, path: string): Option<CallId> {
    if path in locks then Some(locks[path]) else None
  }

  function Step(s: State, e: Event): State
    requires Enabled(s, e)
  {
    match e
    case Arrive(path) =>
      s.(calls := s.calls + [Call(path, Lookup(s.locks, path), Waiting, false, false, Pending)],
         locks := s.locks[path := |s.calls|])
    case Begin(c) =>
      // The callback's first statement throws when the signal has fired.
      if s.calls[c].aborted then s.(calls := s.calls[c := s.calls[c].(phase := Settled)])
      else s.(calls := s.calls[c := s.calls[c].(phase := Running)], turns := s.turns + [c])
    case End(c) => s.(calls := s.calls[c := s.calls[c].(phase := Settled)])
    case Release(c) =>
      var path := s.calls[c].path;
      var calls := s.calls[c := s.calls[c].(released := true)];
      if Lookup(s.locks, path) == Some(c) then s.(calls := calls, locks := s.locks - {path})
      else s.(calls := calls)
    case Signal(c) => s.(calls := s.calls[c := s.calls[c].(aborted := true)])
    case Leave(c) => s.(calls := s.calls[c := s.calls[c].(waiter := GaveUp)])
    case Resume(c) => s.(calls := s.calls[c := s.calls[c].(waiter := Returned)])
  }

  predicate IsRun(s: State, events: seq<Event>)
    decreases |events|
  {
    events == [] || (Enabled(s, events[0]) && IsRun(Step(s, events[0]), events[1..]))
  }

  function After(s: State, events: seq<Event>): State
    requires IsRun(s, events)
    decreases |events|
  {
    if events == [] then s else After(Step(s, events[0]), events[1..])
  }

  ghost predicate Reachable(s: State) {
    exists events :: IsRun(INITIAL, events) && After(INITIAL, events) == s
  }

  // ---------- Invariant ----------

  /** Every earlier invocation on the path of `c` has settled. */
  predicate EarlierSettled(calls: seq<Call>, c: CallId)
    requires c < |calls|
  {
    forall d | 0 <= d < c && calls[d].path == calls[c].path :: calls[d].phase == Settled
  }

  /** `c` is the last invocation on its path. */
  predicate IsLast(calls: seq<Call>, c: CallId) {
    c < |calls| && forall d | c < d < |calls| :: calls[d].path != calls[c].path
  }

  /** An invocation queued behind its immediate predecessor on the path, or found
      the path free when everything before it had settled. */
  predicate Linked(calls: seq<Call>, c: CallId)
    requires c < |calls|
  {
    match calls[c].prior
    case None => EarlierSettled(calls, c)
    case Some(q) =>
      q < c && calls[q].path == calls[c].path && forall d | q < d < c :: calls[d].path != calls[c].path
  }

  predicate ChainInvariant(calls: seq<Call>) {
    forall c | 0 <= c < |calls| :: Linked(calls, c) && (calls[c].phase != Waiting ==> EarlierSettled(calls, c))
  }

  /** A recorded tail is its path's last invocation; a path without one has
      nothing unsettled. */
  predicate LockInvariant(s: State) {
    && (forall path | path in s.locks ::
          var c := s.locks[path]; IsLast(s.calls, c) && s.calls[c].path == path && !s.calls[c].released)
    && (forall c | 0 <= c < |s.calls| && s.calls[c].path !in s.locks :: s.calls[c].phase == Settled)
  }

  predicate TurnInvariant(s: State) {
    && (forall i | 0 <= i < |s.turns| :: s.turns[i] < |s.calls| && s.calls[s.turns[i]].phase != Waiting)
    && (forall i, j | 0 <= i < j < |s.turns| && s.calls[s.turns[i]].path == s.calls[s.turns[j]].path :: s.turns[i] < s.turns[j])
    && (forall c | 0 <= c < |s.calls| && s.calls[c].phase == Running :: c in s.turns)
  }

  predicate Invariant(s: State) {
    ChainInvariant(s.calls) && LockInvariant(s) && TurnInvariant(s)
  }

  /** Phases only move forward along the chain. */
  lemma ChainAdvance(calls: seq<Call>, c: CallId, next: Call)
    requires ChainInvariant(calls) && c < |calls|
    requires next.path == calls[c].path && next.prior == calls[c].prior
    requires calls[c].phase == Settled ==> next.phase == Settled
    requires next.phase != Waiting ==> EarlierSettled(calls, c)
    ensures ChainInvariant(calls[c := next])
  {
    var after := calls[c := next];
    forall d | 0 <= d < |after| ensures Linked(after, d) && (after[d].phase != Waiting ==> EarlierSettled(after, d)) {
      assert Linked(calls, d);
      assert EarlierSettled(calls, d) ==> EarlierSettled(after, d) by {
        assert forall e | 0 <= e < d && after[e].path == after[d].path :: calls[e].path == calls[d].path;
      }
    }
  }

  /** A callback whose predecessor has settled has only settled calls before it. */
  lemma {:induction false} PriorSettledMeansAll(calls: seq<Call>, c: CallId)
    requires ChainInvariant(calls) && c < |calls|
    requires match calls[c].prior case None => true case Some(q) => q < |calls| && calls[q].phase == Settled
    ensures EarlierSettled(calls, c)
  {
    assert Linked(calls, c);
    if calls[c].prior.Some? {
      var q := calls[c].prior.value;
      assert Linked(calls, q) && EarlierSettled(calls, q);
      forall d | 0 <= d < c && calls[d].path == calls[c].path ensures calls[d].phase == Settled {
        assert d <= q;
      }
    }
  }

  lemma ChainAppend(calls: seq<Call>, next: Call)
    requires ChainInvariant(calls) && next.phase == Waiting
    requires Linked(calls + [next], |calls|)
    ensures ChainInvariant(calls + [next])
  {
    var after := calls + [next];
    forall d | 0 <= d < |calls| ensures Linked(after, d) && (after[d].phase != Waiting ==> EarlierSettled(after, d)) {
      assert Linked(calls, d);
      assert forall e | 0 <= e <= d :: after[e] == calls[e];
      assert EarlierSettled(calls, d) ==> EarlierSettled(after, d);
    }
  }

  lemma ArriveInvariant(s: State, path: string)
    requires Invariant(s)
    ensures Invariant(Step(s, Arrive(path)))
  {
    var t := Step(s, Arrive(path));
    var n := |s.calls|;
    assert Linked(t.calls, n) by {
      if path in s.locks {
        assert IsLast(s.calls, s.locks[path]);
      } else {
        assert EarlierSettled(t.calls, n);
      }
    }
    ChainAppend(s.calls, t.calls[n]);
    forall p | p in t.locks
      ensures var c := t.locks[p]; IsLast(t.calls, c) && t.calls[c].path == p && !t.calls[c].released
    {
      if p != path { assert IsLast(s.calls, s.locks[p]) && s.calls[s.locks[p]].path == p; }
    }
    assert forall i | 0 <= i < |s.turns| :: t.calls[s.turns[i]] == s.calls[s.turns[i]];
  }

  lemma BeginInvariant(s: State, c: CallId)
    requires Invariant(s) && Enabled(s, Begin(c))
    ensures Invariant(Step(s, Begin(c)))
  {
    var t := Step(s, Begin(c));
    PriorSettledMeansAll(s.calls, c);
    ChainAdvance(s.calls, c, t.calls[c]);
    LockAdvance(s, c, t.calls[c]);
    BeginTurns(s, c);
  }

  lemma BeginTurns(s: State, c: CallId)
    requires ChainInvariant(s.calls) && TurnInvariant(s) && Enabled(s, Begin(c))
    ensures TurnInvariant(Step(s, Begin(c)))
  {
    var t := Step(s, Begin(c));
    forall i | 0 <= i < |s.turns| && s.calls[s.turns[i]].path == s.calls[c].path ensures s.turns[i] < c {
      var d := s.turns[i];
      assert Linked(s.calls, d) && s.calls[d].phase != Waiting;
      assert EarlierSettled(s.calls, d);
    }
    forall d | 0 <= d < |t.calls| && t.calls[d].phase == Running ensures d in t.turns {
      if d != c { assert d in s.turns; }
    }
  }

  /** Changing one call without reviving it keeps the lock table right. */
  lemma LockAdvance(s: State, c: CallId, next: Call)
    requires LockInvariant(s) && c < |s.calls|
    requires next.path == s.calls[c].path && next.released == s.calls[c].released
    requires s.calls[c].phase == Settled ==> next.phase == Settled
    ensures LockInvariant(s.(calls := s.calls[c := next]))
  {
    var calls := s.calls[c := next];
    forall p | p in s.locks ensures var k := s.locks[p]; IsLast(calls, k) && calls[k].path == p && !calls[k].released {
      assert IsLast(s.calls, s.locks[p]);
    }
  }

  lemma ReleaseInvariant(s: State, c: CallId)
    requires Invariant(s) && Enabled(s, Release(c))
    ensures Invariant(Step(s, Release(c)))
  {
    var t := Step(s, Release(c));
    assert Linked(s.calls, c) && EarlierSettled(s.calls, c);
    ChainAdvance(s.calls, c, t.calls[c]);
    ReleaseLocks(s, c);
    TurnsSamePhases(s, t);
  }

  lemma ReleaseLocks(s: State, c: CallId)
    requires LockInvariant(s) && Enabled(s, Release(c)) && EarlierSettled(s.calls, c)
    ensures LockInvariant(Step(s, Release(c)))
  {
    var t := Step(s, Release(c));
    forall p | p in t.locks ensures var k := t.locks[p]; IsLast(t.calls, k) && t.calls[k].path == p && !t.calls[k].released {
      assert IsLast(s.calls, s.locks[p]) && s.calls[s.locks[p]].path == p;
    }
    forall d | 0 <= d < |t.calls| && t.calls[d].path !in t.locks ensures t.calls[d].phase == Settled {
      if s.calls[d].path in s.locks {
        assert IsLast(s.calls, c);
        assert d <= c;
      }
    }
  }

  lemma TurnsSamePhases(s: State, t: State)
    requires TurnInvariant(s) && t.turns == s.turns && |t.calls| == |s.calls|
    requires forall d | 0 <= d < |s.calls| :: t.calls[d].path == s.calls[d].path
    requires forall d | 0 <= d < |s.calls| && t.calls[d].phase == Running :: s.calls[d].phase == Running
    requires forall d | 0 <= d < |s.calls| && s.calls[d].phase != Waiting :: t.calls[d].phase != Waiting
    ensures TurnInvariant(t)
  {
  }

  /** Signals, callers and section ends touch one call and no lock. */
  lemma OtherInvariant(s: State, e: Event)
    requires Invariant(s) && Enabled(s, e) && (e.End? || e.Signal? || e.Leave? || e.Resume?)
    ensures Invariant(Step(s, e))
  {
    var t := Step(s, e);
    assert Linked(s.calls, e.c);
    ChainAdvance(s.calls, e.c, t.calls[e.c]);
    LockAdvance(s, e.c, t.calls[e.c]);
    TurnsSamePhases(s, t);
  }

  lemma StepInvariant(s: State, e: Event)
    requires Invariant(s) && Enabled(s, e)
    ensures Invariant(Step(s, e))
  {
    hide *;
    match e
    case Arrive(path) => ArriveInvariant(s, path);
    case Begin(c) => BeginInvariant(s, c);
    case Release(c) => ReleaseInvariant(s, c);
    case _ => OtherInvariant(s, e);
  }

  lemma {:induction false} RunInvariant(s: State, events: seq<Event>)
    requires Invariant(s) && IsRun(s, events)
    ensures Invariant(After(s, events))
    decreases |events|
  {
    hide Invariant;
    if events != [] {
      StepInvariant(s, events[0]);
      RunInvariant(Step(s, events[0]), events[1..]);
    }
  }

  lemma ReachableInvariant(s: State)
    requires Reachable(s)
    ensures Invariant(s)
  {
    var events :| IsRun(INITIAL, events) && After(INITIAL, events) == s;
    assert Invariant(INITIAL);
    RunInvariant(INITIAL, events);
  }

  // ---------- What the chain guarantees ----------

  /** At most one invocation per cache path is inside the guarded section, and
      while one is, every later one is still waiting, given up or not. */
  lemma MutualExclusion(s: State, c: CallId, d: CallId)
    requires Reachable(s) && c < d < |s.calls| && s.calls[c].path == s.calls[d].path
    ensures s.calls[c].phase != Settled ==> s.calls[d].phase == Waiting
    ensures !(s.calls[c].phase == Running && s.calls[d].phase == Running)
  {
    ReachableInvariant(s);
    assert Linked(s.calls, d);
  }

  /** Turns on one path are taken in arrival order, each at most once. */
  lemma TurnsInArrivalOrder(s: State, i: nat, j: nat)
    requires Reachable(s) && i < j < |s.turns|
    ensures s.turns[i] < |s.calls| && s.turns[j] < |s.calls|
    ensures s.calls[s.turns[i]].path == s.calls[s.turns[j]].path ==> s.turns[i] < s.turns[j]
  {
    ReachableInvariant(s);
  }

  /** A path that is absent from the table has nothing unfinished behind it; a
      path that is present names its last arrival, whose release is still due. */
  lemma AbsentMeansSettled(s: State, c: CallId)
    requires Reachable(s) && c < |s.calls|
    ensures s.calls[c].path !in s.locks ==> s.calls[c].phase == Settled
    ensures s.calls[c].path in s.locks ==> c <= s.locks[s.calls[c].path] < |s.calls| && !s.calls[s.locks[s.calls[c].path]].released
  {
    ReachableInvariant(s);
    if s.calls[c].path in s.locks {
      assert IsLast(s.calls, s.locks[s.calls[c].path]);
    }
  }

  /** An invocation whose signal fires before its turn never enters. */
  lemma {:induction false} AbortedNeverEnters(s: State, c: CallId, events: seq<Event>)
    requires c < |s.calls| && s.calls[c].aborted && s.calls[c].phase != Running && c !in s.turns && IsRun(s, events)
    ensures c < |After(s, events).calls| && c !in After(s, events).turns
    decreases |events|
  {
    if events != [] {
      AbortedNeverEnters(Step(s, events[0]), c, events[1..]);
    }
  }

  /** A run without the callers' departures: neither giving up nor returning. */
  function WithoutCallers(events: seq<Event>): seq<Event> {
    if events == [] then []
    else (if events[0].Leave? || events[0].Resume? then [] else [events[0]]) + WithoutCallers(events[1..])
  }

  function Unwaited(call: Call): Call { call.(waiter := Pending) }

  /** The same table, turns and invocations, whatever their callers do. */
  predicate SameChain(s: State, t: State) {
    && s.locks == t.locks && s.turns == t.turns && |s.calls| == |t.calls|
    && forall c | 0 <= c < |s.calls| :: Unwaited(s.calls[c]) == Unwaited(t.calls[c])
  }

  /** Callers that give up, in any number and at any time, leave no trace in the
      chain: without their departures the same run is possible and ends with the
      same table, the same phases and the same turns in the same order.  So nobody
      overtakes through an abandoned place. */
  lemma {:induction false} LeavingKeepsThePlace(s: State, t: State, events: seq<Event>)
    requires SameChain(s, t) && IsRun(s, events)
    ensures IsRun(t, WithoutCallers(events)) && SameChain(After(s, events), After(t, WithoutCallers(events)))
    decreases |events|
  {
    if events != [] {
      var e, rest := events[0], WithoutCallers(events[1..]);
      if e.Leave? || e.Resume? {
        assert [] + rest == rest;
        LeavingKeepsThePlace(Step(s, e), t, events[1..]);
      } else {
        SameChainStep(s, t, e);
        LeavingKeepsThePlace(Step(s, e), Step(t, e), events[1..]);
        RunCons(t, e, rest);
      }
    }
  }

  lemma RunCons(t: State, e: Event, rest: seq<Event>)
    requires Enabled(t, e) && IsRun(Step(t, e), rest)
    ensures IsRun(t, [e] + rest) && After(t, [e] + rest) == After(Step(t, e), rest)
  {
    assert ([e] + rest)[1..] == rest;
    hide Enabled, Step;
  }

  lemma SameChainStep(s: State, t: State, e: Event)
    requires SameChain(s, t) && Enabled(s, e) && !e.Leave? && !e.Resume?
    ensures Enabled(t, e) && SameChain(Step(s, e), Step(t, e))
  {
    if e.Begin? && s.calls[e.c].prior.Some? {
      var q := s.calls[e.c].prior.value;
      assert Unwaited(s.calls[e.c]) == Unwaited(t.calls[e.c]);
      assert q < |s.calls| && Unwaited(s.calls[q]) == Unwaited(t.calls[q]);
    }
  }

  /** No deadlock: an unsettled invocation always has a step to take on its
      path, namely the earliest unsettled one's. */
  lemma {:induction false} UnsettledCanMove(s: State, c: CallId)
    requires Reachable(s) && c < |s.calls| && s.calls[c].phase != Settled
    ensures exists d :: 0 <= d <= c && s.calls[d].path == s.calls[c].path && (Enabled(s, Begin(d)) || Enabled(s, End(d)))
    decreases c
  {
    ReachableInvariant(s);
    if d :| 0 <= d < c && s.calls[d].path == s.calls[c].path && s.calls[d].phase != Settled {
      UnsettledCanMove(s, d);
    } else {
      assert Linked(s.calls, c);
      assert Enabled(s, Begin(c)) || Enabled(s, End(c));
    }
  }

  /** What the chain still has to do for a call. */
  function CallLeft(call: Call): nat {
    match call.phase
    case Waiting => 3
    case Running => 2
    case Settled => if call.released then 0 else 1
  }

  function CallsLeft(calls: seq<Call>): nat {
    if calls == [] then 0 else CallLeft(calls[0]) + CallsLeft(calls[1..])
  }

  lemma {:induction false} CallsLeftUpdate(calls: seq<Call>, c: nat, next: Call)
    requires c < |calls|
    ensures CallsLeft(calls[c := next]) == CallsLeft(calls) - CallLeft(calls[c]) + CallLeft(next)
  {
    if c == 0 {
      assert calls[c := next][1..] == calls[1..];
    } else {
      assert calls[c := next][1..] == calls[1..][c - 1 := next];
      CallsLeftUpdate(calls[1..], c - 1, next);
    }
  }

  /** Steps that need no caller. */
  predicate Internal(s: State, e: Event) { Enabled(s, e) && (e.Begin? || e.End? || e.Release?) }

  /** Without new callers every schedule is finite, ... */
  lemma InternalStepsRunOut(s: State, e: Event)
    requires Internal(s, e)
    ensures CallsLeft(Step(s, e).calls) < CallsLeft(s.calls)
  {
    var next := Step(s, e).calls[e.c];
    CallsLeftUpdate(s.calls, e.c, next);
    assert Step(s, e).calls == s.calls[e.c := next];
  }

  /** ... and at its end every invocation has settled and the table is empty. */
  lemma QuiescentIsEmpty(s: State)
    requires Reachable(s) && forall e :: !Internal(s, e)
    ensures s.locks == map[]
    ensures forall c | 0 <= c < |s.calls| :: s.calls[c].phase == Settled && s.calls[c].released
  {
    ReachableInvariant(s);
    forall c: nat | c < |s.calls| ensures s.calls[c].phase == Settled && s.calls[c].released {
      assert !Internal(s, Release(c));
      if s.calls[c].phase != Settled { UnsettledIsInternal(s, c); }
    }
    assert s.locks.Keys == {} by { ReleasedIsUnlocked(s); }
  }

  lemma UnsettledIsInternal(s: State, c: CallId)
    requires Reachable(s) && c < |s.calls| && s.calls[c].phase != Settled
    ensures exists e :: Internal(s, e)
  {
    UnsettledCanMove(s, c);
    var d :| 0 <= d <= c && s.calls[d].path == s.calls[c].path && (Enabled(s, Begin(d)) || Enabled(s, End(d)));
    assert Internal(s, Begin(d)) || Internal(s, End(d));
  }

  lemma ReleasedIsUnlocked(s: State)
    requires LockInvariant(s) && forall c: nat | c < |s.calls| :: s.calls[c].released
    ensures s.locks.Keys == {}
  {
    forall path: string ensures path !in s.locks {}
  }

  // ---------- The chain over events ----------

  lemma {:induction false} RunSnoc(s: State, events: seq<Event>, e: Event)
    requires IsRun(s, events + [e])
    ensures IsRun(s, events) && Enabled(After(s, events), e)
    ensures After(s, events + [e]) == Step(After(s, events), e)
    decreases |events|
  {
    hide Enabled, Step;
    var all := events + [e];
    if events != [] {
      assert all[1..] == events[1..] + [e];
      RunSnoc(Step(s, events[0]), events[1..], e);
    } else {
      assert all == [e] && all[1..] == [];
    }
  }

  lemma {:induction false} RunPrefix(s: State, events: seq<Event>, n: nat)
    requires IsRun(s, events) && n <= |events|
    ensures IsRun(s, events[..n])
    ensures n < |events| ==> Enabled(After(s, events[..n]), events[n])
    decreases |events| - n
  {
    if n == |events| {
      assert events[..n] == events;
    } else {
      RunPrefix(s, events, n + 1);
      assert events[..n + 1] == events[..n] + [events[n]];
      RunSnoc(s, events[..n], events[n]);
    }
  }

  /** The paths of the arrivals, in order: call `c` is the `c`-th. */
  function Arrivals(events: seq<Event>): seq<string> {
    if events == [] then []
    else
      var last := events[|events| - 1];
      Arrivals(events[..|events| - 1]) + (if last.Arrive? then [last.path] else [])
  }

  /** The turns: the callbacks that ran with their signal not fired before. */
  function Turns(events: seq<Event>): seq<CallId> {
    if events == [] then []
    else
      var before, last := events[..|events| - 1], events[|events| - 1];
      Turns(before) + (if last.Begin? && Signal(last.c) !in before then [last.c] else [])
  }

  predicate TakesTurn(events: seq<Event>, i: nat, c: CallId) {
    i < |events| && events[i] == Begin(c) && Signal(c) !in events[..i]
  }

  /** The callback of `c` ran after its signal had fired. */
  predicate SkipsTurn(events: seq<Event>, i: nat, c: CallId) {
    i < |events| && events[i] == Begin(c) && Signal(c) in events[..i]
  }

  /** The promise of `c` has settled: its section ended, or it never got one. */
  ghost predicate HasSettled(events: seq<Event>, c: CallId) {
    End(c) in events || exists i :: SkipsTurn(events, i, c)
  }

  /** A call as the events so far have left it. */
  ghost predicate CallExact(call: Call, events: seq<Event>, c: CallId) {
    && (call.phase == Waiting <==> Begin(c) !in events)
    && (call.phase == Settled <==> HasSettled(events, c))
    && (call.aborted <==> Signal(c) in events)
    && (call.released <==> Release(c) in events)
    && (call.waiter == GaveUp <==> Leave(c) in events)
    && (call.waiter == Returned <==> Resume(c) in events)
  }

  /** `c` is the last arrival on the path, and its slot is not yet cleared. */
  predicate HoldsSlot(events: seq<Event>, path: string, c: CallId) {
    var arrived := Arrivals(events);
    && c < |arrived| && arrived[c] == path && Release(c) !in events
    && forall d | c < d < |arrived| :: arrived[d] != path
  }

  ghost predicate CallsExact(s: State, events: seq<Event>) {
    && |s.calls| == |Arrivals(events)|
    && (forall c: nat | c < |s.calls| :: s.calls[c].path == Arrivals(events)[c] && CallExact(s.calls[c], events, c))
    && (forall e | e in events && !e.Arrive? :: e.c < |s.calls|)
  }

  ghost predicate TableExact(s: State, events: seq<Event>) {
    forall path, c :: path in s.locks && s.locks[path] == c <==> HoldsSlot(events, path, c)
  }

  /** What is recorded is what happened: after any run, each call's path, phase,
      signal, release and caller, the turns taken and the table are those that the
      order of the events alone determines. */
  lemma {:induction false} HistoryExact(events: seq<Event>)
    requires IsRun(INITIAL, events)
    ensures var s := After(INITIAL, events);
      CallsExact(s, events) && s.turns == Turns(events) && TableExact(s, events)
    decreases |events|
  {
    if events != [] {
      var before, last := events[..|events| - 1], events[|events| - 1];
      assert events == before + [last];
      RunSnoc(INITIAL, before, last);
      HistoryExact(before);
      var s := After(INITIAL, before);
      hide *;
      CallsStep(s, before, last);
      TurnsStep(s, before, last);
      TableStep(s, before, last);
    }
  }

  lemma SettlesOnce(events: seq<Event>, e: Event, c: CallId)
    ensures HasSettled(events + [e], c) <==>
            HasSettled(events, c) || e == End(c) || (e == Begin(c) && Signal(c) in events)
  {
    var all := events + [e];
    forall i: nat | i <= |events|
      ensures SkipsTurn(all, i, c) <==> SkipsTurn(events, i, c) || (i == |events| && e == Begin(c) && Signal(c) in events)
    {
      assert all[..i] == events[..i];
      assert events[..|events|] == events;
    }
    if e == Begin(c) && Signal(c) in events { assert SkipsTurn(all, |events|, c); }
    if i :| SkipsTurn(events, i, c) { assert SkipsTurn(all, i, c); }
  }

  lemma CallStep(s: State, events: seq<Event>, e: Event, c: CallId)
    requires c < |s.calls| && CallExact(s.calls[c], events, c) && Enabled(s, e)
    ensures c < |Step(s, e).calls| && CallExact(Step(s, e).calls[c], events + [e], c)
  {
    SettlesOnce(events, e, c);
    hide HasSettled;
  }

  lemma NothingYet(events: seq<Event>, c: CallId)
    requires forall e | e in events && !e.Arrive? :: e.c < c
    ensures !HasSettled(events, c)
  {
  }

  lemma CallsStep(s: State, events: seq<Event>, e: Event)
    requires CallsExact(s, events) && Enabled(s, e)
    ensures CallsExact(Step(s, e), events + [e])
  {
    var t, all := Step(s, e), events + [e];
    assert all[..|events|] == events;
    forall c: nat | c < |s.calls| ensures t.calls[c].path == s.calls[c].path && CallExact(t.calls[c], all, c) {
      CallStep(s, events, e, c);
    }
    if e.Arrive? {
      NothingYet(all, |s.calls|);
      assert CallExact(t.calls[|s.calls|], all, |s.calls|);
    }
  }

  lemma TurnsStep(s: State, events: seq<Event>, e: Event)
    requires CallsExact(s, events) && s.turns == Turns(events) && Enabled(s, e)
    ensures Step(s, e).turns == Turns(events + [e])
  {
    assert (events + [e])[..|events|] == events;
  }

  lemma SlotOnArrival(events: seq<Event>, p: string, path: string, c: CallId)
    requires Release(|Arrivals(events)|) !in events
    ensures HoldsSlot(events + [Arrive(p)], path, c) <==>
            if path == p then c == |Arrivals(events)| else HoldsSlot(events, path, c)
  {
    var all := events + [Arrive(p)];
    var n := |Arrivals(events)|;
    assert all[..|all| - 1] == events;
    assert Arrivals(all) == Arrivals(events) + [p];
    assert Arrivals(all)[n] == p;
    assert forall d | 0 <= d < n :: Arrivals(all)[d] == Arrivals(events)[d];
    assert Release(c) in all <==> Release(c) in events;
  }

  lemma TableStep(s: State, events: seq<Event>, e: Event)
    requires CallsExact(s, events) && TableExact(s, events) && Enabled(s, e)
    ensures TableExact(Step(s, e), events + [e])
  {
    var t, all := Step(s, e), events + [e];
    assert all[..|all| - 1] == events;
    assert Arrivals(all) == if e.Arrive? then Arrivals(events) + [e.path] else Arrivals(events);
    forall path: string, c: CallId
      ensures path in t.locks && t.locks[path] == c <==> HoldsSlot(all, path, c)
    {
      assert path in s.locks && s.locks[path] == c <==> HoldsSlot(events, path, c);
      match e
      case Arrive(p) =>
        var n := |Arrivals(events)|;
        assert Arrivals(all)[n] == p;
        assert Release(n) !in events;
        SlotOnArrival(events, p, path, c);
      case Release(d) =>
        assert HoldsSlot(all, path, c) <==> HoldsSlot(events, path, c) && c != d;
        assert path in s.locks && s.locks[path] == d <==> HoldsSlot(events, path, d);
        assert s.calls[d].path == Arrivals(events)[d];
      case _ =>
        assert HoldsSlot(all, path, c) <==> HoldsSlot(events, path, c);
    }
  }

  lemma {:induction false} ArrivalsGrow(events: seq<Event>, n: nat)
    requires n <= |events|
    ensures Arrivals(events[..n]) <= Arrivals(events)
    decreases |events|
  {
    if n == |events| {
      assert events[..n] == events;
    } else {
      ArrivalsGrow(events[..|events| - 1], n);
      assert events[..|events| - 1][..n] == events[..n];
    }
  }

  /** The state before event `j` of a run. */
  lemma StateAt(events: seq<Event>, j: nat)
    requires IsRun(INITIAL, events) && j < |events|
    ensures IsRun(INITIAL, events[..j])
    ensures var s := After(INITIAL, events[..j]);
      Enabled(s, events[j]) && Invariant(s) && CallsExact(s, events[..j])
    ensures Arrivals(events[..j]) <= Arrivals(events)
  {
    RunPrefix(INITIAL, events, j);
    HistoryExact(events[..j]);
    ReachableInvariant(After(INITIAL, events[..j]));
    ArrivalsGrow(events, j);
  }

  lemma NotBegunBefore(events: seq<Event>, j: nat, c: CallId)
    requires IsRun(INITIAL, events) && j < |events| && events[j] == Begin(c)
    ensures Begin(c) !in events[..j]
  {
    StateAt(events, j);
  }

  lemma BeginsOnce(events: seq<Event>, i: nat, k: nat, c: CallId)
    requires IsRun(INITIAL, events) && i < |events| && k < |events| && events[i] == events[k] == Begin(c)
    ensures i == k
  {
    assert i < k ==> events[..k][i] == events[i];
    assert k < i ==> events[..i][k] == events[k];
    NotBegunBefore(events, i, c);
    NotBegunBefore(events, k, c);
  }

  /** What has settled has begun. */
  lemma SettledHasBegun(events: seq<Event>, j: nat, c: CallId)
    requires IsRun(INITIAL, events) && j < |events| && c < |Arrivals(events[..j])| && HasSettled(events[..j], c)
    ensures Begin(c) in events[..j]
  {
    StateAt(events, j);
    hide HasSettled;
    assert CallExact(After(INITIAL, events[..j]).calls[c], events[..j], c);
  }

  /** A callback runs only when every earlier call on its path has settled. */
  lemma BeginWaitsForAll(events: seq<Event>, j: nat, c: CallId, d: CallId)
    requires IsRun(INITIAL, events) && j < |events| && events[j] == Begin(d)
    requires c < d < |Arrivals(events)| && Arrivals(events)[c] == Arrivals(events)[d]
    ensures HasSettled(events[..j], c)
  {
    StateAt(events, j);
    hide HasSettled, Arrivals;
    var s := After(INITIAL, events[..j]);
    PriorSettledMeansAll(s.calls, d);
    assert s.calls[c].path == s.calls[d].path;
  }

  /** A section ends only after its callback has begun. */
  lemma EndFollowsBegin(events: seq<Event>, m: nat, c: CallId)
    requires IsRun(INITIAL, events) && m < |events| && events[m] == End(c)
    ensures Begin(c) in events[..m]
  {
    StateAt(events, m);
  }

  /** No two guarded sections of one path overlap, in any run: between the starts
      of two turns lies the end of the first, and they start in arrival order. */
  lemma SectionsDoNotOverlap(events: seq<Event>, i: nat, j: nat, c: CallId, d: CallId)
    requires IsRun(INITIAL, events) && i < j && TakesTurn(events, i, c) && TakesTurn(events, j, d)
    requires c < |Arrivals(events)| && d < |Arrivals(events)| && Arrivals(events)[c] == Arrivals(events)[d]
    ensures c < d
    ensures exists m :: i < m < j && events[m] == End(c)
  {
    InTurn(events, i, j, c, d);
    BeginWaitsForAll(events, j, c, d);
    assert events[..j][i] == Begin(c);
    if k: nat :| SkipsTurn(events[..j], k, c) {
      assert events[..j][..k] == events[..k];
      BeginsOnce(events, i, k, c);
    }
    var m: nat :| m < j && events[..j][m] == End(c);
    EndFollowsBegin(events, m, c);
    var k: nat :| k < m && events[..m][k] == Begin(c);
    BeginsOnce(events, i, k, c);
  }

  lemma InTurn(events: seq<Event>, i: nat, j: nat, c: CallId, d: CallId)
    requires IsRun(INITIAL, events) && i < j < |events| && events[i] == Begin(c) && events[j] == Begin(d)
    requires c < |Arrivals(events)| && d < |Arrivals(events)| && Arrivals(events)[c] == Arrivals(events)[d]
    ensures c < d
  {
    hide Arrivals;
    assert events[..j][i] == events[i] && events[..i] <= events[..j];
    if d < c {
      StateAt(events, i);
      BeginWaitsForAll(events, i, d, c);
      SettledHasBegun(events, i, d);
    }
    NotBegunBefore(events, j, d);
  }

  /** When nothing is left to run, every arrival has settled by its own callback
      or section end, and has cleared its slot. */
  lemma AtRestAllSettled(events: seq<Event>, c: CallId)
    requires IsRun(INITIAL, events) && c < |Arrivals(events)|
    requires forall e :: !Internal(After(INITIAL, events), e)
    ensures HasSettled(events, c) && Release(c) in events
  {
    var s := After(INITIAL, events);
    HistoryExact(events);
    QuiescentIsEmpty(s);
    hide HasSettled;
    assert CallExact(s.calls[c], events, c);
  }

  // ---------- The shared table ----------

  class FetchLockTable {
    var locks: map<string, CallId>
    var calls: seq<Call>
    ghost var turns: seq<CallId>

    ghost function Snapshot(): State
      reads this
    {
      State(locks, calls, turns)
    }

    constructor ()
      ensures Snapshot() == INITIAL && Invariant(Snapshot())
    {
      locks, calls, turns := map[], [], [];
    }

    /** Reads the tail, queues behind it and becomes the tail. */
    method EnsureRepositoryCache(path: string) returns (c: CallId)
      requires Invariant(Snapshot())
      modifies this
      ensures Snapshot() == Step(old(Snapshot()), Arrive(path)) && Invariant(Snapshot())
      ensures c == old(|calls|)
    {
      StepInvariant(Snapshot(), Arrive(path));
      var prior := if path in locks then Some(locks[path]) else None;
      c := |calls|;
      calls := calls + [Call(path, prior, Waiting, false, false, Pending)];
      locks := locks[path := c];
    }

    /** The callback registered on the predecessor. */
    method TakeTurn(c: CallId)
      requires Invariant(Snapshot()) && Enabled(Snapshot(), Begin(c))
      modifies this
      ensures Snapshot() == Step(old(Snapshot()), Begin(c)) && Invariant(Snapshot())
    {
      StepInvariant(Snapshot(), Begin(c));
      if calls[c].aborted {
        calls := calls[c := calls[c].(phase := Settled)];
        return;
      }
      calls := calls[c := calls[c].(phase := Running)];
      turns := turns + [c];
    }

    method EndTurn(c: CallId)
      requires Invariant(Snapshot()) && Enabled(Snapshot(), End(c))
      modifies this
      ensures Snapshot() == Step(old(Snapshot()), End(c)) && Invariant(Snapshot())
    {
      StepInvariant(Snapshot(), End(c));
      calls := calls[c := calls[c].(phase := Settled)];
    }

    /** Clears the slot only if no later caller has overwritten it. */
    method ReleaseLock(c: CallId)
      requires Invariant(Snapshot()) && Enabled(Snapshot(), Release(c))
      modifies this
      ensures Snapshot() == Step(old(Snapshot()), Release(c)) && Invariant(Snapshot())
    {
      StepInvariant(Snapshot(), Release(c));
      var path := calls[c].path;
      calls := calls[c := calls[c].(released := true)];
      if path in locks && locks[path] == c {
        locks := locks - {path};
      }
    }

    /** The signal fires, and later the caller stops waiting. */
    method AbortCaller(c: CallId)
      requires Invariant(Snapshot()) && Enabled(Snapshot(), Signal(c))
      modifies this
      ensures Snapshot() == Step(old(Snapshot()), Signal(c)) && Invariant(Snapshot())
    {
      StepInvariant(Snapshot(), Signal(c));
      calls := calls[c := calls[c].(aborted := true)];
    }

    method StopWaiting(c: CallId)
      requires Invariant(Snapshot()) && Enabled(Snapshot(), Leave(c))
      modifies this
      ensures Snapshot() == Step(old(Snapshot()), Leave(c)) && Invariant(Snapshot())
    {
      StepInvariant(Snapshot(), Leave(c));
      calls := calls[c := calls[c].(waiter := GaveUp)];
    }

    method LearnOutcome(c: CallId)
      requires Invariant(Snapshot()) && Enabled(Snapshot(), Resume(c))
      modifies this
      ensures Snapshot() == Step(old(Snapshot()), Resume(c)) && Invariant(Snapshot())
    {
      StepInvariant(Snapshot(), Resume(c));
      calls := calls[c := calls[c].(waiter := Returned)];
    }
  }
}
