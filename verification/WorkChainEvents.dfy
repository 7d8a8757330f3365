/** What the daemon's work chain does with each timer fire, trigger and result, in
    terms of the events of a run: `src/daemon.ts`, `src/daemon-poll-now.ts`. */
module WorkChainEvents {
  import opened Wrappers
  import opened WorkChain

  // ---------- Links ----------

  /** A link's phase, as the events so far determine it. */
  ghost predicate PhaseExact(phase: Phase, events: seq<Event>, k: nat) {
    match phase
    case Waiting => forall ok :: Complete(k, ok) !in events
    case Running => forall ok :: Complete(k, ok) !in events
    case Finishing(ok) => Complete(k, ok) in events && Complete(k, !ok) !in events
    case Ended(ok) => Complete(k, ok) in events && Complete(k, !ok) !in events
    case Settled(ok) => Complete(k, ok) in events && Complete(k, !ok) !in events
  }

  ghost predicate LinksExact(s: State, events: seq<Event>) {
    && (forall k: nat | k < |s.jobs| :: PhaseExact(s.jobs[k].phase, events, k))
    && (forall k: nat, ok | Complete(k, ok) in events :: k < |s.jobs|)
  }

  lemma ActLinks(s: State, a: Action)
    ensures |Act(s, a).jobs| >= |s.jobs|
    ensures forall k: nat | k < |s.jobs| :: Act(s, a).jobs[k] == s.jobs[k]
    ensures forall k: nat | |s.jobs| <= k < |Act(s, a).jobs| :: Act(s, a).jobs[k].phase == Waiting
  {
  }

  lemma LinksStep(s: State, events: seq<Event>, e: Event)
    requires LinksExact(s, events) && Enabled(s, e)
    ensures LinksExact(Step(s, e), events + [e])
  {
    var t, all := Step(s, e), events + [e];
    match e
    case Turn(a) => ActLinks(s, a);
    case RunJob => if s.queue[0].Do? { ActLinks(s.(queue := s.queue[1..]), s.queue[0].action); }
    case _ =>
    hide Act;
    forall k: nat | k < |t.jobs| ensures PhaseExact(t.jobs[k].phase, all, k) {
      if k < |s.jobs| { assert PhaseExact(s.jobs[k].phase, events, k); }
    }
  }

  /** A link that has settled did so as its work completed, with the same outcome,
      and a link whose work has not completed has not settled. */
  lemma {:induction false} SettlesAsCompleted(events: seq<Event>)
    requires IsRun(events)
    ensures LinksExact(After(events), events)
    decreases |events|
  {
    if events != [] {
      var before, last := events[..|events| - 1], events[|events| - 1];
      assert events == before + [last];
      SettlesAsCompleted(before);
      hide LinksExact, Step, Enabled;
      LinksStep(After(before), before, last);
    }
  }

  // ---------- Every fire counts ----------

  function Actions(queue: seq<Task>): seq<Action> {
    if queue == [] then [] else (if queue[0].Do? then [queue[0].action] else []) + Actions(queue[1..])
  }

  /** How often an action has been requested, in a turn of its own or posted. */
  function Requests(events: seq<Event>, a: Action): nat {
    multiset(events)[Turn(a)] + multiset(events)[Post(a)]
  }

  function QueuedRequests(queue: seq<Task>, a: Action): nat { multiset(Actions(queue))[a] }

  function Ticks(jobs: seq<Job>): nat {
    if jobs == [] then 0 else (if jobs[0].kind.Tick? then 1 else 0) + Ticks(jobs[1..])
  }

  lemma {:induction false} ActionsConcat(a: seq<Task>, b: seq<Task>)
    ensures Actions(a + b) == Actions(a) + Actions(b)
  {
    if a == [] {
      assert a + b == b;
    } else {
      assert (a + b)[1..] == a[1..] + b;
      ActionsConcat(a[1..], b);
    }
  }

  lemma {:induction false} TicksConcat(a: seq<Job>, b: seq<Job>)
    ensures Ticks(a + b) == Ticks(a) + Ticks(b)
  {
    if a == [] {
      assert a + b == b;
    } else {
      assert (a + b)[1..] == a[1..] + b;
      TicksConcat(a[1..], b);
    }
  }

  lemma {:induction false} TicksPhase(jobs: seq<Job>, k: nat, phase: Phase)
    requires k < |jobs|
    ensures Ticks(SetPhase(jobs, k, phase)) == Ticks(jobs)
  {
    var after := SetPhase(jobs, k, phase);
    if k == 0 {
      assert after[1..] == jobs[1..];
    } else {
      assert after[1..] == SetPhase(jobs[1..], k - 1, phase);
      TicksPhase(jobs[1..], k - 1, phase);
    }
  }

  lemma AddedTasks(queue: seq<Task>, added: seq<Task>, a: Action)
    requires forall i | 0 <= i < |added| :: !added[i].Do?
    ensures QueuedRequests(queue + added, a) == QueuedRequests(queue, a)
  {
    ActionsConcat(queue, added);
    NoActions(added);
    assert Actions(queue) + [] == Actions(queue);
  }

  lemma {:induction false} NoActions(queue: seq<Task>)
    requires forall i | 0 <= i < |queue| :: !queue[i].Do?
    ensures Actions(queue) == []
  {
    if queue != [] { NoActions(queue[1..]); }
  }

  lemma AddedAction(queue: seq<Task>, b: Action, posted: nat, a: Action)
    ensures QueuedRequests(queue + [Do(b, posted)], a) == QueuedRequests(queue, a) + if a == b then 1 else 0
  {
    ActionsConcat(queue, [Do(b, posted)]);
    assert [Do(b, posted)][1..] == [];
    assert Actions([Do(b, posted)]) == [b];
  }

  lemma TakenTask(queue: seq<Task>, a: Action)
    requires queue != []
    ensures QueuedRequests(queue, a) == QueuedRequests(queue[1..], a) + if queue[0].Do? && queue[0].action == a then 1 else 0
  {
  }

  lemma RequestsStep(events: seq<Event>, e: Event, a: Action)
    ensures Requests(events + [e], a) == Requests(events, a) + if e == Turn(a) || e == Post(a) then 1 else 0
  {
    assert multiset(events + [e]) == multiset(events) + multiset{e};
  }

  /** Each request is queued or has been carried out: a timer fire has its own tick
      link, a trigger its own caller served. */
  ghost predicate Counted(s: State, events: seq<Event>) {
    && Requests(events, TimerTick) == Ticks(s.jobs) + QueuedRequests(s.queue, TimerTick)
    && Requests(events, Trigger) == |s.served| + QueuedRequests(s.queue, Trigger)
  }

  lemma EnqueueCounts(s: State, kind: Kind, a: Action)
    ensures Ticks(Enqueue(s, kind).jobs) == Ticks(s.jobs) + if kind.Tick? then 1 else 0
    ensures QueuedRequests(Enqueue(s, kind).queue, a) == QueuedRequests(s.queue, a)
    ensures Enqueue(s, kind).served == s.served
  {
    var k := |s.jobs|;
    TicksConcat(s.jobs, [Job(kind, Waiting)]);
    assert [Job(kind, Waiting)][1..] == [];
    AddedTasks(s.queue, if k == 0 || s.jobs[k - 1].phase.Settled? then [Begin(k)] else [], a);
    hide QueuedRequests;
  }

  lemma ActCounts(s: State, b: Action, a: Action)
    ensures var t := Act(s, b);
      && Ticks(t.jobs) == Ticks(s.jobs) + (if b.TimerTick? then 1 else 0)
      && QueuedRequests(t.queue, a) == QueuedRequests(s.queue, a)
      && |t.served| == |s.served| + (if b.Trigger? then 1 else 0)
  {
    EnqueueCounts(s, Tick, a);
    EnqueueCounts(s, Watchdog, a);
    EnqueueCounts(s, PollNow, a);
    hide Enqueue, Ticks, QueuedRequests;
  }

  lemma PerformCounts(s: State, task: Task, a: Action)
    requires Ready(s, task)
    ensures var t := Perform(s, task);
      && Ticks(t.jobs) == Ticks(s.jobs) + (if task.Do? && task.action.TimerTick? then 1 else 0)
      && QueuedRequests(t.queue, a) == QueuedRequests(s.queue, a)
      && |t.served| == |s.served| + (if task.Do? && task.action.Trigger? then 1 else 0)
  {
    match task
    case Do(b, _) => ActCounts(s, b, a);
    case Begin(k) => TicksPhase(s.jobs, k, Running);
    case Finish(k) =>
      TicksPhase(s.jobs, k, Ended(s.jobs[k].phase.ok));
      var added := (if s.jobs[k].kind.PollNow? then [Clear(k)] else []) + [Adopt(k)];
      AddedTasks(s.queue, added, a);
      assert s.queue + added == s.queue + (if s.jobs[k].kind.PollNow? then [Clear(k)] else []) + [Adopt(k)];
    case Adopt(k) =>
      TicksPhase(s.jobs, k, Settled(s.jobs[k].phase.ok));
      AddedTasks(s.queue, if k + 1 < |s.jobs| then [Begin(k + 1)] else [], a);
    case Clear(_) =>
    hide Ticks, QueuedRequests, Act;
  }

  predicate CarriesOut(s: State, e: Event, a: Action)
    requires Enabled(s, e)
  {
    e == Turn(a) || (e.RunJob? && s.queue[0].Do? && s.queue[0].action == a)
  }

  lemma QueuedStep(s: State, e: Event, a: Action)
    requires Enabled(s, e)
    ensures QueuedRequests(Step(s, e).queue, a) ==
            QueuedRequests(s.queue, a) + (if e == Turn(a) || e == Post(a) then 1 else 0) - (if CarriesOut(s, e, a) then 1 else 0)
  {
    match e
    case Turn(b) => ActCounts(s, b, a);
    case Post(b) => AddedAction(s.queue, b, s.time, a);
    case Complete(k, ok) => AddedTasks(s.queue, [Finish(k)], a);
    case RunJob =>
      TakenTask(s.queue, a);
      PerformCounts(s.(queue := s.queue[1..]), s.queue[0], a);
    hide QueuedRequests, Act, Perform;
  }

  lemma DoneStep(s: State, e: Event)
    requires Enabled(s, e)
    ensures Ticks(Step(s, e).jobs) == Ticks(s.jobs) + if CarriesOut(s, e, TimerTick) then 1 else 0
    ensures |Step(s, e).served| == |s.served| + if CarriesOut(s, e, Trigger) then 1 else 0
  {
    match e
    case Turn(b) => ActCounts(s, b, b);
    case Complete(k, ok) => TicksPhase(s.jobs, k, Finishing(ok));
    case RunJob => PerformCounts(s.(queue := s.queue[1..]), s.queue[0], TimerTick);
    case _ =>
    hide Ticks, Act, Perform;
  }

  lemma CountsStep(s: State, events: seq<Event>, e: Event)
    requires Counted(s, events) && Enabled(s, e)
    ensures Counted(Step(s, e), events + [e])
  {
    QueuedStep(s, e, TimerTick);
    QueuedStep(s, e, Trigger);
    DoneStep(s, e);
    RequestsStep(events, e, TimerTick);
    RequestsStep(events, e, Trigger);
    hide QueuedRequests, Ticks, Requests, Step, Enabled, CarriesOut;
  }

  /** In every run: as many tick links as timer fires carried out, and as many
      callers served as triggers carried out; what is missing is queued. */
  lemma {:induction false} EveryFireCounts(events: seq<Event>)
    requires IsRun(events)
    ensures Counted(After(events), events)
    decreases |events|
  {
    if events != [] {
      var before, last := events[..|events| - 1], events[|events| - 1];
      assert events == before + [last];
      EveryFireCounts(before);
      hide Counted, Step, Enabled;
      CountsStep(After(before), before, last);
    } else {
      assert Actions([]) == [] && Ticks([]) == 0;
    }
  }

  /** At rest every timer fire has had its tick, run to its end. */
  lemma RestingHasTicked(events: seq<Event>)
    requires IsRun(events) && forall e :: !Internal(After(events), e)
    ensures Ticks(After(events).jobs) == Requests(events, TimerTick)
    ensures |After(events).served| == Requests(events, Trigger)
    ensures forall k: nat | k < |After(events).jobs| :: Complete(k, true) in events || Complete(k, false) in events
  {
    hide *;
    var s := After(events);
    RunIsReachable(events);
    QuiescentIsFinished(s);
    EveryFireCounts(events);
    NothingQueued(s, events);
    forall k: nat | k < |s.jobs| ensures Complete(k, true) in events || Complete(k, false) in events {
      SettledIsComplete(events, k);
    }
  }

  lemma RunIsReachable(events: seq<Event>)
    requires IsRun(events)
    ensures Reachable(After(events))
  {
  }

  lemma NothingQueued(s: State, events: seq<Event>)
    requires Counted(s, events) && s.queue == []
    ensures Ticks(s.jobs) == Requests(events, TimerTick) && |s.served| == Requests(events, Trigger)
  {
    assert Actions([]) == [];
    hide Ticks, Requests;
  }

  lemma SettledIsComplete(events: seq<Event>, k: nat)
    requires IsRun(events) && k < |After(events).jobs| && After(events).jobs[k].phase.Settled?
    ensures Complete(k, true) in events || Complete(k, false) in events
  {
    SettlesAsCompleted(events);
    hide After, IsRun;
    assert PhaseExact(After(events).jobs[k].phase, events, k);
  }

  // ---------- The watchdog ----------

  /** A watchdog fire enqueues one pass exactly if none is queued or running, and
      then one is. */
  lemma WatchdogFires(s: State)
    requires Reachable(s)
    ensures var t := Act(s, TimerWatchdog);
      && t.jobs == (if exists k :: Unfinished(s, Watchdog, k) then s.jobs else s.jobs + [Job(Watchdog, Waiting)])
      && exists k :: Unfinished(t, Watchdog, k)
  {
    ReachableInvariant(s);
    var t := Act(s, TimerWatchdog);
    if k: nat :| Unfinished(s, Watchdog, k) {
      assert 0 <= k < |s.jobs| && s.watchdogQueued;
      assert Unfinished(t, Watchdog, k);
    } else {
      assert Unfinished(t, Watchdog, |s.jobs|);
    }
  }
}
