/** The daemon's serial work chain, with the two flags that keep it short: the
    watchdog's in `src/daemon.ts`, poll-now's in `src/daemon-poll-now.ts`.

    The runtime's job queue (section 9.5 of ECMA-262) is part of the state.
    Reactions of settled promises enter it at the back and run from the front, one
    at a time; an event-loop turn of its own starts only when it is empty. */
module WorkChain {
  import opened Wrappers

  datatype Kind = Tick | Watchdog | PollNow

  /** A link of the chain: not begun; its work under way; the work's last
      continuation queued; the work's own promise settled; the link's settled. */
  datatype Phase = Waiting | Running | Finishing(ok: bool) | Ended(ok: bool) | Settled(ok: bool)

  datatype Job = Job(kind: Kind, phase: Phase)

  /** What code outside the chain does to it. */
  datatype Action = TimerTick | TimerWatchdog | Trigger

  /** A queued job.  A posted action carries the time it was queued at. */
  datatype Task =
    | Do(action: Action, posted: nat)
    | Begin(job: nat)  // the previous link has settled: the work starts
    | Finish(job: nat) // the work returns or throws
    | Adopt(job: nat)  // the link settles like its work
    | Clear(job: nat)  // the reaction registered on the shared poll

  /** `over` counts the settled links.  Histories: `started` logs the links in the
      order their work began, `served` the link each caller waits for, `ends` the
      times at which the work of a poll-now link ended; `time` counts events. */
  datatype State = State(jobs: seq<Job>, watchdogQueued: bool, pending: Option<nat>, queue: seq<Task>,
                         over: nat, started: seq<nat>, served: seq<nat>, ends: seq<nat>, time: nat)

  const INITIAL := State([], false, None, [], 0, [], [], [], 0)

  datatype Event =
    | Turn(action: Action)        // an event-loop turn of its own
    | Post(action: Action)        // running code queues a reaction that will act
    | Complete(job: nat, ok: bool) // what the work awaits last is there
    | RunJob                      // the job at the front of the queue runs

  // ---------- Steps ----------

  /** Registers a link on the chain's last promise; a settled one reacts at once. */
  function Enqueue(s: State, kind: Kind): State {
    var k := |s.jobs|;
    s.(jobs := s.jobs + [Job(kind, Waiting)],
       queue := s.queue + if k == 0 || s.jobs[k - 1].phase.Settled? then [Begin(k)] else [])
  }

  function Act(s: State, a: Action): State {
    match a
    case TimerTick => Enqueue(s, Tick)
    case TimerWatchdog => if s.watchdogQueued then s else Enqueue(s, Watchdog).(watchdogQueued := true)
    case Trigger =>
      if s.pending.Some? then s.(served := s.served + [s.pending.value])
      else Enqueue(s, PollNow).(pending := Some(|s.jobs|), served := s.served + [|s.jobs|])
  }

  function SetPhase(jobs: seq<Job>, k: nat, phase: Phase): seq<Job>
    requires k < |jobs|
  {
    jobs[k := jobs[k].(phase := phase)]
  }

  predicate Ready(s: State, task: Task) {
    match task
    case Do(_, _) => true
    case Begin(k) => k < |s.jobs| && s.jobs[k].phase.Waiting?
    case Finish(k) => k < |s.jobs| && s.jobs[k].phase.Finishing?
    case Adopt(k) => k < |s.jobs| && s.jobs[k].phase.Ended?
    case Clear(_) => true
  }

  /** A job taken from the queue runs. */
  function Perform(s: State, task: Task): State
    requires Ready(s, task)
  {
    match task
    case Do(action, _) => Act(s, action)
    case Begin(k) => s.(jobs := SetPhase(s.jobs, k, Running), started := s.started + [k])
    case Finish(k) =>
      var poll := s.jobs[k].kind.PollNow?;
      s.(jobs := SetPhase(s.jobs, k, Ended(s.jobs[k].phase.ok)),
         watchdogQueued := s.watchdogQueued && !s.jobs[k].kind.Watchdog?,
         queue := s.queue + (if poll then [Clear(k)] else []) + [Adopt(k)],
         ends := if poll then s.ends + [s.time] else s.ends)
    case Adopt(k) =>
      s.(jobs := SetPhase(s.jobs, k, Settled(s.jobs[k].phase.ok)), over := s.over + 1,
         queue := s.queue + if k + 1 < |s.jobs| then [Begin(k + 1)] else [])
    case Clear(_) => s.(pending := None)
  }

  predicate Enabled(s: State, e: Event) {
    match e
    case Turn(_) => s.queue == []
    case Post(_) => true
    case Complete(k, _) => k < |s.jobs| && s.jobs[k].phase.Running?
    case RunJob => s.queue != [] && Ready(s, s.queue[0])
  }

  function Effect(s: State, e: Event): State
    requires Enabled(s, e)
  {
    match e
    case Turn(action) => Act(s, action)
    case Post(action) => s.(queue := s.queue + [Do(action, s.time)])
    case Complete(k, ok) => s.(jobs := SetPhase(s.jobs, k, Finishing(ok)), queue := s.queue + [Finish(k)])
    case RunJob => Perform(s.(queue := s.queue[1..]), s.queue[0])
  }

  function Step(s: State, e: Event): State
    requires Enabled(s, e)
  {
    Effect(s, e).(time := s.time + 1)
  }

  // ---------- Invariant ----------

  /** The settled links come first and the links that have not begun last; at most
      one link is between. */
  predicate Serial(s: State) {
    && s.over <= |s.jobs|
    && (forall k | 0 <= k < |s.jobs| :: s.jobs[k].phase.Settled? <==> k < s.over)
    && (forall k | s.over < k < |s.jobs| :: s.jobs[k].phase.Waiting?)
  }

  /** The work begun so far is the first links', each once and in order. */
  predicate InOrder(s: State) {
    && (forall k | 0 <= k < |s.started| :: s.started[k] == k)
    && |s.started| == s.over + if s.over < |s.jobs| && !s.jobs[s.over].phase.Waiting? then 1 else 0
  }

  function ChainTasks(queue: seq<Task>): seq<Task> {
    if queue == [] then []
    else (if queue[0].Begin? || queue[0].Finish? || queue[0].Adopt? then [queue[0]] else []) + ChainTasks(queue[1..])
  }

  /** The one job that moves the chain on. */
  function NextTask(s: State): seq<Task> {
    if s.over >= |s.jobs| then []
    else
      match s.jobs[s.over].phase
      case Waiting => [Begin(s.over)]
      case Finishing(_) => [Finish(s.over)]
      case Ended(_) => [Adopt(s.over)]
      case _ => []
  }

  predicate TasksRight(s: State) { ChainTasks(s.queue) == NextTask(s) }

  /** The work of link `k` has returned or thrown. */
  predicate Done(s: State, k: nat) { k < |s.jobs| && (s.jobs[k].phase.Ended? || s.jobs[k].phase.Settled?) }

  /** A link of this kind is queued or its work under way. */
  predicate Unfinished(s: State, kind: Kind, k: nat) { k < |s.jobs| && s.jobs[k].kind == kind && !Done(s, k) }

  predicate WatchdogRight(s: State) {
    && (forall i, j | 0 <= i < j < |s.jobs| && Unfinished(s, Watchdog, i) :: !Unfinished(s, Watchdog, j))
    && (s.watchdogQueued <==> exists k :: 0 <= k < |s.jobs| && Unfinished(s, Watchdog, k))
  }

  /** The pending link is a poll-now link, and the only one that can be unfinished. */
  predicate PendingRight(s: State) {
    && (s.pending.Some? ==> s.pending.value < |s.jobs| && s.jobs[s.pending.value].kind == PollNow)
    && (forall k | 0 <= k < |s.jobs| && Unfinished(s, PollNow, k) :: s.pending == Some(k))
    && (forall c | 0 <= c < |s.served| :: s.served[c] < |s.jobs| && s.jobs[s.served[c]].kind == PollNow)
  }

  function ClearTasks(queue: seq<Task>): seq<Task> {
    if queue == [] then [] else (if queue[0].Clear? then [queue[0]] else []) + ClearTasks(queue[1..])
  }

  /** The clearing reaction is queued exactly while the shared poll is over. */
  predicate ClearsRight(s: State) {
    ClearTasks(s.queue) == if s.pending.Some? && Done(s, s.pending.value) then [Clear(s.pending.value)] else []
  }

  /** The work of some poll-now link ended after time `posted`. */
  predicate EndedSince(ends: seq<nat>, posted: nat) { exists m :: 0 <= m < |ends| && posted < ends[m] }

  predicate ClearAhead(queue: seq<Task>, p: nat) { exists c :: p < c < |queue| && queue[c].Clear? }

  /** A queued action has a clearing reaction behind it exactly when the poll that
      queued the reaction ended after the action was posted. */
  predicate PostsRight(s: State) {
    && (forall m | 0 <= m < |s.ends| :: s.ends[m] < s.time)
    && (forall p: nat | p < |s.queue| && s.queue[p].Do? :: PostRight(s, p))
  }

  predicate PostRight(s: State, p: nat)
    requires p < |s.queue| && s.queue[p].Do?
  {
    s.queue[p].posted < s.time && (EndedSince(s.ends, s.queue[p].posted) <==> ClearAhead(s.queue, p))
  }

  predicate Invariant(s: State) {
    Serial(s) && InOrder(s) && TasksRight(s) && WatchdogRight(s) && PendingRight(s) && ClearsRight(s) && PostsRight(s)
  }

  lemma Regroup<T>(a: seq<T>, b: seq<T>, c: seq<T>)
    ensures a + (b + c) == a + b + c
  {
  }

  lemma {:induction false} ChainTasksConcat(a: seq<Task>, b: seq<Task>)
    ensures ChainTasks(a + b) == ChainTasks(a) + ChainTasks(b)
  {
    if a == [] {
      assert a + b == b;
    } else {
      var first := if a[0].Begin? || a[0].Finish? || a[0].Adopt? then [a[0]] else [];
      assert (a + b)[1..] == a[1..] + b && (a + b)[0] == a[0];
      ChainTasksConcat(a[1..], b);
      assert ChainTasks(a + b) == first + ChainTasks(a[1..] + b) && ChainTasks(a) == first + ChainTasks(a[1..]);
      Regroup(first, ChainTasks(a[1..]), ChainTasks(b));
    }
  }

  lemma {:induction false} ClearTasksConcat(a: seq<Task>, b: seq<Task>)
    ensures ClearTasks(a + b) == ClearTasks(a) + ClearTasks(b)
  {
    if a == [] {
      assert a + b == b;
    } else {
      var first := if a[0].Clear? then [a[0]] else [];
      assert (a + b)[1..] == a[1..] + b && (a + b)[0] == a[0];
      ClearTasksConcat(a[1..], b);
      assert ClearTasks(a + b) == first + ClearTasks(a[1..] + b) && ClearTasks(a) == first + ClearTasks(a[1..]);
      Regroup(first, ClearTasks(a[1..]), ClearTasks(b));
    }
  }

  lemma {:induction false} ClearTasksMembers(queue: seq<Task>)
    ensures ClearTasks(queue) != [] <==> exists c :: 0 <= c < |queue| && queue[c].Clear?
  {
    if queue != [] {
      ClearTasksMembers(queue[1..]);
      if c :| 0 <= c < |queue| && queue[c].Clear? && c > 0 {
        assert queue[1..][c - 1].Clear?;
      }
    }
  }

  /** A chain job at the front is the one that moves the chain on, and the only one. */
  lemma HeadIsNext(s: State)
    requires TasksRight(s) && s.queue != [] && (s.queue[0].Begin? || s.queue[0].Finish? || s.queue[0].Adopt?)
    ensures NextTask(s) == [s.queue[0]] && ChainTasks(s.queue[1..]) == []
  {
    assert ChainTasks(s.queue) == [s.queue[0]] + ChainTasks(s.queue[1..]);
    assert |ChainTasks(s.queue)| <= 1;
  }

  lemma HeadIsNoChainTask(s: State)
    requires s.queue != [] && !(s.queue[0].Begin? || s.queue[0].Finish? || s.queue[0].Adopt?)
    ensures ChainTasks(s.queue[1..]) == ChainTasks(s.queue)
  {
    assert [] + ChainTasks(s.queue[1..]) == ChainTasks(s.queue[1..]);
  }

  /** The job at the front can always run. */
  lemma FrontReady(s: State)
    requires Serial(s) && TasksRight(s) && s.queue != []
    ensures Ready(s, s.queue[0])
  {
    if s.queue[0].Begin? || s.queue[0].Finish? || s.queue[0].Adopt? { HeadIsNext(s); }
  }

  // ---------- The chain ----------

  lemma MoreChainTasks(queue: seq<Task>, k: nat, added: seq<Task>)
    requires added == [] || added == [Begin(k)]
    ensures ChainTasks(queue + added) == ChainTasks(queue) + added
  {
    var none: seq<Task> := [];
    assert ChainTasks(none) == [];
    ChainTasksConcat(queue, added);
    ChainTasksOne(Begin(k));
    hide ChainTasks;
  }

  lemma EnqueueChain(s: State, kind: Kind)
    requires Serial(s) && InOrder(s) && TasksRight(s)
    ensures var t := Enqueue(s, kind); Serial(t) && InOrder(t) && TasksRight(t)
  {
    hide ChainTasks;
    var k := |s.jobs|;
    var t := Enqueue(s, kind);
    MoreChainTasks(s.queue, k, if k == 0 || s.jobs[k - 1].phase.Settled? then [Begin(k)] else []);
    assert s.over == k <==> k == 0 || s.jobs[k - 1].phase.Settled?;
    assert t.jobs == s.jobs + [Job(kind, Waiting)];
    assert s.over < k ==> t.jobs[s.over] == s.jobs[s.over] && NextTask(t) == NextTask(s);
  }

  lemma ChainFrame(s: State, t: State)
    requires Serial(s) && InOrder(s) && TasksRight(s)
    requires t.jobs == s.jobs && t.queue == s.queue && t.over == s.over && t.started == s.started
    ensures Serial(t) && InOrder(t) && TasksRight(t)
  {
    hide ChainTasks;
  }

  lemma ActChain(s: State, a: Action)
    requires Serial(s) && InOrder(s) && TasksRight(s)
    ensures var t := Act(s, a); Serial(t) && InOrder(t) && TasksRight(t)
  {
    hide Enqueue, Serial, InOrder, TasksRight;
    var kind := match a case TimerTick => Tick case TimerWatchdog => Watchdog case Trigger => PollNow;
    EnqueueChain(s, kind);
    var t := Act(s, a);
    var from := if a.TimerTick? || (a.TimerWatchdog? && !s.watchdogQueued) || (a.Trigger? && s.pending.None?) then Enqueue(s, kind) else s;
    ChainFrame(from, t);
  }

  lemma FinishChain(s: State, k: nat)
    requires Serial(s) && InOrder(s) && ChainTasks(s.queue) == [] && NextTask(s) == [Finish(k)]
    ensures Ready(s, Finish(k))
    ensures var t := Perform(s, Finish(k)); Serial(t) && InOrder(t) && TasksRight(t)
  {
    var cleared := if s.jobs[k].kind.PollNow? then [Clear(k)] else [];
    FinishTasks(s.queue, k, cleared);
    hide ChainTasks;
  }

  lemma FinishTasks(queue: seq<Task>, k: nat, cleared: seq<Task>)
    requires ChainTasks(queue) == [] && (cleared == [] || cleared == [Clear(k)])
    ensures ChainTasks(queue + cleared + [Adopt(k)]) == [Adopt(k)]
  {
    var none: seq<Task> := [];
    assert ChainTasks(none) == [];
    ChainTasksConcat(queue, cleared);
    ChainTasksConcat(queue + cleared, [Adopt(k)]);
    ChainTasksOne(Clear(k));
    ChainTasksOne(Adopt(k));
    hide ChainTasks;
  }

  lemma AdoptChain(s: State, k: nat)
    requires Serial(s) && InOrder(s) && ChainTasks(s.queue) == [] && NextTask(s) == [Adopt(k)]
    ensures Ready(s, Adopt(k))
    ensures var t := Perform(s, Adopt(k)); Serial(t) && InOrder(t) && TasksRight(t)
  {
    hide ChainTasks;
    MoreChainTasks(s.queue, k + 1, if k + 1 < |s.jobs| then [Begin(k + 1)] else []);
  }

  lemma BeginChain(s: State, k: nat)
    requires Serial(s) && InOrder(s) && ChainTasks(s.queue) == [] && NextTask(s) == [Begin(k)]
    ensures Ready(s, Begin(k))
    ensures var t := Perform(s, Begin(k)); Serial(t) && InOrder(t) && TasksRight(t)
  {
    hide ChainTasks;
  }

  lemma ChainTasksOne(task: Task)
    ensures ChainTasks([task]) == if task.Begin? || task.Finish? || task.Adopt? then [task] else []
  {
    assert [task][1..] == [];
  }

  lemma PerformChain(s: State, task: Task)
    requires Serial(s) && InOrder(s) && ChainTasks(s.queue) == [] && NextTask(s) == [task]
    ensures Ready(s, task)
    ensures var t := Perform(s, task); Serial(t) && InOrder(t) && TasksRight(t)
  {
    assert task.Begin? || task.Finish? || task.Adopt?;
    hide *;
    match task
    case Begin(k) => BeginChain(s, k);
    case Finish(k) => FinishChain(s, k);
    case Adopt(k) => AdoptChain(s, k);
    case _ =>
  }

  lemma StepChain(s: State, e: Event)
    requires Serial(s) && InOrder(s) && TasksRight(s) && Enabled(s, e)
    ensures var t := Step(s, e); Serial(t) && InOrder(t) && TasksRight(t)
  {
    match e
    case Turn(action) => ActChain(s, action);
    case Post(action) =>
      ChainTasksConcat(s.queue, [Do(action, s.time)]);
      ChainTasksOne(Do(action, s.time));
    case Complete(k, _) =>
      ChainTasksConcat(s.queue, [Finish(k)]);
      ChainTasksOne(Finish(k));
    case RunJob => RunJobChain(s);
  }

  lemma RunJobChain(s: State)
    requires Serial(s) && InOrder(s) && TasksRight(s) && Enabled(s, RunJob)
    ensures var t := Step(s, RunJob); Serial(t) && InOrder(t) && TasksRight(t)
  {
    var popped := s.(queue := s.queue[1..]);
    var head := s.queue[0];
    if head.Begin? || head.Finish? || head.Adopt? {
      HeadIsNext(s);
      hide ChainTasks;
      PerformChain(popped, head);
    } else {
      HeadIsNoChainTask(s);
      hide ChainTasks, Enqueue;
      if head.Do? { ActChain(popped, head.action); }
    }
  }

  // ---------- The flags ----------

  /** What a step does to the links: at most one ends, at most one is appended. */
  predicate LinksKept(s: State, t: State, ended: Option<nat>) {
    && |s.jobs| <= |t.jobs| <= |s.jobs| + 1
    && (forall k | 0 <= k < |s.jobs| :: t.jobs[k].kind == s.jobs[k].kind && (Done(t, k) <==> Done(s, k) || ended == Some(k)))
    && (|s.jobs| < |t.jobs| ==> !Done(t, |s.jobs|))
  }

  /** The link whose work this step ends. */
  function EndedBy(s: State, e: Event): Option<nat> {
    if e.RunJob? && s.queue != [] && s.queue[0].Finish? then Some(s.queue[0].job) else None
  }

  lemma StepLinks(s: State, e: Event)
    requires Enabled(s, e)
    ensures LinksKept(s, Step(s, e), EndedBy(s, e))
    ensures EndedBy(s, e).Some? ==> EndedBy(s, e).value < |s.jobs| && !Done(s, EndedBy(s, e).value)
  {
  }

  lemma StepWatchdog(s: State, e: Event)
    requires WatchdogRight(s) && Enabled(s, e)
    ensures WatchdogRight(Step(s, e))
  {
    var t := Step(s, e);
    StepLinks(s, e);
    var flag := t.watchdogQueued;
    assert |t.jobs| > |s.jobs| && t.jobs[|s.jobs|].kind == Watchdog ==> !s.watchdogQueued && flag;
    assert |t.jobs| == |s.jobs| || t.jobs[|s.jobs|].kind != Watchdog ==>
             flag == (s.watchdogQueued && !(EndedBy(s, e).Some? && s.jobs[EndedBy(s, e).value].kind == Watchdog));
    hide Step, Done;
    forall k | 0 <= k < |s.jobs| ensures Unfinished(t, Watchdog, k) <==> Unfinished(s, Watchdog, k) && EndedBy(s, e) != Some(k) {}
    if EndedBy(s, e).Some? && s.jobs[EndedBy(s, e).value].kind == Watchdog {
      assert Unfinished(s, Watchdog, EndedBy(s, e).value);
    }
    if s.watchdogQueued {
      var k :| 0 <= k < |s.jobs| && Unfinished(s, Watchdog, k);
      assert EndedBy(s, e) == Some(k) || Unfinished(t, Watchdog, k);
    }
    if |t.jobs| > |s.jobs| && t.jobs[|s.jobs|].kind == Watchdog { assert Unfinished(t, Watchdog, |s.jobs|); }
  }

  /** Links that end, or start, leave the pending one right. */
  lemma PendingMonotone(s: State, t: State)
    requires PendingRight(s) && |t.jobs| == |s.jobs| && t.pending == s.pending && t.served == s.served
    requires forall k | 0 <= k < |s.jobs| :: t.jobs[k].kind == s.jobs[k].kind && (Done(s, k) ==> Done(t, k))
    ensures PendingRight(t)
  {
    hide Done;
  }

  lemma PhasePending(s: State, k: nat, phase: Phase)
    requires PendingRight(s) && k < |s.jobs| && (s.jobs[k].phase.Ended? || s.jobs[k].phase.Settled? ==> phase.Settled?)
    ensures PendingRight(s.(jobs := SetPhase(s.jobs, k, phase)))
  {
    PendingMonotone(s, s.(jobs := SetPhase(s.jobs, k, phase)));
  }

  lemma PendingFrame(s: State, t: State)
    requires PendingRight(s) && t.jobs == s.jobs && t.pending == s.pending && t.served == s.served
    ensures PendingRight(t)
  {
    DoneFrame(s, t);
    PendingMonotone(s, t);
  }

  lemma RunJobPending(s: State)
    requires PendingRight(s) && ClearsRight(s) && Enabled(s, RunJob)
    ensures PendingRight(Step(s, RunJob))
  {
    var head, popped, t := s.queue[0], s.(queue := s.queue[1..]), Step(s, RunJob);
    hide PendingRight, Act, Done;
    PendingFrame(s, popped);
    match head {
      case Do(action, _) =>
        ActPending(popped, action);
        PendingFrame(Act(popped, action), t);
      case Begin(k) =>
        PhasePending(popped, k, Running);
        PendingFrame(popped.(jobs := SetPhase(s.jobs, k, Running)), t);
      case Finish(k) =>
        PhasePending(popped, k, Ended(s.jobs[k].phase.ok));
        PendingFrame(popped.(jobs := SetPhase(s.jobs, k, Ended(s.jobs[k].phase.ok))), t);
      case Adopt(k) =>
        PhasePending(popped, k, Settled(s.jobs[k].phase.ok));
        PendingFrame(popped.(jobs := SetPhase(s.jobs, k, Settled(s.jobs[k].phase.ok))), t);
      case Clear(_) => ClearPending(s);
    }
  }

  lemma ClearPending(s: State)
    requires PendingRight(s) && ClearsRight(s) && Enabled(s, RunJob) && s.queue[0].Clear?
    ensures PendingRight(Step(s, RunJob))
  {
    assert ClearTasks(s.queue) == [s.queue[0]] + ClearTasks(s.queue[1..]);
    assert s.pending.Some? && Done(s, s.pending.value);
    hide ClearTasks;
  }

  lemma StepPending(s: State, e: Event)
    requires PendingRight(s) && ClearsRight(s) && Enabled(s, e)
    ensures PendingRight(Step(s, e))
  {
    hide PendingRight, Act, Done, Perform, ClearsRight;
    match e
    case Turn(action) =>
      ActPending(s, action);
      PendingFrame(Act(s, action), Step(s, e));
    case Post(_) => PendingFrame(s, Step(s, e));
    case Complete(k, ok) =>
      PhasePending(s, k, Finishing(ok));
      PendingFrame(s.(jobs := SetPhase(s.jobs, k, Finishing(ok))), Step(s, e));
    case RunJob => RunJobPending(s);
  }

  lemma ActPending(s: State, a: Action)
    requires PendingRight(s)
    ensures PendingRight(Act(s, a))
  {
  }

  lemma ClearTasksOne(task: Task)
    ensures ClearTasks([task]) == if task.Clear? then [task] else []
  {
    assert [task][1..] == [];
  }

  lemma StepClears(s: State, e: Event)
    requires PendingRight(s) && ClearsRight(s) && Enabled(s, e)
    ensures ClearsRight(Step(s, e))
  {
    match e
    case Turn(action) => ActClears(s, action);
    case Post(action) =>
      QuietTask(s.queue, Do(action, s.time));
      ClearsFrame(s, Step(s, e));
    case Complete(k, ok) =>
      QuietTask(s.queue, Finish(k));
      PhaseDone(s, k, ok);
      hide ClearTasks;
    case RunJob => RunJobClears(s);
  }

  lemma QuietTask(queue: seq<Task>, task: Task)
    requires !task.Clear?
    ensures ClearTasks(queue + [task]) == ClearTasks(queue)
  {
    ClearTasksConcat(queue, [task]);
    ClearTasksOne(task);
    hide ClearTasks;
  }

  lemma PhaseDone(s: State, k: nat, ok: bool)
    requires Enabled(s, Complete(k, ok))
    ensures forall j | 0 <= j < |s.jobs| :: Done(Step(s, Complete(k, ok)), j) == Done(s, j)
  {
  }

  lemma RunJobClears(s: State)
    requires PendingRight(s) && ClearsRight(s) && Enabled(s, RunJob)
    ensures ClearsRight(Step(s, RunJob))
  {
    var popped := s.(queue := s.queue[1..]);
    assert ClearTasks(s.queue) == (if s.queue[0].Clear? then [s.queue[0]] else []) + ClearTasks(s.queue[1..]);
    if s.queue[0].Clear? {
      assert ClearTasks(s.queue[1..]) == [];
    } else {
      assert [] + ClearTasks(s.queue[1..]) == ClearTasks(s.queue[1..]);
      ClearsFrame(s, popped);
      PerformClears(popped, s.queue[0]);
      ClearsFrame(Perform(popped, s.queue[0]), Step(s, RunJob));
    }
    hide ClearTasks, PendingRight, ClearsRight, Perform;
  }

  lemma ClearsFrame(s: State, t: State)
    requires t.jobs == s.jobs && t.pending == s.pending && t.served == s.served && ClearTasks(t.queue) == ClearTasks(s.queue)
    ensures PendingRight(s) ==> PendingRight(t)
    ensures ClearsRight(s) ==> ClearsRight(t)
  {
    DoneFrame(s, t);
    hide ClearTasks;
  }

  lemma EnqueueClears(s: State, kind: Kind)
    ensures var t := Enqueue(s, kind);
      && ClearTasks(t.queue) == ClearTasks(s.queue) && !Done(t, |s.jobs|)
      && forall k | 0 <= k < |s.jobs| :: Done(t, k) == Done(s, k)
  {
    var k := |s.jobs|;
    ClearTasksConcat(s.queue, if k == 0 || s.jobs[k - 1].phase.Settled? then [Begin(k)] else []);
    ClearTasksOne(Begin(k));
    hide ClearTasks;
  }

  lemma ActClears(s: State, a: Action)
    requires PendingRight(s) && ClearsRight(s)
    ensures ClearsRight(Act(s, a))
  {
    hide ClearTasks, Enqueue, Done;
    EnqueueClears(s, Tick);
    EnqueueClears(s, Watchdog);
    EnqueueClears(s, PollNow);
    EnqueueKeeps(s, Tick);
    EnqueueKeeps(s, Watchdog);
    EnqueueKeeps(s, PollNow);
    var t := Act(s, a);
    assert a.Trigger? && s.pending.None? ==> t.pending == Some(|s.jobs|);
    DoneFrame(s, t);
    DoneFrame(Enqueue(s, PollNow), t);
    DoneFrame(Enqueue(s, Watchdog), t);
  }

  lemma EnqueueKeeps(s: State, kind: Kind)
    ensures var t := Enqueue(s, kind); t.pending == s.pending && t.jobs == s.jobs + [Job(kind, Waiting)]
  {
  }

  lemma DoneFrame(s: State, t: State)
    ensures s.jobs == t.jobs ==> forall k: nat :: Done(s, k) == Done(t, k)
  {
  }

  lemma FinishQueue(s: State, k: nat)
    requires Ready(s, Finish(k))
    ensures var t := Perform(s, Finish(k));
      && ClearTasks(t.queue) == ClearTasks(s.queue) + (if s.jobs[k].kind.PollNow? then [Clear(k)] else [])
      && t.pending == s.pending && Done(t, k) && !Done(s, k)
      && forall j | 0 <= j < |s.jobs| && j != k :: Done(t, j) == Done(s, j)
  {
    hide ClearTasks;
    FinishClearTasks(s.queue, k, if s.jobs[k].kind.PollNow? then [Clear(k)] else []);
  }

  lemma FinishClearTasks(queue: seq<Task>, k: nat, cleared: seq<Task>)
    requires cleared == [] || cleared == [Clear(k)]
    ensures ClearTasks(queue + cleared + [Adopt(k)]) == ClearTasks(queue) + cleared
  {
    var none: seq<Task> := [];
    assert ClearTasks(none) == [];
    ClearTasksConcat(queue, cleared);
    ClearTasksConcat(queue + cleared, [Adopt(k)]);
    ClearTasksOne(Clear(k));
    ClearTasksOne(Adopt(k));
    hide ClearTasks;
  }

  lemma FinishClears(s: State, k: nat)
    requires PendingRight(s) && ClearsRight(s) && Ready(s, Finish(k))
    ensures ClearsRight(Perform(s, Finish(k)))
  {
    FinishQueue(s, k);
    assert k < |s.jobs| && (s.jobs[k].kind.PollNow? ==> Unfinished(s, PollNow, k)) by { hide *; FinishUnfinished(s, k); }
    hide ClearTasks, Perform, Done;
  }

  lemma FinishUnfinished(s: State, k: nat)
    requires Ready(s, Finish(k))
    ensures k < |s.jobs| && (s.jobs[k].kind.PollNow? ==> Unfinished(s, PollNow, k))
  {
  }

  lemma PerformClears(s: State, task: Task)
    requires PendingRight(s) && ClearsRight(s) && Ready(s, task) && !task.Clear?
    ensures ClearsRight(Perform(s, task))
  {
    match task
    case Do(action, _) => ActClears(s, action);
    case Begin(_) =>
    case Finish(k) => FinishClears(s, k);
    case Adopt(k) =>
      ClearTasksConcat(s.queue, if k + 1 < |s.jobs| then [Begin(k + 1)] else []);
      ClearTasksOne(Begin(k + 1));
  }

  // ---------- Queue positions ----------

  /** What a step does to the queue: the front job leaves when it runs, the others
      keep their order, and new jobs line up behind them. */
  function Remaining(s: State, e: Event): seq<Task>
    requires Enabled(s, e)
  {
    if e.RunJob? then s.queue[1..] else s.queue
  }

  function ActAdded(s: State, a: Action): seq<Task> {
    var k := |s.jobs|;
    var appends := match a case TimerTick => true case TimerWatchdog => !s.watchdogQueued case Trigger => s.pending.None?;
    if appends && (k == 0 || s.jobs[k - 1].phase.Settled?) then [Begin(k)] else []
  }

  function Added(s: State, e: Event): seq<Task>
    requires Enabled(s, e)
  {
    match e
    case Turn(action) => ActAdded(s, action)
    case Post(action) => [Do(action, s.time)]
    case Complete(k, _) => [Finish(k)]
    case RunJob =>
      match s.queue[0]
      case Do(action, _) => ActAdded(s, action)
      case Begin(_) => []
      case Finish(k) => (if s.jobs[k].kind.PollNow? then [Clear(k)] else []) + [Adopt(k)]
      case Adopt(k) => if k + 1 < |s.jobs| then [Begin(k + 1)] else []
      case Clear(_) => []
  }

  lemma ActQueue(s: State, a: Action)
    ensures Act(s, a).queue == s.queue + ActAdded(s, a) && Act(s, a).ends == s.ends
  {
    assert s.queue + [] == s.queue;
  }

  lemma StepQueue(s: State, e: Event)
    requires Enabled(s, e)
    ensures Step(s, e).queue == Remaining(s, e) + Added(s, e)
    ensures Step(s, e).ends == if EndsPoll(s, e) then s.ends + [s.time] else s.ends
  {
    var rest := Remaining(s, e);
    assert rest + [] == rest;
    match e
    case Turn(action) => ActQueue(s, action);
    case Post(_) =>
    case Complete(_, _) =>
    case RunJob =>
      match s.queue[0]
      case Do(action, _) => ActQueue(s.(queue := rest), action);
      case Finish(k) =>
        var cleared := if s.jobs[k].kind.PollNow? then [Clear(k)] else [];
        assert rest + cleared + [Adopt(k)] == rest + (cleared + [Adopt(k)]);
      case _ =>
  }

  /** The step ends the work of a poll-now link. */
  predicate EndsPoll(s: State, e: Event) {
    e.RunJob? && s.queue != [] && s.queue[0].Finish? && s.queue[0].job < |s.jobs| && s.jobs[s.queue[0].job].kind.PollNow?
  }

  lemma AddedShape(s: State, e: Event)
    requires Enabled(s, e)
    ensures forall c | 0 <= c < |Added(s, e)| && Added(s, e)[c].Do? :: |Added(s, e)| == 1 && Added(s, e)[c].posted == s.time
    ensures (exists c :: 0 <= c < |Added(s, e)| && Added(s, e)[c].Clear?) <==> EndsPoll(s, e)
    ensures EndsPoll(s, e) ==> |Added(s, e)| == 2 && Added(s, e)[0].Clear? && !Added(s, e)[1].Do?
  {
    if EndsPoll(s, e) {
      assert Added(s, e) == [Clear(s.queue[0].job), Adopt(s.queue[0].job)];
      assert Added(s, e)[0].Clear?;
    }
  }

  lemma EndedSinceStep(ends: seq<nat>, time: nat, posted: nat)
    requires posted < time
    ensures EndedSince(ends + [time], posted)
  {
    assert (ends + [time])[|ends|] == time;
  }

  lemma StepPosts(s: State, e: Event)
    requires PostsRight(s) && Enabled(s, e)
    ensures PostsRight(Step(s, e))
  {
    hide *;
    var t := Step(s, e);
    StepQueue(s, e);
    StepTimes(s, e);
    forall p: nat | p < |t.queue| && t.queue[p].Do? ensures PostRight(t, p) {
      if p < |Remaining(s, e)| { OldPostRight(s, e, p); } else { NewPostRight(s, e, p); }
    }
    PostsTogether(t);
  }

  lemma PostsTogether(t: State)
    requires forall m | 0 <= m < |t.ends| :: t.ends[m] < t.time
    requires forall p: nat | p < |t.queue| && t.queue[p].Do? :: PostRight(t, p)
    ensures PostsRight(t)
  {
  }

  lemma StepTimes(s: State, e: Event)
    requires PostsRight(s) && Enabled(s, e)
    ensures Step(s, e).time == s.time + 1
    ensures forall m | 0 <= m < |Step(s, e).ends| :: Step(s, e).ends[m] < s.time + 1
  {
    StepQueue(s, e);
    hide Effect, Enabled;
  }

  lemma OldPostRight(s: State, e: Event, p: nat)
    requires PostsRight(s) && Enabled(s, e) && p < |Remaining(s, e)| && Remaining(s, e)[p].Do?
    ensures p < |Step(s, e).queue| && Step(s, e).queue[p].Do? && PostRight(Step(s, e), p)
  {
    var t, rest, added := Step(s, e), Remaining(s, e), Added(s, e);
    var shift := |s.queue| - |rest|;
    StepQueue(s, e);
    AddedShape(s, e);
    assert t.time == s.time + 1 && rest == s.queue[shift..];
    assert t.queue[p] == rest[p] && rest[p] == s.queue[p + shift];
    assert PostRight(s, p + shift);
    OldPost(s.queue, rest, added, shift, p);
    EndedSinceStep(s.ends, s.time, s.queue[p + shift].posted);
    hide Step, Enabled, Remaining, Added, EndsPoll, ClearAhead, EndedSince;
  }

  lemma NewPostRight(s: State, e: Event, p: nat)
    requires PostsRight(s) && Enabled(s, e) && |Remaining(s, e)| <= p < |Step(s, e).queue| && Step(s, e).queue[p].Do?
    ensures PostRight(Step(s, e), p)
  {
    var t, rest, added := Step(s, e), Remaining(s, e), Added(s, e);
    StepQueue(s, e);
    AddedShape(s, e);
    StepTimes(s, e);
    assert t.queue[p] == added[p - |rest|];
    assert |added| == 1 && added[0].posted == s.time;
    hide Step, Enabled, Remaining, Added, EndsPoll;
  }

  /** A clearing reaction behind an old job is an old one or an added one. */
  lemma OldPost(queue: seq<Task>, rest: seq<Task>, added: seq<Task>, shift: nat, p: nat)
    requires shift <= |queue| && rest == queue[shift..] && p < |rest|
    ensures ClearAhead(rest + added, p) <==> ClearAhead(queue, p + shift) || exists c :: 0 <= c < |added| && added[c].Clear?
  {
    var all := rest + added;
    if c :| p + shift < c < |queue| && queue[c].Clear? {
      assert all[c - shift] == queue[c];
    }
    if c :| 0 <= c < |added| && added[c].Clear? {
      assert all[|rest| + c] == added[c];
    }
    if c :| p < c < |all| && all[c].Clear? {
      assert if c < |rest| then queue[c + shift].Clear? else added[c - |rest|].Clear?;
    }
  }

  lemma StepInvariant(s: State, e: Event)
    requires Invariant(s) && Enabled(s, e)
    ensures Invariant(Step(s, e))
  {
    StepChain(s, e);
    StepWatchdog(s, e);
    StepPending(s, e);
    StepClears(s, e);
    StepPosts(s, e);
    hide *;
  }

  // ---------- Runs ----------

  predicate IsRun(events: seq<Event>)
    decreases |events|, 0
  {
    events == [] ||
    (IsRun(events[..|events| - 1]) && Enabled(After(events[..|events| - 1]), events[|events| - 1]))
  }

  /** The state after a run from the start. */
  function After(events: seq<Event>): State
    requires IsRun(events)
    decreases |events|, 1
  {
    if events == [] then INITIAL else Step(After(events[..|events| - 1]), events[|events| - 1])
  }

  ghost predicate Reachable(s: State) {
    exists events: seq<Event> :: IsRun(events) && After(events) == s
  }

  /** In every run: links begin once each, in order, one at a time; the watchdog
      flag is up exactly while a pass is queued or running; a poll-now link in
      progress is the pending one; and its clearing reaction is queued exactly
      while it is over. */
  lemma {:induction false} RunInvariant(events: seq<Event>)
    requires IsRun(events)
    ensures Invariant(After(events))
    decreases |events|
  {
    if events != [] {
      var n := |events| - 1;
      RunInvariant(events[..n]);
      StepInvariant(After(events[..n]), events[n]);
      hide Invariant, Step, Enabled;
    }
  }

  lemma ReachableInvariant(s: State)
    requires Reachable(s)
    ensures Invariant(s)
  {
    var events :| IsRun(events) && After(events) == s;
    RunInvariant(events);
  }

  lemma {:induction false} PrefixRun(events: seq<Event>, n: nat)
    requires IsRun(events) && n <= |events|
    ensures IsRun(events[..n])
    ensures n < |events| ==> IsRun(events[..n + 1]) && Enabled(After(events[..n]), events[n])
    ensures n < |events| ==> After(events[..n + 1]) == Step(After(events[..n]), events[n])
    decreases |events|
  {
    assert events[..|events|] == events;
    if n < |events| {
      var last := |events| - 1;
      assert events[..n + 1][..n] == events[..n];
      if n < last {
        PrefixRun(events[..last], n);
        assert events[..last][..n] == events[..n] && events[..last][..n + 1] == events[..n + 1];
      }
    }
    hide Step, Enabled;
  }

  // ---------- What the chain promises ----------

  /** Two links are never under way at once, and at most one poll-now and one
      watchdog link are queued or under way. */
  lemma OneAtATime(s: State, i: nat, j: nat)
    requires Reachable(s) && i < j < |s.jobs|
    ensures !s.jobs[j].phase.Waiting? ==> s.jobs[i].phase.Settled?
    ensures !(Unfinished(s, Watchdog, i) && Unfinished(s, Watchdog, j))
    ensures !(Unfinished(s, PollNow, i) && Unfinished(s, PollNow, j))
  {
    ReachableInvariant(s);
  }

  /** The poll-now flag is up exactly while its link is queued or running, or its
      clearing reaction is queued. */
  lemma PendingMeans(s: State)
    requires Reachable(s)
    ensures s.pending.Some? <==> ((exists k :: Unfinished(s, PollNow, k)) || exists c :: 0 <= c < |s.queue| && s.queue[c].Clear?)
  {
    ReachableInvariant(s);
    ClearTasksMembers(s.queue);
    if s.pending.Some? && !Done(s, s.pending.value) {
      assert Unfinished(s, PollNow, s.pending.value);
    }
  }

  // ---------- Who shares a finished tick ----------

  /** Event `m` ends the work of a poll-now link. */
  predicate EndsPollAt(events: seq<Event>, m: nat)
    requires IsRun(events)
  {
    m < |events| && IsRun(events[..m]) && EndsPoll(After(events[..m]), events[m])
  }

  /** Some poll-now link's work ends between two events. */
  ghost predicate PollEndsBetween(events: seq<Event>, i: nat, j: nat)
    requires IsRun(events)
  {
    exists m: nat :: i < m < j && EndsPollAt(events, m)
  }

  lemma {:induction false} TimeCounts(events: seq<Event>)
    requires IsRun(events)
    ensures After(events).time == |events|
    decreases |events|
  {
    if events != [] {
      TimeCounts(events[..|events| - 1]);
      hide Enabled, Effect;
    }
  }

  /** The recorded ends are the positions of the ends in the run. */
  lemma {:induction false} EndsAreEvents(events: seq<Event>, m: nat)
    requires IsRun(events)
    ensures m in After(events).ends <==> EndsPollAt(events, m)
    decreases |events|
  {
    if events != [] {
      var n := |events| - 1;
      var s := After(events[..n]);
      EndsAreEvents(events[..n], m);
      TimeCounts(events[..n]);
      StepQueue(s, events[n]);
      if m < n { assert events[..n][..m] == events[..m]; }
      hide Enabled, Step, EndsPoll;
    }
  }

  /** A queued action was posted by the event at its time. */
  lemma {:induction false} PostsAreEvents(events: seq<Event>, p: nat)
    requires IsRun(events) && p < |After(events).queue| && After(events).queue[p].Do?
    ensures var task := After(events).queue[p]; task.posted < |events| && events[task.posted] == Post(task.action)
    decreases |events|
  {
    if events != [] {
      var n := |events| - 1;
      var s, t, e := After(events[..n]), After(events), events[n];
      var rest := Remaining(s, e);
      StepQueue(s, e);
      AddedShape(s, e);
      TimeCounts(events[..n]);
      hide Step, Enabled, Added;
      if p < |rest| {
        PostsAreEvents(events[..n], p + |s.queue| - |rest|);
      } else {
        PostedNow(s, e, p - |rest|);
      }
    }
  }

  lemma PostedNow(s: State, e: Event, c: nat)
    requires Enabled(s, e) && c < |Added(s, e)| && Added(s, e)[c].Do?
    ensures e == Post(Added(s, e)[c].action) && Added(s, e)[c].posted == s.time
  {
  }

  /** A posted caller at the front finds the shared poll over exactly when a
      poll-now link ended since it was posted. */
  lemma FrontCaller(s: State, posted: nat)
    requires Invariant(s) && s.queue != [] && s.queue[0] == Do(Trigger, posted)
    ensures s.pending.Some? && Done(s, s.pending.value) <==> EndedSince(s.ends, posted)
  {
    ClearTasksMembers(s.queue);
    assert PostRight(s, 0);
    assert ClearAhead(s.queue, 0) <==> exists c :: 0 <= c < |s.queue| && s.queue[c].Clear?;
    hide ClearTasks, Serial, InOrder, TasksRight, WatchdogRight, PendingRight;
  }

  /** What one call of the trigger serves its caller with. */
  lemma TriggerServes(s: State)
    requires Invariant(s)
    ensures var t := Act(s, Trigger);
      && |t.served| == |s.served| + 1 && t.served[..|s.served|] == s.served
      && var link := t.served[|s.served|];
      && link < |t.jobs| && t.jobs[link].kind == PollNow
      && (Done(t, link) <==> s.pending.Some? && Done(s, s.pending.value))
  {
  }

  /** The link a trigger at event `j` serves its caller with. */
  function Served(events: seq<Event>, j: nat): (link: nat)
    requires IsRun(events) && j < |events| && IsRun(events[..j]) && IsRun(events[..j + 1])
    requires |After(events[..j + 1]).served| > |After(events[..j]).served|
  {
    After(events[..j + 1]).served[|After(events[..j]).served|]
  }

  /** A caller that arrives in an event-loop turn of its own is served by a tick
      that is not over, in every run, ... */
  lemma TurnCallerServed(events: seq<Event>, j: nat)
    requires IsRun(events) && j < |events| && events[j] == Turn(Trigger)
    ensures IsRun(events[..j]) && IsRun(events[..j + 1])
    ensures |After(events[..j + 1]).served| > |After(events[..j]).served|
    ensures var link := Served(events, j);
      link < |After(events[..j + 1]).jobs| && !Done(After(events[..j + 1]), link)
  {
    PrefixRun(events, j);
    var s := After(events[..j]);
    RunInvariant(events[..j]);
    assert ClearTasks(s.queue) == [];
    assert !(s.pending.Some? && Done(s, s.pending.value));
    TriggerServes(s);
    DoneFrame(Act(s, Trigger), Step(s, Turn(Trigger)));
    hide Act, Invariant, Done, IsRun, After;
  }

  /** ... and whenever that tick is over later, its work ended after the caller
      asked. */
  lemma {:induction false} ServedTickEndsLater(events: seq<Event>, a: nat, b: nat, link: nat)
    requires IsRun(events) && a <= b <= |events| && IsRun(events[..a]) && IsRun(events[..b])
    requires link < |After(events[..a]).jobs| && !Done(After(events[..a]), link) && Done(After(events[..b]), link)
    ensures exists m: nat :: a <= m < b && EndsLinkAt(events, m, link)
    decreases b
  {
    hide *;
    if a < b {
      PrefixRun(events, b - 1);
      LinksStay(events, a, b - 1, link);
      if Done(After(events[..b - 1]), link) {
        ServedTickEndsLater(events, a, b - 1, link);
      } else {
        LinkEndsHere(events, b - 1, link);
      }
    }
  }

  /** Event `m` ends the work of this link. */
  predicate EndsLinkAt(events: seq<Event>, m: nat, link: nat)
    requires IsRun(events)
  {
    m < |events| && IsRun(events[..m]) && EndedBy(After(events[..m]), events[m]) == Some(link)
  }

  lemma LinkEndsHere(events: seq<Event>, m: nat, link: nat)
    requires IsRun(events) && m < |events| && IsRun(events[..m]) && IsRun(events[..m + 1])
    requires link < |After(events[..m]).jobs| && !Done(After(events[..m]), link) && Done(After(events[..m + 1]), link)
    ensures EndsLinkAt(events, m, link)
  {
    PrefixRun(events, m);
    StepLinks(After(events[..m]), events[m]);
    hide Done, EndedBy, IsRun, After, Step, Enabled;
  }

  lemma {:induction false} LinksStay(events: seq<Event>, a: nat, b: nat, link: nat)
    requires IsRun(events) && a <= b <= |events| && IsRun(events[..a]) && IsRun(events[..b])
    requires link < |After(events[..a]).jobs|
    ensures link < |After(events[..b]).jobs|
    decreases b
  {
    if a < b {
      PrefixRun(events, b - 1);
      LinksStay(events, a, b - 1, link);
      StepLinks(After(events[..b - 1]), events[b - 1]);
      hide Done, EndedBy, IsRun, After;
    }
  }

  /** A caller whose job was queued shares a finished tick exactly when the work of
      a poll-now link ended while it was in the queue: after it was posted and
      before it ran. */
  lemma PostedCallerServed(events: seq<Event>, j: nat, posted: nat)
    requires IsRun(events) && j < |events| && events[j] == RunJob && IsRun(events[..j])
    requires After(events[..j]).queue != [] && After(events[..j]).queue[0] == Do(Trigger, posted)
    ensures posted < j && events[posted] == Post(Trigger)
    ensures IsRun(events[..j + 1]) && |After(events[..j + 1]).served| > |After(events[..j]).served|
    ensures var link := Served(events, j);
      && link < |After(events[..j + 1]).jobs|
      && (Done(After(events[..j + 1]), link) <==> PollEndsBetween(events, posted, j))
  {
    hide *;
    PrefixRun(events, j);
    var s := After(events[..j]);
    RunInvariant(events[..j]);
    PostsAreEvents(events[..j], 0);
    assert events[..j][posted] == events[posted];
    FrontCaller(s, posted);
    RunsTrigger(s, posted);
    EndsBetween(events, j, posted);
    ServedIs(events, j);
  }

  lemma ServedIs(events: seq<Event>, j: nat)
    requires IsRun(events) && j < |events| && IsRun(events[..j]) && IsRun(events[..j + 1])
    requires |After(events[..j + 1]).served| > |After(events[..j]).served|
    ensures Served(events, j) == After(events[..j + 1]).served[|After(events[..j]).served|]
  {
  }

  lemma RunsTrigger(s: State, posted: nat)
    requires Invariant(s) && s.queue != [] && s.queue[0] == Do(Trigger, posted)
    ensures Enabled(s, RunJob)
    ensures var t := Step(s, RunJob);
      && |t.served| == |s.served| + 1
      && var link := t.served[|s.served|];
      && link < |t.jobs|
      && (Done(t, link) <==> s.pending.Some? && Done(s, s.pending.value))
  {
    PoppedServes(s);
    var popped := s.(queue := s.queue[1..]);
    DoneFrame(Act(popped, Trigger), Step(s, RunJob));
    hide Act, Invariant, Done;
  }

  lemma PoppedServes(s: State)
    requires Invariant(s) && s.queue != []
    ensures var t := Act(s.(queue := s.queue[1..]), Trigger);
      && |t.served| == |s.served| + 1
      && var link := t.served[|s.served|];
      && link < |t.jobs|
      && (Done(t, link) <==> s.pending.Some? && Done(s, s.pending.value))
  {
  }

  lemma EndsBetween(events: seq<Event>, j: nat, posted: nat)
    requires IsRun(events) && j <= |events| && IsRun(events[..j])
    ensures EndedSince(After(events[..j]).ends, posted) <==> PollEndsBetween(events, posted, j)
  {
    var prefix := events[..j];
    var ends := After(prefix).ends;
    forall m: nat ensures m in ends <==> m < j && EndsPollAt(events, m) {
      EndsAreEvents(prefix, m);
      if m < j { assert prefix[..m] == events[..m]; }
    }
    hide After, IsRun, EndsPollAt;
    if i :| 0 <= i < |ends| && posted < ends[i] {
      assert ends[i] in ends;
    }
    if m: nat :| posted < m < j && EndsPollAt(events, m) {
      assert m in ends;
    }
  }

  /** Such runs exist: the last answer the tick awaits and a caller become ready in
      the same turn, so that the caller is queued behind the end of the tick and
      ahead of the reaction that clears it. */
  lemma FinishedTickIsShared()
    ensures var events := SHARED;
      && IsRun(events) && IsRun(events[..4]) && IsRun(events[..5])
      && After(events[..5]).queue == [Do(Trigger, 3), Clear(0), Adopt(0)] && EndsPollAt(events, 4)
      && After(events).served == [0, 0] && Done(After(events), 0)
  {
    assert SHARED == [Turn(Trigger), RunJob, Complete(0, true), Post(Trigger), RunJob, RunJob];
    hide *;
    SharedSteps();
    OneMore([], Turn(Trigger));
    assert [] + [Turn(Trigger)] == SHARED[..1];
    OneMore(SHARED[..1], RunJob);
    assert SHARED[..1] + [RunJob] == SHARED[..2];
    OneMore(SHARED[..2], Complete(0, true));
    assert SHARED[..2] + [Complete(0, true)] == SHARED[..3];
    OneMore(SHARED[..3], Post(Trigger));
    assert SHARED[..3] + [Post(Trigger)] == SHARED[..4];
    OneMore(SHARED[..4], RunJob);
    assert SHARED[..4] + [RunJob] == SHARED[..5];
    OneMore(SHARED[..5], RunJob);
    assert SHARED[..5] + [RunJob] == SHARED;
    EndsHere(SHARED, 4);
  }

  lemma EndsHere(events: seq<Event>, m: nat)
    requires IsRun(events) && m < |events| && IsRun(events[..m]) && EndsPoll(After(events[..m]), events[m])
    ensures EndsPollAt(events, m)
  {
  }

  lemma SharedSteps()
    ensures IsRun([]) && After([]) == INITIAL && Enabled(INITIAL, Turn(Trigger))
    ensures var s1 := Step(INITIAL, Turn(Trigger));
      Enabled(s1, RunJob) && var s2 := Step(s1, RunJob);
      Enabled(s2, Complete(0, true)) && var s3 := Step(s2, Complete(0, true));
      Enabled(s3, Post(Trigger)) && var s4 := Step(s3, Post(Trigger));
      Enabled(s4, RunJob) && EndsPoll(s4, RunJob) && var s5 := Step(s4, RunJob);
      s5.queue == [Do(Trigger, 3), Clear(0), Adopt(0)] && Enabled(s5, RunJob) && var s6 := Step(s5, RunJob);
      s6.served == [0, 0] && Done(s6, 0)
  {
  }

  lemma OneMore(events: seq<Event>, e: Event)
    requires IsRun(events) && Enabled(After(events), e)
    ensures IsRun(events + [e]) && After(events + [e]) == Step(After(events), e)
  {
    assert (events + [e])[..|events|] == events;
    hide Step, Enabled;
  }

  const SHARED: seq<Event> := [Turn(Trigger), RunJob, Complete(0, true), Post(Trigger), RunJob, RunJob]

  /** What a caller waits for is fixed when it asks. */
  lemma {:induction false} ServedStays(events: seq<Event>, n: nat, c: nat)
    requires IsRun(events) && n <= |events| && IsRun(events[..n]) && c < |After(events[..n]).served|
    ensures c < |After(events).served| && After(events).served[c] == After(events[..n]).served[c]
    decreases |events|
  {
    assert events[..|events|] == events;
    hide *;
    if n < |events| {
      var last := |events| - 1;
      PrefixRun(events, last);
      assert events[..last][..n] == events[..n];
      ServedStays(events[..last], n, c);
      ServedGrows(After(events[..last]), events[last]);
    }
  }

  lemma ServedGrows(s: State, e: Event)
    requires Enabled(s, e)
    ensures s.served <= Step(s, e).served
  {
  }

  // ---------- Nothing is left undone ----------

  /** Steps that need no timer and no caller. */
  predicate Internal(s: State, e: Event) { Enabled(s, e) && (e.RunJob? || e.Complete?) }

  function PhaseLeft(phase: Phase): nat {
    match phase
    case Waiting => 5
    case Running => 4
    case Finishing(_) => 3
    case Ended(_) => 1
    case Settled(_) => 0
  }

  function JobsLeft(jobs: seq<Job>): nat {
    if jobs == [] then 0 else PhaseLeft(jobs[0].phase) + JobsLeft(jobs[1..])
  }

  function TasksLeft(queue: seq<Task>): nat {
    if queue == [] then 0 else (if queue[0].Do? then 6 else if queue[0].Clear? then 1 else 0) + TasksLeft(queue[1..])
  }

  function Outstanding(s: State): nat { JobsLeft(s.jobs) + TasksLeft(s.queue) }

  lemma {:induction false} JobsLeftSet(jobs: seq<Job>, k: nat, phase: Phase)
    requires k < |jobs|
    ensures JobsLeft(SetPhase(jobs, k, phase)) == JobsLeft(jobs) - PhaseLeft(jobs[k].phase) + PhaseLeft(phase)
  {
    if k == 0 {
      assert SetPhase(jobs, k, phase)[1..] == jobs[1..];
    } else {
      assert SetPhase(jobs, k, phase)[1..] == SetPhase(jobs[1..], k - 1, phase);
      JobsLeftSet(jobs[1..], k - 1, phase);
    }
  }

  lemma {:induction false} JobsLeftMore(jobs: seq<Job>, kind: Kind)
    ensures JobsLeft(jobs + [Job(kind, Waiting)]) == JobsLeft(jobs) + 5
  {
    if jobs == [] {
      assert (jobs + [Job(kind, Waiting)])[1..] == [];
    } else {
      assert (jobs + [Job(kind, Waiting)])[1..] == jobs[1..] + [Job(kind, Waiting)];
      JobsLeftMore(jobs[1..], kind);
    }
  }

  lemma {:induction false} TasksLeftConcat(a: seq<Task>, b: seq<Task>)
    ensures TasksLeft(a + b) == TasksLeft(a) + TasksLeft(b)
  {
    if a == [] {
      assert a + b == b;
    } else {
      assert (a + b)[1..] == a[1..] + b;
      TasksLeftConcat(a[1..], b);
    }
  }

  lemma AddedLeft(s: State, e: Event)
    requires Internal(s, e)
    ensures TasksLeft(Added(s, e)) == if EndsPoll(s, e) then 1 else 0
  {
    var added := Added(s, e);
    AddedShape(s, e);
    if EndsPoll(s, e) {
      assert added == [added[0]] + [added[1]] && !added[1].Clear?;
      TasksLeftConcat([added[0]], [added[1]]);
      TasksLeftOne(added[0]);
      TasksLeftOne(added[1]);
    } else if added != [] {
      assert added == [added[0]] && !added[0].Do? && !added[0].Clear?;
      TasksLeftOne(added[0]);
    }
  }

  lemma TasksLeftOne(task: Task)
    ensures TasksLeft([task]) == if task.Do? then 6 else if task.Clear? then 1 else 0
  {
    assert [task][1..] == [];
  }

  lemma ActJobsLeft(s: State, a: Action)
    ensures JobsLeft(Act(s, a).jobs) <= JobsLeft(s.jobs) + 5
  {
    JobsLeftMore(s.jobs, Tick);
    JobsLeftMore(s.jobs, Watchdog);
    JobsLeftMore(s.jobs, PollNow);
    hide JobsLeft;
  }

  /** Internal steps run out, ... */
  lemma InternalStepsRunOut(s: State, e: Event)
    requires Internal(s, e)
    ensures Outstanding(Step(s, e)) < Outstanding(s)
  {
    StepQueue(s, e);
    AddedLeft(s, e);
    TasksLeftConcat(Remaining(s, e), Added(s, e));
    match e
    case Complete(k, ok) => JobsLeftSet(s.jobs, k, Finishing(ok));
    case RunJob =>
      var head := s.queue[0];
      assert TasksLeft(s.queue) == (if head.Do? then 6 else if head.Clear? then 1 else 0) + TasksLeft(s.queue[1..]);
      match head {
        case Do(action, _) => ActJobsLeft(s.(queue := s.queue[1..]), action);
        case Begin(k) => JobsLeftSet(s.jobs, k, Running);
        case Finish(k) => JobsLeftSet(s.jobs, k, Ended(s.jobs[k].phase.ok));
        case Adopt(k) => JobsLeftSet(s.jobs, k, Settled(s.jobs[k].phase.ok));
        case Clear(_) =>
      }
  }

  /** ... an unsettled chain can always move on, ... */
  lemma UnfinishedCanMove(s: State)
    requires Reachable(s) && (s.over < |s.jobs| || s.queue != [])
    ensures exists e :: Internal(s, e)
  {
    ReachableInvariant(s);
    if s.queue != [] {
      FrontReady(s);
      assert Internal(s, RunJob);
    } else {
      assert NextTask(s) == [];
      assert Internal(s, Complete(s.over, true));
    }
  }

  /** ... and at the end every link has run, whatever failed before it, and both
      flags are down. */
  lemma QuiescentIsFinished(s: State)
    requires Reachable(s) && forall e :: !Internal(s, e)
    ensures forall k | 0 <= k < |s.jobs| :: s.jobs[k].phase.Settled? && k < |s.started| && s.started[k] == k
    ensures |s.started| == |s.jobs| && !s.watchdogQueued && s.pending.None? && s.queue == []
  {
    ReachableInvariant(s);
    if s.over < |s.jobs| || s.queue != [] { UnfinishedCanMove(s); }
    assert ClearTasks(s.queue) == [];
  }

  // ---------- The daemon's variables ----------

  /** The chain and the two flags, with the runtime's queue for them. */
  class DaemonWork {
    var scheduledWork: seq<Job>
    var watchdogPassQueued: bool
    var pending: Option<nat>
    var queue: seq<Task>
    ghost var over: nat
    ghost var started: seq<nat>
    ghost var served: seq<nat>
    ghost var ends: seq<nat>
    ghost var time: nat

    ghost function Snapshot(): State
      reads this
    {
      State(scheduledWork, watchdogPassQueued, pending, queue, over, started, served, ends, time)
    }

    constructor ()
      ensures Snapshot() == INITIAL && Invariant(Snapshot())
    {
      scheduledWork, watchdogPassQueued, pending, queue := [], false, None, [];
      over, started, served, ends, time := 0, [], [], [], 0;
      new;
      RunInvariant([]);
    }

    /** `then` on the last promise: a settled one queues the reaction at once. */
    method EnqueueScheduledWork(kind: Kind) returns (link: nat)
      modifies this`scheduledWork, this`queue
      ensures Snapshot() == Enqueue(old(Snapshot()), kind)
      ensures link == |old(scheduledWork)|
    {
      link := |scheduledWork|;
      if link == 0 || scheduledWork[link - 1].phase.Settled? {
        queue := queue + [Begin(link)];
      }
      scheduledWork := scheduledWork + [Job(kind, Waiting)];
    }

    method ScheduleTick()
      modifies this
      ensures Snapshot() == Act(old(Snapshot()), TimerTick)
    {
      var _ := EnqueueScheduledWork(Tick);
    }

    /** A fire landing while a pass is queued or running is dropped. */
    method ScheduleWatchdogPass()
      modifies this
      ensures Snapshot() == Act(old(Snapshot()), TimerWatchdog)
    {
      if watchdogPassQueued {
        return;
      }
      watchdogPassQueued := true;
      var _ := EnqueueScheduledWork(Watchdog);
    }

    /** Returns the link whose result the caller gets. */
    method TriggerPollNow() returns (link: nat, coalesced: bool)
      modifies this
      ensures Snapshot() == Act(old(Snapshot()), Trigger)
      ensures served == old(served) + [link] && coalesced == old(pending.Some?)
    {
      coalesced := pending.Some?;
      if coalesced {
        link := pending.value;
      } else {
        link := EnqueueScheduledWork(PollNow);
        pending := Some(link);
      }
      served := served + [link];
    }

    method TakeAction(action: Action)
      modifies this
      ensures Snapshot() == Act(old(Snapshot()), action)
    {
      match action {
        case TimerTick => ScheduleTick();
        case TimerWatchdog => ScheduleWatchdogPass();
        case Trigger => var _, _ := TriggerPollNow();
      }
    }

    /** The end of a link's work: a pass lowers its flag on both exits, a shared
        poll settles before its link does. */
    method EndWork(link: nat)
      requires Ready(Snapshot(), Finish(link))
      modifies this
      ensures Snapshot() == Perform(old(Snapshot()), Finish(link))
    {
      var job := scheduledWork[link];
      if job.kind.Watchdog? {
        watchdogPassQueued := false;
      }
      if job.kind.PollNow? {
        queue := queue + [Clear(link)];
        ends := ends + [time];
      }
      queue := queue + [Adopt(link)];
      scheduledWork := scheduledWork[link := job.(phase := Ended(job.phase.ok))];
      assert old(queue) + [] == old(queue);
    }

    /** A link settles; its successor's reaction is queued. */
    method SettleLink(link: nat)
      requires Ready(Snapshot(), Adopt(link))
      modifies this
      ensures Snapshot() == Perform(old(Snapshot()), Adopt(link))
    {
      var job := scheduledWork[link];
      scheduledWork := scheduledWork[link := job.(phase := Settled(job.phase.ok))];
      over := over + 1;
      if link + 1 < |scheduledWork| {
        queue := queue + [Begin(link + 1)];
      }
    }

    method RunTask(task: Task)
      requires Ready(Snapshot(), task)
      modifies this
      ensures Snapshot() == Perform(old(Snapshot()), task)
    {
      hide Act;
      match task {
        case Do(action, _) => TakeAction(action);
        case Begin(link) =>
          scheduledWork := scheduledWork[link := scheduledWork[link].(phase := Running)];
          started := started + [link];
        case Finish(link) => EndWork(link);
        case Adopt(link) => SettleLink(link);
        case Clear(_) => pending := None;
      }
    }

    /** The runtime takes the front job and runs it. */
    method RunFrontJob()
      requires Invariant(Snapshot()) && queue != []
      modifies this
      ensures Enabled(old(Snapshot()), RunJob) && Snapshot() == Step(old(Snapshot()), RunJob) && Invariant(Snapshot())
    {
      FrontReady(Snapshot());
      assert Enabled(Snapshot(), RunJob);
      StepInvariant(Snapshot(), RunJob);
      hide Invariant, Perform;
      var task := queue[0];
      queue := queue[1..];
      RunTask(task);
      time := time + 1;
    }

    /** A timer or a request in a turn of its own. */
    method RunTurn(action: Action)
      requires Invariant(Snapshot()) && queue == []
      modifies this
      ensures Snapshot() == Step(old(Snapshot()), Turn(action)) && Invariant(Snapshot())
    {
      StepInvariant(Snapshot(), Turn(action));
      hide Invariant;
      TakeAction(action);
      time := time + 1;
    }
  }
}
