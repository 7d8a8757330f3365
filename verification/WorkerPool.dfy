/** The bounded worker pool of `src/pull-request-polling.ts` and the rate-limit
    flag its workers share.

    The runtime decides which worker goes on next; `Step` is one uninterrupted
    stretch of one worker, and the lemmas speak about every schedule. */
module WorkerPool {
  import opened Wrappers

  /** What enriching one item settles with; `limited` means that the API call, if
      one was made, reported a rate limit. */
  datatype Outcome = Value(snapshot: string, limited: bool) | Rejected

  /** `outcomes` says what each item's call settles with, whenever it does. */
  datatype Job = Job(n: nat, concurrency: nat, outcomes: nat -> Outcome)

  /** A worker between two calls, awaiting a call, holding a settled call whose
      result is not stored yet, at its end, or stopped by a rejection. */
  datatype Worker = Idle | Calling(index: nat, api: bool) | Reacted(index: nat) | Done | Failed(index: nat) {
    predicate Busy() { Calling? || Reacted? || Failed? }
  }

  /** `calls` and `apiCalls` record, in order, the items handed to the function
      and those that reached the API. */
  datatype Pool = Pool(workers: seq<Worker>, next: nat, results: seq<Option<string>>, limited: bool,
                       calls: seq<nat>, apiCalls: seq<nat>)

  datatype Event =
    | Advance(w: nat, cached: bool) // takes the next item, or ends
    | React(w: nat)                 // the call settles and the flag is updated
    | Resume(w: nat)                // the worker stores its result

  function Width(j: Job): nat { if j.concurrency <= j.n then j.concurrency else j.n }

  function Initial(j: Job): Pool {
    Pool(seq(Width(j), _ => Idle), 0, seq(j.n, _ => None), false, [], [])
  }

  predicate Enabled(s: Pool, e: Event) {
    && e.w < |s.workers|
    && match e
       case Advance(w, _) => s.workers[w].Idle?
       case React(w) => s.workers[w].Calling?
       case Resume(w) => s.workers[w].Reacted?
  }

  predicate Shaped(j: Job, s: Pool) {
    && |s.workers| == Width(j) && |s.results| == j.n && s.next <= j.n
    && (forall w | 0 <= w < |s.workers| && s.workers[w].Busy() :: s.workers[w].index < s.next)
    && (forall w | 0 <= w < |s.workers| && s.workers[w].Reacted? :: j.outcomes(s.workers[w].index).Value?)
  }

  function Step(j: Job, s: Pool, e: Event): Pool
    requires Shaped(j, s) && Enabled(s, e)
  {
    match e
    case Advance(w, cached) =>
      if s.next < j.n then
        var api := !cached && !s.limited;
        s.(workers := s.workers[w := Calling(s.next, api)], next := s.next + 1, calls := s.calls + [s.next],
           apiCalls := if api then s.apiCalls + [s.next] else s.apiCalls)
      else s.(workers := s.workers[w := Done])
    case React(w) =>
      var worker := s.workers[w];
      (match j.outcomes(worker.index)
       case Rejected => s.(workers := s.workers[w := Failed(worker.index)])
       case Value(_, limited) =>
         s.(workers := s.workers[w := Reacted(worker.index)], limited := s.limited || (worker.api && limited)))
    case Resume(w) =>
      var index := s.workers[w].index;
      assert s.workers[w].Busy();
      s.(workers := s.workers[w := Idle], results := s.results[index := Some(j.outcomes(index).snapshot)])
  }

  // ---------- Invariant ----------

  /** The items handed out so far are the first ones, each once and in order. */
  predicate CalledInOrder(s: Pool) {
    |s.calls| == s.next && forall k | 0 <= k < s.next :: s.calls[k] == k
  }

  /** Two workers never hold the same item. */
  predicate Exclusive(s: Pool) {
    forall v, w | 0 <= v < w < |s.workers| && s.workers[v].Busy() && s.workers[w].Busy() :: s.workers[v].index != s.workers[w].index
  }

  predicate Held(s: Pool, i: nat) {
    exists w :: 0 <= w < |s.workers| && s.workers[w].Busy() && s.workers[w].index == i
  }

  predicate ResultRight(j: Job, s: Pool, i: nat)
    requires i < |s.results|
  {
    if i < s.next && !Held(s, i) then j.outcomes(i).Value? && s.results[i] == Some(j.outcomes(i).snapshot)
    else s.results[i] == None
  }

  /** A result is what its call settled with; an item handed out without a result
      is in the hands of a worker; the others have none. */
  predicate Accounted(j: Job, s: Pool) {
    forall i | 0 <= i < |s.results| :: ResultRight(j, s, i)
  }

  predicate Ends(j: Job, s: Pool) {
    && (s.workers == [] ==> s.next == 0)
    && forall w | 0 <= w < |s.workers| ::
      (s.workers[w].Done? ==> s.next == j.n) && (s.workers[w].Failed? ==> j.outcomes(s.workers[w].index).Rejected?)
  }

  /** The call reported a rate limit, and its worker has seen it settle. */
  predicate LimitSeen(j: Job, s: Pool, i: nat) {
    j.outcomes(i).Value? && j.outcomes(i).limited && forall w | 0 <= w < |s.workers| && s.workers[w].Calling? :: s.workers[w].index != i
  }

  /** The API log is ascending, and every call awaited under it is in it. */
  predicate ApiLogged(s: Pool) {
    && (forall k, l | 0 <= k < l < |s.apiCalls| :: s.apiCalls[k] < s.apiCalls[l])
    && (forall k | 0 <= k < |s.apiCalls| :: s.apiCalls[k] < s.next)
    && (forall w | 0 <= w < |s.workers| && s.workers[w].Calling? && s.workers[w].api :: s.workers[w].index in s.apiCalls)
    && (forall w | 0 <= w < |s.workers| && s.workers[w].Calling? && s.workers[w].index in s.apiCalls :: s.workers[w].api)
  }

  /** The flag says that some API call has been seen to report a limit. */
  predicate FlagRight(j: Job, s: Pool) {
    s.limited <==> exists k :: 0 <= k < |s.apiCalls| && LimitSeen(j, s, s.apiCalls[k])
  }

  ghost predicate Invariant(j: Job, s: Pool) {
    Shaped(j, s) && CalledInOrder(s) && Exclusive(s) && Accounted(j, s) && Ends(j, s) && ApiLogged(s) && FlagRight(j, s)
  }

  lemma InitialInvariant(j: Job)
    ensures Invariant(j, Initial(j))
  {
  }

  lemma StepShaped(j: Job, s: Pool, e: Event)
    requires Invariant(j, s) && Enabled(s, e)
    ensures var t := Step(j, s, e);
      Shaped(j, t) && CalledInOrder(t) && Exclusive(t) && Ends(j, t)
  {
    hide Accounted, ApiLogged, FlagRight;
  }

  /** What a step changes in who holds what. */
  lemma StepHeld(j: Job, s: Pool, e: Event, i: nat)
    requires Shaped(j, s) && Exclusive(s) && Enabled(s, e)
    ensures var t := Step(j, s, e);
      Held(t, i) <==> (if e.Advance? && s.next < j.n && i == s.next then true
                       else if e.Resume? && s.workers[e.w].index == i then false
                       else Held(s, i))
  {
    var t := Step(j, s, e);
    if w :| 0 <= w < |s.workers| && s.workers[w].Busy() && s.workers[w].index == i && w != e.w {
      assert t.workers[w] == s.workers[w];
    }
    assert |t.workers| == |s.workers|;
    if e.Advance? && s.next < j.n { assert t.workers[e.w].Busy() && t.workers[e.w].index == s.next; }
    if e.React? { assert t.workers[e.w].Busy() && t.workers[e.w].index == s.workers[e.w].index; }
  }

  lemma StepAccounted(j: Job, s: Pool, e: Event)
    requires Invariant(j, s) && Enabled(s, e)
    ensures Accounted(j, Step(j, s, e))
  {
    var t := Step(j, s, e);
    forall i | 0 <= i < |t.results| ensures ResultRight(j, t, i) {
      assert ResultRight(j, s, i);
      StepHeld(j, s, e, i);
    }
  }

  lemma StepApi(j: Job, s: Pool, e: Event)
    requires Invariant(j, s) && Enabled(s, e)
    ensures ApiLogged(Step(j, s, e))
  {
    hide Accounted, FlagRight;
  }

  /** Only a reaction lets a limit be seen, and it does so for its own call. */
  lemma StepSeen(j: Job, s: Pool, e: Event, i: nat)
    requires Shaped(j, s) && Exclusive(s) && Enabled(s, e) && i < s.next
    ensures var t := Step(j, s, e);
      LimitSeen(j, t, i) <==>
      (LimitSeen(j, s, i) ||
       (e.React? && s.workers[e.w].index == i && j.outcomes(i).Value? && j.outcomes(i).limited))
  {
    var t := Step(j, s, e);
    assert forall w | 0 <= w < |s.workers| && w != e.w :: t.workers[w] == s.workers[w];
    assert |t.workers| == |s.workers|;
    if e.React? && s.workers[e.w].index != i { assert !t.workers[e.w].Calling?; }
  }

  /** A call that reports a limit was made to the API, or does not touch the flag. */
  lemma StepFlag(j: Job, s: Pool, e: Event)
    requires Shaped(j, s) && Exclusive(s) && ApiLogged(s) && FlagRight(j, s) && Enabled(s, e)
    ensures FlagRight(j, Step(j, s, e))
  {
    var t := Step(j, s, e);
    forall k | 0 <= k < |s.apiCalls| ensures t.apiCalls[k] == s.apiCalls[k] {}
    forall k | 0 <= k < |s.apiCalls| {
      StepSeen(j, s, e, s.apiCalls[k]);
    }
    if e.Advance? {
      if |t.apiCalls| > |s.apiCalls| {
        assert t.workers[e.w].Calling? && t.workers[e.w].index == t.apiCalls[|s.apiCalls|];
      }
    } else if e.React? {
      var worker := s.workers[e.w];
      if worker.api {
        var k :| 0 <= k < |s.apiCalls| && s.apiCalls[k] == worker.index;
        assert t.limited ==> s.limited || LimitSeen(j, t, t.apiCalls[k]);
      }
    }
  }

  lemma StepInvariant(j: Job, s: Pool, e: Event)
    requires Invariant(j, s) && Enabled(s, e)
    ensures Invariant(j, Step(j, s, e))
  {
    StepShaped(j, s, e);
    StepAccounted(j, s, e);
    StepApi(j, s, e);
    StepFlag(j, s, e);
    hide *;
  }

  // ---------- Every schedule ----------

  ghost predicate IsRun(j: Job, s: Pool, events: seq<Event>)
    requires Invariant(j, s)
    decreases |events|
  {
    events == [] ||
    (Enabled(s, events[0]) &&
     (StepInvariant(j, s, events[0]); IsRun(j, Step(j, s, events[0]), events[1..])))
  }

  ghost function After(j: Job, s: Pool, events: seq<Event>): (t: Pool)
    requires Invariant(j, s) && IsRun(j, s, events)
    ensures Invariant(j, t)
    decreases |events|
  {
    if events == [] then s
    else (StepInvariant(j, s, events[0]); After(j, Step(j, s, events[0]), events[1..]))
  }

  function Load(w: Worker): nat {
    match w
    case Idle => 1
    case Calling(_, _) => 3
    case Reacted(_) => 2
    case _ => 0
  }

  function Loads(workers: seq<Worker>): nat {
    if workers == [] then 0 else Load(workers[0]) + Loads(workers[1..])
  }

  lemma {:induction false} LoadsUpdate(workers: seq<Worker>, w: nat, x: Worker)
    requires w < |workers|
    ensures Loads(workers[w := x]) == Loads(workers) - Load(workers[w]) + Load(x)
  {
    if w > 0 {
      assert workers[w := x][1..] == workers[1..][w - 1 := x];
      LoadsUpdate(workers[1..], w - 1, x);
    } else {
      assert workers[w := x][1..] == workers[1..];
    }
  }

  /** Every schedule is finite: each step uses up some of this. */
  function Outstanding(j: Job, s: Pool): nat
    requires s.next <= j.n
  {
    3 * (j.n - s.next) + Loads(s.workers)
  }

  lemma StepsRunOut(j: Job, s: Pool, e: Event)
    requires Invariant(j, s) && Enabled(s, e)
    ensures Step(j, s, e).next <= j.n
    ensures Outstanding(j, Step(j, s, e)) < Outstanding(j, s)
  {
    var t := Step(j, s, e);
    LoadsUpdate(s.workers, e.w, t.workers[e.w]);
    assert t.workers == s.workers[e.w := t.workers[e.w]];
  }

  predicate Over(s: Pool) { forall w | 0 <= w < |s.workers| :: s.workers[w].Done? || s.workers[w].Failed? }

  /** A schedule only ends when every worker has ended. */
  lemma StuckIsOver(s: Pool)
    requires forall e :: !Enabled(s, e)
    ensures Over(s)
  {
    forall w | 0 <= w < |s.workers| ensures s.workers[w].Done? || s.workers[w].Failed? {
      assert !Enabled(s, Advance(w, false)) && !Enabled(s, React(w)) && !Enabled(s, Resume(w));
    }
  }

  /** When the pool is over and no call was rejected, each item was handed to the
      function exactly once, in order, and each result is what its own call
      settled with; except that a concurrency of zero leaves every item undone. */
  lemma FinishedResults(j: Job, s: Pool)
    requires Invariant(j, s) && Over(s) && forall w | 0 <= w < |s.workers| :: s.workers[w].Done?
    ensures j.concurrency > 0 ==> |s.calls| == j.n && forall i: nat | i < j.n ::
              s.calls[i] == i && j.outcomes(i).Value? && s.results[i] == Some(j.outcomes(i).snapshot)
    ensures j.concurrency == 0 ==> s.calls == [] && forall i: nat | i < j.n :: s.results[i] == None
  {
    forall i: nat | i < j.n ensures ResultRight(j, s, i) && !Held(s, i) {}
    if j.concurrency > 0 {
      if j.n > 0 { assert s.workers[0].Done?; }
      assert s.next == j.n;
      forall i: nat | i < j.n ensures j.outcomes(i).Value? && s.results[i] == Some(j.outcomes(i).snapshot) {
        assert ResultRight(j, s, i);
      }
    } else {
      assert s.calls == [];
      forall i: nat | i < j.n ensures s.results[i] == None {
        assert ResultRight(j, s, i);
      }
    }
  }

  function Awaited(workers: seq<Worker>): set<nat> {
    set w | 0 <= w < |workers| && workers[w].Calling? :: workers[w].index
  }

  /** At most the smaller of the concurrency and the item count is in flight. */
  lemma {:induction false} InFlightBound(workers: seq<Worker>)
    ensures |Awaited(workers)| <= |workers|
  {
    if workers != [] {
      var n := |workers| - 1;
      InFlightBound(workers[..n]);
      var last := if workers[n].Calling? then {workers[n].index} else {};
      forall i | i in Awaited(workers) ensures i in Awaited(workers[..n]) + last {
        var w :| 0 <= w < |workers| && workers[w].Calling? && workers[w].index == i;
        if w < n { assert workers[..n][w] == workers[w]; }
      }
      assert Awaited(workers) <= Awaited(workers[..n]) + last;
      Smaller(Awaited(workers), Awaited(workers[..n]) + last);
    }
  }

  lemma {:induction false} Smaller<T>(a: set<T>, b: set<T>)
    requires a <= b
    ensures |a| <= |b|
  {
    if x :| x in a { Smaller(a - {x}, b - {x}); }
  }

  ghost predicate Schedule(j: Job, events: seq<Event>) {
    InitialInvariant(j);
    IsRun(j, Initial(j), events)
  }

  ghost function Reached(j: Job, events: seq<Event>): (s: Pool)
    requires Schedule(j, events)
    ensures Invariant(j, s)
  {
    InitialInvariant(j);
    After(j, Initial(j), events)
  }

  /** In every schedule: the items handed out are the first ones, each once, and
      the calls in flight never exceed the bound. */
  lemma CallsOnceAndBounded(j: Job, events: seq<Event>)
    requires Schedule(j, events)
    ensures var s := Reached(j, events);
      && CalledInOrder(s) && s.next <= j.n
      && |Awaited(s.workers)| <= j.concurrency && |Awaited(s.workers)| <= j.n
  {
    InFlightBound(Reached(j, events).workers);
  }

  /** Once the flag is up it stays up, and no further call reaches the API: the
      calls that can still be answered are those already awaited. */
  lemma {:induction false} LimitStopsCalls(j: Job, s: Pool, events: seq<Event>)
    requires Invariant(j, s) && IsRun(j, s, events) && s.limited
    ensures var t := After(j, s, events);
      t.limited && t.apiCalls == s.apiCalls
    decreases |events|
  {
    if events != [] {
      StepInvariant(j, s, events[0]);
      LimitStopsCalls(j, Step(j, s, events[0]), events[1..]);
    }
  }

  /** The flag goes up exactly with the first API call seen to report a limit, so
      the calls still awaited then number less than the pool's width. */
  lemma FlagGoesUp(j: Job, s: Pool, e: Event)
    requires Invariant(j, s) && Enabled(s, e) && !s.limited
    ensures Step(j, s, e).limited <==>
            (e.React? && s.workers[e.w].api && j.outcomes(s.workers[e.w].index).Value? && j.outcomes(s.workers[e.w].index).limited)
    ensures Step(j, s, e).limited ==> |Awaited(Step(j, s, e).workers)| < Width(j)
  {
    var t := Step(j, s, e);
    if t.limited {
      var i := s.workers[e.w].index;
      InFlightBound(s.workers);
      assert i in Awaited(s.workers);
      assert Awaited(t.workers) <= Awaited(s.workers) - {i} by {
        forall k | k in Awaited(t.workers) ensures k in Awaited(s.workers) - {i} {
          var w :| 0 <= w < |t.workers| && t.workers[w].Calling? && t.workers[w].index == k;
          assert w != e.w && t.workers[w] == s.workers[w];
          assert s.workers[w].Busy() && s.workers[e.w].Busy();
        }
      }
      Smaller(Awaited(t.workers), Awaited(s.workers) - {i});
    }
  }

  // ---------- The pool over events ----------

  lemma {:induction false} RunSnoc(j: Job, s: Pool, events: seq<Event>, e: Event)
    requires Invariant(j, s) && IsRun(j, s, events + [e])
    ensures IsRun(j, s, events) && Enabled(After(j, s, events), e)
    ensures After(j, s, events + [e]) == Step(j, After(j, s, events), e)
    decreases |events|
  {
    var all := events + [e];
    if events != [] {
      assert all[1..] == events[1..] + [e];
      StepInvariant(j, s, events[0]);
      RunSnoc(j, Step(j, s, events[0]), events[1..], e);
    } else {
      assert all == [e] && all[1..] == [];
    }
    hide Accounted, Exclusive, FlagRight, Ends, CalledInOrder, ApiLogged;
  }

  /** How often a worker looked for an item; the first `n` looks find the items in
      order. */
  function Looks(events: seq<Event>): nat {
    if events == [] then 0
    else Looks(events[..|events| - 1]) + if events[|events| - 1].Advance? then 1 else 0
  }

  /** The number of a worker's last look. */
  function LastLook(events: seq<Event>, w: nat): Option<nat> {
    if events == [] then None
    else
      var before, last := events[..|events| - 1], events[|events| - 1];
      if last.Advance? && last.w == w then Some(Looks(before)) else LastLook(before, w)
  }

  /** The items that reach the API: not cached, and no limit shown before. */
  function ApiItems(j: Job, events: seq<Event>): seq<nat> {
    if events == [] then []
    else
      var before, last := events[..|events| - 1], events[|events| - 1];
      ApiItems(j, before) +
      if last.Advance? && Looks(before) < j.n && !last.cached && !LimitShown(j, before) then [Looks(before)] else []
  }

  /** Some call that reached the API has settled and reported a limit. */
  predicate LimitShown(j: Job, events: seq<Event>) {
    events != [] &&
    var before, last := events[..|events| - 1], events[|events| - 1];
    || LimitShown(j, before)
    || (last.React? && LastLook(before, last.w).Some? &&
        var i := LastLook(before, last.w).value;
        i in ApiItems(j, before) && j.outcomes(i).Value? && j.outcomes(i).limited)
  }

  /** A worker that took item `i` last has stored its result. */
  predicate Stored(events: seq<Event>, i: nat) {
    events != [] &&
    var before, last := events[..|events| - 1], events[|events| - 1];
    Stored(before, i) || (last.Resume? && LastLook(before, last.w) == Some(i))
  }

  ghost predicate History(j: Job, s: Pool, events: seq<Event>) {
    && s.next == (if Looks(events) <= j.n then Looks(events) else j.n)
    && s.apiCalls == ApiItems(j, events)
    && (s.limited <==> LimitShown(j, events))
    && (forall w | 0 <= w < |s.workers| && s.workers[w].Busy() :: LastLook(events, w) == Some(s.workers[w].index))
    && (forall i: nat | i < |s.results| :: s.results[i].Some? <==> Stored(events, i))
  }

  lemma HistoryStep(j: Job, s: Pool, events: seq<Event>, e: Event)
    requires Invariant(j, s) && History(j, s, events) && Enabled(s, e)
    ensures History(j, Step(j, s, e), events + [e])
  {
    var t, all := Step(j, s, e), events + [e];
    assert all[..|all| - 1] == events && all[|all| - 1] == e;
    StepShaped(j, s, e);
    hide Accounted, Exclusive, FlagRight, Ends, CalledInOrder;
    forall w | 0 <= w < |t.workers| && t.workers[w].Busy() ensures LastLook(all, w) == Some(t.workers[w].index) {
      if w != e.w { assert t.workers[w] == s.workers[w]; } else { assert e.React? ==> s.workers[w].Busy(); }
    }
    forall i: nat | i < |t.results| ensures t.results[i].Some? <==> Stored(all, i) {
      assert e.Resume? ==> s.workers[e.w].Busy();
    }
    if e.React? {
      assert s.workers[e.w].Busy();
      assert s.workers[e.w].api <==> s.workers[e.w].index in s.apiCalls;
    }
  }

  /** In every schedule the pool is what the order of the events makes it: an item
      reaches the API exactly if it is not cached and no limit was shown when it was
      taken, the flag is up exactly once a limit is shown, and a result is there
      exactly once its own worker has stored it. */
  lemma {:induction false} HistoryExact(j: Job, events: seq<Event>)
    requires Schedule(j, events)
    ensures History(j, Reached(j, events), events)
    decreases |events|
  {
    InitialInvariant(j);
    if events != [] {
      hide History, Invariant;
      var before, last := events[..|events| - 1], events[|events| - 1];
      assert events == before + [last];
      RunSnoc(j, Initial(j), before, last);
      HistoryExact(j, before);
      HistoryStep(j, Reached(j, before), before, last);
    }
  }

  /** An item reaches the API exactly if, when it is taken, it is not cached and no
      API call has been seen to report a limit. */
  lemma ReachesApiExactly(j: Job, events: seq<Event>, w: nat, cached: bool)
    requires Schedule(j, events + [Advance(w, cached)]) && Looks(events) < j.n
    ensures Looks(events) in Reached(j, events + [Advance(w, cached)]).apiCalls <==> !cached && !LimitShown(j, events)
  {
    var e := Advance(w, cached);
    var all := events + [e];
    assert all[..|all| - 1] == events;
    InitialInvariant(j);
    RunSnoc(j, Initial(j), events, e);
    HistoryExact(j, events);
    HistoryExact(j, all);
    var s := Reached(j, events);
    assert ApiLogged(s) && forall i | i in s.apiCalls :: i < s.next;
    assert ApiItems(j, all) == s.apiCalls + if !cached && !LimitShown(j, events) then [Looks(events)] else [];
  }

  // ---------- The pool's shared variables ----------

  /** `results` is the array the workers fill in; `nextIndex` and the flag are
      shared by all of them. */
  class EnrichmentPool {
    ghost const job: Job
    const size: nat
    var workers: seq<Worker>
    var nextIndex: nat
    var results: array<Option<string>>
    var enrichmentRateLimited: bool
    ghost var calls: seq<nat>
    ghost var apiCalls: seq<nat>

    ghost function Snapshot(): Pool
      reads this, results
    {
      Pool(workers, nextIndex, results[..], enrichmentRateLimited, calls, apiCalls)
    }

    ghost predicate Valid()
      reads this, results
    {
      size == job.n && Invariant(job, Snapshot())
    }

    constructor (ghost job: Job, size: nat, concurrency: nat)
      requires job.n == size && job.concurrency == concurrency
      ensures Valid() && this.job == job && Snapshot() == Initial(job) && fresh(results)
    {
      this.job, this.size := job, size;
      workers := seq(if concurrency <= size then concurrency else size, _ => Idle);
      nextIndex, enrichmentRateLimited, calls, apiCalls := 0, false, [], [];
      results := new Option<string>[size](_ => None);
      new;
      InitialInvariant(job);
    }

    /** One turn of a worker's loop up to its await. */
    method TakeNext(w: nat, cached: bool)
      requires Valid() && Enabled(Snapshot(), Advance(w, cached))
      modifies this
      ensures Valid() && results == old(results) && Snapshot() == Step(job, old(Snapshot()), Advance(w, cached))
    {
      StepInvariant(job, Snapshot(), Advance(w, cached));
      if nextIndex < size {
        var index := nextIndex;
        nextIndex := nextIndex + 1;
        calls := calls + [index];
        var api := !cached && !enrichmentRateLimited;
        if api {
          apiCalls := apiCalls + [index];
        }
        workers := workers[w := Calling(index, api)];
      } else {
        workers := workers[w := Done];
      }
    }

    /** A call settles with its outcome; the flag is raised before its worker
        goes on. */
    method Settle(w: nat, outcome: Outcome)
      requires Valid() && Enabled(Snapshot(), React(w)) && outcome == job.outcomes(workers[w].index)
      modifies this
      ensures Valid() && results == old(results) && Snapshot() == Step(job, old(Snapshot()), React(w))
    {
      StepInvariant(job, Snapshot(), React(w));
      var worker := workers[w];
      if outcome.Rejected? {
        workers := workers[w := Failed(worker.index)];
        return;
      }
      if worker.api && outcome.limited {
        enrichmentRateLimited := true;
      }
      workers := workers[w := Reacted(worker.index)];
    }

    method StoreResult(w: nat, outcome: Outcome)
      requires Valid() && Enabled(Snapshot(), Resume(w)) && outcome == job.outcomes(workers[w].index)
      modifies this, results
      ensures Valid() && results == old(results) && Snapshot() == Step(job, old(Snapshot()), Resume(w))
    {
      StepInvariant(job, Snapshot(), Resume(w));
      assert workers[w].Busy();
      results[workers[w].index] := Some(outcome.snapshot);
      workers := workers[w := Idle];
    }
  }
}
