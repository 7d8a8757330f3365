/** What the shared poll status says about an identity, in terms of what GitHub
    answered: `src/issue-polling.ts` and `src/issue-poll-publication.ts`. */
module PollAnswers {
  import opened Wrappers
  import opened PollStatus

  // ---------- Filters ----------

  function EntriesOf(entries: seq<Entry>, key: Key): seq<Entry> { Filter(entries, Keyed(key)) }

  lemma FilterFirst<T>(xs: seq<T>, p: T -> bool)
    requires xs != []
    ensures Filter(xs, p) == if p(xs[0]) then [xs[0]] + Filter(xs[1..], p) else Filter(xs[1..], p)
  {
  }

  lemma FilterEmpty<T>(p: T -> bool)
    ensures Filter([], p) == []
  {
  }

  lemma {:induction false} FilterConcat<T>(a: seq<T>, b: seq<T>, p: T -> bool)
    ensures Filter(a + b, p) == Filter(a, p) + Filter(b, p)
  {
    hide Filter;
    if a == [] {
      assert a + b == b;
      FilterEmpty(p);
    } else {
      assert (a + b)[0] == a[0] && (a + b)[1..] == a[1..] + b;
      FilterConcat(a[1..], b, p);
      FilterFirst(a, p);
      FilterFirst(a + b, p);
    }
  }

  lemma {:induction false} FilterAll<T>(xs: seq<T>, p: T -> bool, keep: bool)
    requires forall x | x in xs :: p(x) == keep
    ensures Filter(xs, p) == if keep then xs else []
  {
    if xs != [] {
      assert xs == [xs[0]] + xs[1..];
      FilterAll(xs[1..], p, keep);
    }
  }

  /** Filtering twice is filtering by both. */
  lemma {:induction false} FilterBoth<T>(xs: seq<T>, p: T -> bool, q: T -> bool, both: T -> bool)
    requires forall x | x in xs :: both(x) == (p(x) && q(x))
    ensures Filter(Filter(xs, p), q) == Filter(xs, both)
  {
    if xs != [] {
      assert xs == [xs[0]] + xs[1..];
      FilterBoth(xs[1..], p, q, both);
      FilterFirst(xs, p);
      FilterFirst(xs, both);
      if p(xs[0]) {
        assert ([xs[0]] + Filter(xs[1..], p))[1..] == Filter(xs[1..], p);
        FilterFirst(Filter(xs, p), q);
      }
      hide Filter;
    }
  }

  lemma FiltersCommute<T>(xs: seq<T>, p: T -> bool, q: T -> bool)
    ensures Filter(Filter(xs, p), q) == Filter(Filter(xs, q), p)
  {
    var both := (x: T) => p(x) && q(x);
    FilterBoth(xs, p, q, both);
    FilterBoth(xs, q, p, both);
  }

  lemma FilterRemoved<T>(xs: seq<T>, k: nat, p: T -> bool)
    requires k < |xs|
    ensures multiset(Filter(xs, p)) ==
            multiset(Filter(xs[..k] + xs[k + 1..], p)) + (if p(xs[k]) then multiset{xs[k]} else multiset{})
  {
    var x, front, back := xs[k], xs[..k], xs[k + 1..];
    assert xs == front + ([x] + back);
    assert ([x] + back)[1..] == back;
    FilterConcat(front, [x] + back, p);
    FilterConcat(front, back, p);
    FilterFirst([x] + back, p);
    hide Filter;
  }

  lemma SameRest<T>(a: seq<T>, b: seq<T>, k: nat)
    requires multiset(a) == multiset(b) && a != [] && k < |b| && b[k] == a[0]
    ensures multiset(a[1..]) == multiset(b[..k] + b[k + 1..])
  {
    assert a == [a[0]] + a[1..];
    assert b == b[..k] + ([b[k]] + b[k + 1..]);
    assert multiset(a[1..]) == multiset(a) - multiset{a[0]};
    assert multiset(b[..k] + b[k + 1..]) == multiset(b) - multiset{b[k]};
  }

  lemma FilterHead<T>(xs: seq<T>, p: T -> bool)
    requires xs != []
    ensures multiset(Filter(xs, p)) == multiset(Filter(xs[1..], p)) + (if p(xs[0]) then multiset{xs[0]} else multiset{})
  {
    FilterFirst(xs, p);
    hide Filter;
  }

  lemma Somewhere<T>(a: seq<T>, b: seq<T>) returns (k: nat)
    requires multiset(a) == multiset(b) && a != []
    ensures k < |b| && b[k] == a[0]
  {
    assert a[0] in multiset(a) && a[0] in multiset(b);
    k :| k < |b| && b[k] == a[0];
  }

  lemma SameSize<T>(a: seq<T>, b: seq<T>)
    requires multiset(a) == multiset(b)
    ensures |a| == |b|
  {
    assert |multiset(a)| == |a| && |multiset(b)| == |b|;
  }

  lemma {:induction false} FilterPermuted<T>(a: seq<T>, b: seq<T>, p: T -> bool)
    requires multiset(a) == multiset(b)
    ensures multiset(Filter(a, p)) == multiset(Filter(b, p))
    decreases |a|
  {
    hide Filter;
    SameSize(a, b);
    if a != [] {
      var k := Somewhere(a, b);
      SameRest(a, b, k);
      FilterPermuted(a[1..], b[..k] + b[k + 1..], p);
      FilterHead(a, p);
      FilterRemoved(b, k, p);
    } else {
      assert a == b;
    }
  }

  // ---------- One project's answer ----------

  function Free(a: Assessed): bool { a.reasons == [] }

  function Hindered(a: Assessed): bool { a.reasons != [] }

  /** The entries a project's issues become. */
  function EntriesFor(p: Project, issues: seq<Assessed>): seq<Entry> {
    if issues == [] then []
    else [Entry(p.name, p.repository, issues[0].issue, issues[0].reasons)] + EntriesFor(p, issues[1..])
  }

  lemma {:induction false} BandsOfAnswer(p: Project, issues: seq<Assessed>)
    ensures CandidateEntries(p, issues) == EntriesFor(p, Filter(issues, Free))
    ensures FilteredEntries(p, issues) == EntriesFor(p, Filter(issues, Hindered))
  {
    if issues != [] {
      BandsOfAnswer(p, issues[1..]);
      FilterFirst(issues, Free);
      FilterFirst(issues, Hindered);
      EntriesForCons(p, issues[0], Filter(issues[1..], Free));
      EntriesForCons(p, issues[0], Filter(issues[1..], Hindered));
      hide Filter, EntriesFor;
    }
  }

  lemma EntriesForCons(p: Project, a: Assessed, rest: seq<Assessed>)
    ensures EntriesFor(p, [a] + rest) == [Entry(p.name, p.repository, a.issue, a.reasons)] + EntriesFor(p, rest)
  {
    assert ([a] + rest)[1..] == rest;
  }

  lemma {:induction false} EntriesForKeyed(p: Project, issues: seq<Assessed>, key: Key)
    ensures EntriesOf(EntriesFor(p, issues), key) == if p.Id() == key then EntriesFor(p, issues) else []
  {
    if issues != [] {
      var rest := EntriesFor(p, issues[1..]);
      EntriesForKeyed(p, issues[1..], key);
      var first := Entry(p.name, p.repository, issues[0].issue, issues[0].reasons);
      assert ([first] + rest)[1..] == rest;
      assert first.Id() == p.Id();
    }
  }

  /** What the asked projects of an identity answered, filtered. */
  function Answered(config: seq<Project>, outcomes: nat -> Outcome, polled: seq<nat>, key: Key, which: Assessed -> bool): seq<Entry>
    requires forall m | 0 <= m < |polled| :: polled[m] < |config|
  {
    if polled == [] then []
    else
      var n := polled[|polled| - 1];
      Answered(config, outcomes, polled[..|polled| - 1], key, which) +
      if config[n].Id() == key && outcomes(n).Listed? then EntriesFor(config[n], Filter(outcomes(n).issues, which)) else []
  }

  lemma PollOneEntries(s: Status, p: Project, outcome: Outcome, key: Key)
    ensures var t := PollOne(s, p, outcome);
      var listed := p.Id() == key && outcome.Listed?;
      && EntriesOf(t.candidates, key) ==
         EntriesOf(s.candidates, key) + (if listed then EntriesFor(p, Filter(outcome.issues, Free)) else [])
      && EntriesOf(t.filtered, key) ==
         EntriesOf(s.filtered, key) + (if listed then EntriesFor(p, Filter(outcome.issues, Hindered)) else [])
  {
    if outcome.Listed? {
      var issues := outcome.issues;
      BandsOfAnswer(p, issues);
      EntriesForKeyed(p, Filter(issues, Free), key);
      EntriesForKeyed(p, Filter(issues, Hindered), key);
      FilterConcat(s.candidates, CandidateEntries(p, issues), Keyed(key));
      FilterConcat(s.filtered, FilteredEntries(p, issues), Keyed(key));
      hide Filter, CandidateEntries, FilteredEntries, EntriesFor, Keyed;
    }
  }

  lemma {:induction false} PolledEntries(config: seq<Project>, outcomes: nat -> Outcome, polled: seq<nat>, key: Key)
    requires forall m | 0 <= m < |polled| :: polled[m] < |config|
    ensures var s := PolledStatus(config, outcomes, polled);
      && EntriesOf(s.candidates, key) == Answered(config, outcomes, polled, key, Free)
      && EntriesOf(s.filtered, key) == Answered(config, outcomes, polled, key, Hindered)
  {
    if polled != [] {
      hide PollOne, Filter, EntriesFor, Keyed;
      var n := |polled| - 1;
      PolledEntries(config, outcomes, polled[..n], key);
      PollOneEntries(PolledStatus(config, outcomes, polled[..n]), config[polled[n]], outcomes(polled[n]), key);
    }
  }

  /** Which projects of the tick are asked. */
  function AskedIn(d: DaemonTick): (polled: seq<nat>)
    ensures forall m | 0 <= m < |polled| :: polled[m] < |Filter(d.projects, d.pollable)|
  {
    var config := Filter(d.projects, d.pollable);
    Asked(config, d.outcomes, |config|)
  }

  /** What a tick finds for an identity: its candidates are the listed issues that
      have no reasons, its filtered entries the other ones with their reasons. */
  lemma TickAnswers(d: DaemonTick, key: Key)
    ensures var config := Filter(d.projects, d.pollable);
      && multiset(EntriesOf(TickOf(d).latest.candidates, key)) == multiset(Answered(config, d.outcomes, AskedIn(d), key, Free))
      && multiset(EntriesOf(TickOf(d).latest.filtered, key)) == multiset(Answered(config, d.outcomes, AskedIn(d), key, Hindered))
  {
    var config := Filter(d.projects, d.pollable);
    var s := PolledStatus(config, d.outcomes, AskedIn(d));
    PolledEntries(config, d.outcomes, AskedIn(d), key);
    SortPermutes(s.candidates, d.precedes, key);
    SortPermutes(s.filtered, d.precedes, key);
    FilterPermuted(SortEntries(s.candidates, d.precedes), s.candidates, Keyed(key));
    FilterPermuted(SortEntries(s.filtered, d.precedes), s.filtered, Keyed(key));
    hide Filter, PolledStatus, Asked, SortEntries, Answered, Keyed, IssuesOf;
  }

  lemma {:induction false} AnsweredOnce(config: seq<Project>, outcomes: nat -> Outcome, polled: seq<nat>, m: nat, which: Assessed -> bool)
    requires forall k | 0 <= k < |polled| :: polled[k] < |config|
    requires m < |polled|
    requires forall k | 0 <= k < |polled| && k != m :: config[polled[k]].Id() != config[polled[m]].Id()
    ensures var p, outcome := config[polled[m]], outcomes(polled[m]);
      Answered(config, outcomes, polled, p.Id(), which) ==
        if outcome.Listed? then EntriesFor(p, Filter(outcome.issues, which)) else []
    decreases |polled|
  {
    hide Filter, EntriesFor;
    var n := |polled| - 1;
    if m == n {
      NotAnswered(config, outcomes, polled[..n], config[polled[m]].Id(), which);
    } else {
      AnsweredOnce(config, outcomes, polled[..n], m, which);
    }
  }

  lemma {:induction false} NotAnswered(config: seq<Project>, outcomes: nat -> Outcome, polled: seq<nat>, key: Key, which: Assessed -> bool)
    requires forall k | 0 <= k < |polled| :: polled[k] < |config| && config[polled[k]].Id() != key
    ensures Answered(config, outcomes, polled, key, which) == []
  {
    if polled != [] { NotAnswered(config, outcomes, polled[..|polled| - 1], key, which); }
  }

  /** For an identity that one asked project declares: exactly that answer's issues. */
  lemma AskedOnceAnswers(d: DaemonTick, m: nat)
    requires m < |AskedIn(d)|
    requires var config := Filter(d.projects, d.pollable);
      forall k | 0 <= k < |AskedIn(d)| && k != m :: config[AskedIn(d)[k]].Id() != config[AskedIn(d)[m]].Id()
    ensures var i := AskedIn(d)[m];
      var p, outcome, latest := Filter(d.projects, d.pollable)[i], d.outcomes(i), TickOf(d).latest;
      && multiset(EntriesOf(latest.candidates, p.Id())) ==
         (if outcome.Listed? then multiset(EntriesFor(p, Filter(outcome.issues, Free))) else multiset{})
      && multiset(EntriesOf(latest.filtered, p.Id())) ==
         (if outcome.Listed? then multiset(EntriesFor(p, Filter(outcome.issues, Hindered))) else multiset{})
  {
    var config := Filter(d.projects, d.pollable);
    var i := AskedIn(d)[m];
    TickAnswers(d, config[i].Id());
    AnsweredOnce(config, d.outcomes, AskedIn(d), m, Free);
    AnsweredOnce(config, d.outcomes, AskedIn(d), m, Hindered);
    hide Filter, TickOf, AskedIn, Answered, EntriesFor, EntriesOf;
  }

  /** The report an answer deserves. */
  function ReportFor(p: Project, outcome: Outcome): Report {
    match outcome
    case Failed(error) => Report(p.name, p.repository, false, Some(error), 0, 0, 0)
    case Listed(issues) =>
      Report(p.name, p.repository, true, None, |issues|, |Filter(issues, Free)|, |Filter(issues, Hindered)|)
  }

  lemma {:induction false} EntriesForSize(p: Project, issues: seq<Assessed>)
    ensures |EntriesFor(p, issues)| == |issues|
  {
    if issues != [] { EntriesForSize(p, issues[1..]); }
  }

  lemma PollOneReport(s: Status, p: Project, outcome: Outcome)
    ensures var t := PollOne(s, p, outcome);
      t.projects == s.projects + [ReportFor(p, outcome)] && t.errors == s.errors + ErrorsOf([ReportFor(p, outcome)])
  {
    if outcome.Listed? {
      BandsOfAnswer(p, outcome.issues);
      EntriesForSize(p, Filter(outcome.issues, Free));
      EntriesForSize(p, Filter(outcome.issues, Hindered));
      hide Filter, CandidateEntries, FilteredEntries, EntriesFor;
    }
    assert [ReportFor(p, outcome)][1..] == [];
  }

  lemma {:induction false} ErrorsConcat(a: seq<Report>, b: seq<Report>)
    ensures ErrorsOf(a + b) == ErrorsOf(a) + ErrorsOf(b)
  {
    if a == [] {
      assert a + b == b;
    } else {
      assert (a + b)[1..] == a[1..] + b;
      ErrorsConcat(a[1..], b);
    }
  }

  lemma {:induction false} PolledReports(config: seq<Project>, outcomes: nat -> Outcome, polled: seq<nat>)
    requires forall m | 0 <= m < |polled| :: polled[m] < |config|
    ensures var s := PolledStatus(config, outcomes, polled);
      && |s.projects| == |polled|
      && (forall m | 0 <= m < |polled| :: s.projects[m] == ReportFor(config[polled[m]], outcomes(polled[m])))
      && s.errors == ErrorsOf(s.projects)
  {
    if polled != [] {
      hide PollOne, Filter;
      var n := |polled| - 1;
      var s, p, outcome := PolledStatus(config, outcomes, polled[..n]), config[polled[n]], outcomes(polled[n]);
      PolledReports(config, outcomes, polled[..n]);
      PollOneReport(s, p, outcome);
      ErrorsConcat(s.projects, [ReportFor(p, outcome)]);
      hide ErrorsOf, ReportFor;
    }
  }

  /** A tick's reports: one for each asked project, in order, saying what it answered;
      its errors: those of the configuration, then those of the reports. */
  lemma TickReports(d: DaemonTick)
    ensures var config, latest := Filter(d.projects, d.pollable), TickOf(d).latest;
      && |latest.projects| == |AskedIn(d)|
      && (forall m | 0 <= m < |AskedIn(d)| :: latest.projects[m] == ReportFor(config[AskedIn(d)[m]], d.outcomes(AskedIn(d)[m])))
      && latest.errors == d.initialErrors + ErrorsOf(latest.projects)
  {
    PolledReports(Filter(d.projects, d.pollable), d.outcomes, AskedIn(d));
    hide Filter, PolledStatus, Asked, SortEntries, ReportFor, ErrorsOf;
  }

  // ---------- Suppression, entry by entry ----------

  /** Exactly the hidden candidates move: none is left, every other one stays, and
      those that move come behind the filtered entries with the one reason. */
  lemma SuppressExact(s: Status, hides: Entry -> bool)
    ensures var t := Suppress(s, hides);
      && t.candidates == Filter(s.candidates, Not(hides))
      && (forall e :: e in t.candidates <==> e in s.candidates && !hides(e))
      && |t.candidates| + (|t.filtered| - |s.filtered|) == |s.candidates|
      && s.filtered <= t.filtered
      && (forall e :: e in t.filtered[|s.filtered|..] <==>
            exists c :: c in s.candidates && hides(c) && e == c.(reasons := ["a newer run suppresses latest dispatch"]))
  {
    var hidden := Filter(s.candidates, hides);
    FilterMembers(s.candidates, Not(hides));
    FilterMembers(s.candidates, hides);
    FilterSizes(s.candidates, hides);
    MarkedMembers(hidden);
    assert Suppress(s, hides).filtered[|s.filtered|..] == MarkAll(hidden);
    hide Filter, MarkAll;
  }

  lemma {:induction false} FilterSizes(entries: seq<Entry>, p: Entry -> bool)
    ensures |Filter(entries, p)| + |Filter(entries, Not(p))| == |entries|
  {
    if entries != [] { FilterSizes(entries[1..], p); }
  }

  lemma {:induction false} MarkedMembers(entries: seq<Entry>)
    ensures |MarkAll(entries)| == |entries|
    ensures forall e :: e in MarkAll(entries) <==>
              exists c :: c in entries && e == c.(reasons := ["a newer run suppresses latest dispatch"])
  {
    if entries != [] {
      MarkedMembers(entries[1..]);
      assert entries == [entries[0]] + entries[1..];
    }
  }

  lemma {:induction false} MarkedKeyed(entries: seq<Entry>, key: Key)
    ensures EntriesOf(MarkAll(entries), key) == MarkAll(EntriesOf(entries, key))
  {
    if entries != [] {
      MarkedKeyed(entries[1..], key);
      var e, rest := entries[0], EntriesOf(entries[1..], key);
      FilterFirst(entries, Keyed(key));
      assert MarkAll(entries)[1..] == MarkAll(entries[1..]);
      FilterFirst(MarkAll(entries), Keyed(key));
      assert ([e] + rest)[1..] == rest;
      hide Filter;
    }
  }

  lemma SuppressEntries(s: Status, hides: Entry -> bool, key: Key)
    ensures var t := Suppress(s, hides);
      && EntriesOf(t.candidates, key) == Filter(EntriesOf(s.candidates, key), Not(hides))
      && EntriesOf(t.filtered, key) == EntriesOf(s.filtered, key) + MarkAll(Filter(EntriesOf(s.candidates, key), hides))
  {
    FiltersCommute(s.candidates, Keyed(key), Not(hides));
    FiltersCommute(s.candidates, Keyed(key), hides);
    MarkedKeyed(Filter(s.candidates, hides), key);
    FilterConcat(s.filtered, MarkAll(Filter(s.candidates, hides)), Keyed(key));
    hide Filter, MarkAll, Keyed;
  }

  // ---------- Merging, entry by entry ----------

  /** Filtering by something that depends on the identity only. */
  lemma KeyFilter(entries: seq<Entry>, p: Entry -> bool, key: Key, keep: bool)
    requires forall e | e in entries && e.Id() == key :: p(e) == keep
    ensures EntriesOf(Filter(entries, p), key) == if keep then EntriesOf(entries, key) else []
  {
    var mine := EntriesOf(entries, key);
    FiltersCommute(entries, p, Keyed(key));
    FilterMembers(entries, Keyed(key));
    FilterAll(mine, p, keep);
  }

  lemma NoEntries(entries: seq<Entry>, key: Key)
    requires forall e | e in entries :: e.Id() != key
    ensures EntriesOf(entries, key) == []
  {
    FilterAll(entries, Keyed(key), false);
  }

  lemma MergeEntries(s: Status, t: Tick, key: Key)
    requires Proper(t)
    ensures Polls(t, key) ==> Configures(t, key)
    ensures EntriesOf(MergeTick(s, t).candidates, key) ==
            if Polls(t, key) then EntriesOf(t.latest.candidates, key)
            else if Configures(t, key) then EntriesOf(s.candidates, key)
            else []
    ensures EntriesOf(MergeTick(s, t).filtered, key) ==
            if Polls(t, key) then EntriesOf(t.latest.filtered, key)
            else if Configures(t, key) then EntriesOf(s.filtered, key)
            else []
  {
    var polled, configured, selected := ReportedKeys(t.latest.projects), EnabledKeys(t.projects), SelectedKeys(t.projects);
    var carried := Carried(key, polled, configured);
    var carryEntry := (e: Entry) => Carried(e.Id(), polled, configured);
    var all := Filter(s.candidates, carryEntry) + t.latest.candidates;
    KeyFilter(s.candidates, carryEntry, key, carried);
    KeyFilter(s.filtered, carryEntry, key, carried);
    FilterConcat(Filter(s.candidates, carryEntry), t.latest.candidates, Keyed(key));
    FilterConcat(Filter(s.filtered, carryEntry), t.latest.filtered, Keyed(key));
    KeyFilter(all, (e: Entry) => Selected(e, selected), key, key.name in selected && selected[key.name] == key);
    if key !in polled {
      NoEntries(t.latest.candidates, key);
      NoEntries(t.latest.filtered, key);
    }
    if key in configured { EnabledIsSelected(t.projects, key); }
    hide Filter, Keyed, SelectedKeys, ReportedKeys, EnabledKeys;
  }

  // ---------- Every tick ----------

  /** Hidden by none of the ticks from `i` on. */
  ghost predicate Spared(ticks: seq<Tick>, i: nat, e: Entry) {
    forall j | i <= j < |ticks| :: !ticks[j].hides(e)
  }

  ghost function SparedIn(ticks: seq<Tick>, i: nat): Entry -> bool { (e: Entry) => Spared(ticks, i, e) }

  ghost function HiddenIn(ticks: seq<Tick>, i: nat): Entry -> bool { (e: Entry) => !Spared(ticks, i, e) }

  lemma SparedStep(ticks: seq<Tick>, i: nat, e: Entry)
    requires i <= |ticks| - 1
    ensures Spared(ticks, i, e) <==> Spared(ticks[..|ticks| - 1], i, e) && !ticks[|ticks| - 1].hides(e)
  {
    var n := |ticks| - 1;
    assert forall j | 0 <= j < n :: ticks[..n][j] == ticks[j];
  }

  /** The marked entries that a filter keeps of a first entry and the rest. */
  lemma MarkedFirst(e: Entry, rest: seq<Entry>, p: Entry -> bool)
    ensures multiset(MarkAll(Filter([e] + rest, p))) ==
            (if p(e) then multiset{e.(reasons := [SUPPRESSED_REASON])} else multiset{}) + multiset(MarkAll(Filter(rest, p)))
  {
    assert ([e] + rest)[1..] == rest;
    FilterFirst([e] + rest, p);
    hide Filter;
    assert ([e] + Filter(rest, p))[1..] == Filter(rest, p);
  }

  lemma {:induction false} MarkedSplit(entries: seq<Entry>, earlier: Entry -> bool, now: Entry -> bool, hidden: Entry -> bool)
    requires forall e | e in entries :: hidden(e) == (!earlier(e) || now(e))
    ensures multiset(MarkAll(Filter(entries, hidden))) ==
            multiset(MarkAll(Filter(entries, Not(earlier)))) + multiset(MarkAll(Filter(Filter(entries, earlier), now)))
  {
    if entries == [] {
      FilterNone(hidden);
      FilterNone(Not(earlier));
      FilterNone(earlier);
      FilterNone(now);
      assert MarkAll([]) == [];
    } else {
      var e, rest := entries[0], entries[1..];
      assert entries == [e] + rest;
      FilterFirst(entries, earlier);
      NotApplied(earlier, e);
      hide Filter, MarkAll, Not;
      MarkedSplit(rest, earlier, now, hidden);
      MarkedFirst(e, rest, hidden);
      MarkedFirst(e, rest, Not(earlier));
      MarkedFirst(e, Filter(rest, earlier), now);
    }
  }

  lemma PublishEntries(s: Status, t: Tick, key: Key)
    requires Proper(t)
    ensures Polls(t, key) ==> Configures(t, key)
    ensures Polls(t, key) || Configures(t, key) ==>
              var before := if Polls(t, key) then t.latest else s;
              && EntriesOf(Publish(s, t).candidates, key) == Filter(EntriesOf(before.candidates, key), Not(t.hides))
              && EntriesOf(Publish(s, t).filtered, key) ==
                 EntriesOf(before.filtered, key) + MarkAll(Filter(EntriesOf(before.candidates, key), t.hides))
  {
    assert Publish(s, t) == Suppress(MergeTick(s, t), t.hides);
    hide *;
    MergeEntries(s, t, key);
    SuppressEntries(MergeTick(s, t), t.hides, key);
  }

  /** What an identity holds after the ticks, `found` being its latest result: the
      candidates no tick since has hidden, and behind the filtered entries the hidden
      ones. */
  ghost predicate HoldsSince(s: Status, found: Status, key: Key, spared: Entry -> bool, hidden: Entry -> bool) {
    && EntriesOf(s.candidates, key) == Filter(EntriesOf(found.candidates, key), spared)
    && multiset(EntriesOf(s.filtered, key)) ==
       multiset(EntriesOf(found.filtered, key)) + multiset(MarkAll(Filter(EntriesOf(found.candidates, key), hidden)))
  }

  lemma {:induction false} EntriesThroughTicks(ticks: seq<Tick>, key: Key, i: nat)
    requires ProperTicks(ticks) && i < |ticks|
    requires Polls(ticks[i], key)
    requires forall j | i < j < |ticks| :: !Polls(ticks[j], key) && Configures(ticks[j], key)
    ensures HoldsSince(PublishAll(ticks), ticks[i].latest, key, SparedIn(ticks, i), HiddenIn(ticks, i))
    decreases |ticks|
  {
    hide Publish, Proper, Polls, Configures, EntriesOf, Filter, MarkAll, HoldsSince;
    var n := |ticks| - 1;
    var before, t := ticks[..n], ticks[n];
    assert Proper(t);
    PublishEntries(PublishAll(before), t, key);
    var found := ticks[i].latest;
    forall e ensures SparedIn(ticks, i)(e) == (SparedIn(before, i)(e) && Not(t.hides)(e)) {
      SparedStep(ticks, i, e);
    }
    if i < n {
      assert before[i] == ticks[i];
      EntriesThroughTicks(before, key, i);
      HoldsOneMore(PublishAll(before), PublishAll(ticks), found, key, t.hides,
                   SparedIn(before, i), HiddenIn(before, i), SparedIn(ticks, i), HiddenIn(ticks, i));
    } else {
      assert forall e :: SparedIn(before, i)(e) && !HiddenIn(before, i)(e);
      HoldsFirst(found, key, SparedIn(before, i), HiddenIn(before, i));
      HoldsOneMore(found, PublishAll(ticks), found, key, t.hides,
                   SparedIn(before, i), HiddenIn(before, i), SparedIn(ticks, i), HiddenIn(ticks, i));
    }
  }

  lemma HoldsFirst(found: Status, key: Key, spared: Entry -> bool, hidden: Entry -> bool)
    requires forall e :: spared(e) && !hidden(e)
    ensures HoldsSince(found, found, key, spared, hidden)
  {
    FilterAll(EntriesOf(found.candidates, key), spared, true);
    FilterAll(EntriesOf(found.candidates, key), hidden, false);
    assert MarkAll([]) == [];
  }

  lemma HoldsOneMore(s: Status, t: Status, found: Status, key: Key, hides: Entry -> bool,
                     spared: Entry -> bool, hidden: Entry -> bool, sparedNow: Entry -> bool, hiddenNow: Entry -> bool)
    requires HoldsSince(s, found, key, spared, hidden)
    requires EntriesOf(t.candidates, key) == Filter(EntriesOf(s.candidates, key), Not(hides))
    requires EntriesOf(t.filtered, key) == EntriesOf(s.filtered, key) + MarkAll(Filter(EntriesOf(s.candidates, key), hides))
    requires forall e :: sparedNow(e) == (spared(e) && Not(hides)(e))
    requires forall e :: hidden(e) == !spared(e) && hiddenNow(e) == !sparedNow(e)
    ensures HoldsSince(t, found, key, sparedNow, hiddenNow)
  {
    var mine := EntriesOf(found.candidates, key);
    FilterBoth(mine, spared, Not(hides), sparedNow);
    MarkedSplit(mine, spared, hides, hiddenNow);
    SameFilter(mine, hidden, Not(spared));
    hide Filter, MarkAll, EntriesOf;
  }

  lemma {:induction false} SameFilter<T>(xs: seq<T>, p: T -> bool, q: T -> bool)
    requires forall x | x in xs :: p(x) == q(x)
    ensures Filter(xs, p) == Filter(xs, q)
  {
    if xs != [] {
      assert xs == [xs[0]] + xs[1..];
      SameFilter(xs[1..], p, q);
    }
  }

  ghost predicate SparedBy(ds: seq<DaemonTick>, i: nat, e: Entry) {
    forall j | i <= j < |ds| :: !ds[j].hides(e)
  }

  /** Over every sequence of ticks with unique names, entry by entry: an identity's
      candidates are those the latest tick that polled it found and no tick since
      then hid, in order; its filtered entries are those that tick found and the
      candidates hidden since. */
  lemma EntriesSinceLastPoll(ds: seq<DaemonTick>, key: Key, i: nat)
    requires UniqueThroughout(ds) && i < |ds|
    requires Polls(TickOf(ds[i]), key)
    requires forall j | i < j < |ds| :: !Polls(TickOf(ds[j]), key) && Configures(TickOf(ds[j]), key)
    ensures HoldsSince(StatusAfter(ds), TickOf(ds[i]).latest, key,
                       (e: Entry) => SparedBy(ds, i, e), (e: Entry) => !SparedBy(ds, i, e))
  {
    var ticks := TicksOf(ds);
    TicksAreProper(ds);
    forall e ensures Spared(ticks, i, e) <==> SparedBy(ds, i, e) {
      assert forall j | i <= j < |ds| :: ticks[j].hides == ds[j].hides;
    }
    hide TickOf, ProperTicks, Polls, Configures, HoldsSince, Spared, SparedBy;
    EntriesThroughTicks(ticks, key, i);
    SameHolds(StatusAfter(ds), TickOf(ds[i]).latest, key, SparedIn(ticks, i), HiddenIn(ticks, i),
              (e: Entry) => SparedBy(ds, i, e), (e: Entry) => !SparedBy(ds, i, e));
  }

  lemma SameHolds(s: Status, found: Status, key: Key, p: Entry -> bool, q: Entry -> bool, p': Entry -> bool, q': Entry -> bool)
    requires HoldsSince(s, found, key, p, q) && forall e :: p(e) == p'(e) && q(e) == q'(e)
    ensures HoldsSince(s, found, key, p', q')
  {
    SameFilter(EntriesOf(found.candidates, key), p, p');
    SameFilter(EntriesOf(found.candidates, key), q, q');
    hide Filter, EntriesOf;
  }

  /** A candidate has no reasons and a filtered entry has some. */
  predicate BandsRight(s: Status) {
    (forall e | e in s.candidates :: e.reasons == []) && (forall e | e in s.filtered :: e.reasons != [])
  }

  lemma {:induction false} AnswerBands(p: Project, issues: seq<Assessed>)
    ensures forall e | e in CandidateEntries(p, issues) :: e.reasons == []
    ensures forall e | e in FilteredEntries(p, issues) :: e.reasons != []
  {
    if issues != [] { AnswerBands(p, issues[1..]); }
  }

  lemma {:induction false} PolledBands(config: seq<Project>, outcomes: nat -> Outcome, polled: seq<nat>)
    requires forall m | 0 <= m < |polled| :: polled[m] < |config|
    ensures BandsRight(PolledStatus(config, outcomes, polled))
  {
    if polled != [] {
      var n := |polled| - 1;
      PolledBands(config, outcomes, polled[..n]);
      if outcomes(polled[n]).Listed? { AnswerBands(config[polled[n]], outcomes(polled[n]).issues); }
    }
  }

  lemma TickBands(d: DaemonTick)
    ensures BandsRight(TickOf(d).latest)
  {
    var s := PolledStatus(Filter(d.projects, d.pollable), d.outcomes, AskedIn(d));
    PolledBands(Filter(d.projects, d.pollable), d.outcomes, AskedIn(d));
    SortPermutes(s.candidates, d.precedes, Key("", "", ""));
    SortPermutes(s.filtered, d.precedes, Key("", "", ""));
    SameMembers(SortEntries(s.candidates, d.precedes), s.candidates);
    SameMembers(SortEntries(s.filtered, d.precedes), s.filtered);
    hide Filter, PolledStatus, Asked, SortEntries, IssuesOf;
  }

  lemma PublishBands(s: Status, t: Tick)
    requires BandsRight(s) && BandsRight(t.latest)
    ensures BandsRight(Publish(s, t))
  {
    var polled, configured, selected := ReportedKeys(t.latest.projects), EnabledKeys(t.projects), SelectedKeys(t.projects);
    var carryEntry := (e: Entry) => Carried(e.Id(), polled, configured);
    FilterMembers(s.candidates, carryEntry);
    FilterMembers(s.filtered, carryEntry);
    FilterMembers(Filter(s.candidates, carryEntry) + t.latest.candidates, (e: Entry) => Selected(e, selected));
    var merged := MergeTick(s, t);
    assert BandsRight(merged);
    MarkedMembers(Filter(merged.candidates, t.hides));
    FilterMembers(merged.candidates, Not(t.hides));
    hide Filter, MarkAll, SelectedKeys, MergeTick;
  }

  lemma {:induction false} BandsThroughTicks(ticks: seq<Tick>)
    requires forall i | 0 <= i < |ticks| :: BandsRight(ticks[i].latest)
    ensures BandsRight(PublishAll(ticks))
    decreases |ticks|
  {
    if ticks != [] {
      hide BandsRight, Publish;
      BandsThroughTicks(ticks[..|ticks| - 1]);
      PublishBands(PublishAll(ticks[..|ticks| - 1]), ticks[|ticks| - 1]);
    } else {
      assert BandsRight(EMPTY);
    }
  }

  /** After every sequence of ticks, whatever the names: a candidate has no reasons
      against it, and a filtered entry has some. */
  lemma EveryBandRight(ds: seq<DaemonTick>)
    ensures BandsRight(StatusAfter(ds))
  {
    forall i | 0 <= i < |ds| ensures BandsRight(TicksOf(ds)[i].latest) { TickBands(ds[i]); }
    hide TickOf, BandsRight;
    BandsThroughTicks(TicksOf(ds));
  }
}
