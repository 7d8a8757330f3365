/** Issue polling and publication: `src/issue-polling.ts` and
    `src/issue-poll-publication.ts`.

    A tick polls some of the configured projects; its result is merged into a
    shared status, carrying over what was not polled, and candidates that a newer
    run suppresses are moved to the filtered band. */
module PollStatus {
  import opened Wrappers
  import opened Strings

  // ---------- Identities ----------

  datatype Repository = Repository(owner: string, repo: string)

  /** The poll identity: name, lower-cased owner and repository. */
  datatype Key = Key(name: string, owner: string, repo: string)

  function KeyOf(name: string, repository: Repository): Key {
    Key(name, Lower(repository.owner), Lower(repository.repo))
  }

  // ---------- Data ----------

  /** `content` stands for everything about an issue but its number. */
  datatype Issue = Issue(number: nat, content: string)

  /** An issue of a project, in a band; a candidate has no reasons. */
  datatype Entry = Entry(project: string, repository: Repository, issue: Issue, reasons: seq<string>) {
    function Id(): Key { KeyOf(project, repository) }
  }

  datatype Report = Report(name: string, repository: Repository, ok: bool, error: Option<string>,
                           fetched: nat, candidates: nat, filtered: nat) {
    function Id(): Key { KeyOf(name, repository) }
  }

  datatype Status = Status(candidates: seq<Entry>, errors: seq<string>, filtered: seq<Entry>, projects: seq<Report>)

  const EMPTY := Status([], [], [], [])

  /** A declared project with its resolved credential. */
  datatype Project = Project(name: string, repository: Repository, token: Option<string>, disabled: bool) {
    function Id(): Key { KeyOf(name, repository) }
  }

  // ---------- Filtering ----------

  function Filter<T>(xs: seq<T>, p: T -> bool): seq<T> {
    if xs == [] then [] else (if p(xs[0]) then [xs[0]] else []) + Filter(xs[1..], p)
  }

  function Not(p: Entry -> bool): Entry -> bool { (e: Entry) => !p(e) }

  lemma {:induction false} FilterMembers<T>(xs: seq<T>, p: T -> bool)
    ensures forall x :: x in Filter(xs, p) <==> x in xs && p(x)
  {
    if xs != [] {
      FilterMembers(xs[1..], p);
      assert xs == [xs[0]] + xs[1..];
    }
  }

  /** The issues a band holds for one identity. */
  function IssuesOf(entries: seq<Entry>, key: Key): seq<Issue> {
    if entries == [] then []
    else (if entries[0].Id() == key then [entries[0].issue] else []) + IssuesOf(entries[1..], key)
  }

  lemma {:induction false} IssuesConcat(a: seq<Entry>, b: seq<Entry>, key: Key)
    ensures IssuesOf(a + b, key) == IssuesOf(a, key) + IssuesOf(b, key)
  {
    if a == [] {
      assert a + b == b;
    } else {
      assert (a + b)[1..] == a[1..] + b;
      IssuesConcat(a[1..], b, key);
    }
  }

  /** A filter on identities keeps or drops an identity as a whole. */
  lemma {:induction false} IssuesOfKeyFilter(entries: seq<Entry>, p: Entry -> bool, key: Key, keep: bool)
    requires forall e | e in entries && e.Id() == key :: p(e) == keep
    ensures IssuesOf(Filter(entries, p), key) == if keep then IssuesOf(entries, key) else []
  {
    if entries != [] {
      assert entries == [entries[0]] + entries[1..];
      IssuesOfKeyFilter(entries[1..], p, key, keep);
      IssuesConcat(if p(entries[0]) then [entries[0]] else [], Filter(entries[1..], p), key);
      assert IssuesOf([entries[0]], key) == if entries[0].Id() == key then [entries[0].issue] else [] by {
        assert [entries[0]][1..] == [];
      }
    }
  }

  /** Everything a status holds for one identity, in either band. */
  function Held(s: Status, key: Key): multiset<Issue> {
    multiset(IssuesOf(s.candidates, key)) + multiset(IssuesOf(s.filtered, key))
  }

  // ---------- Merging ----------

  function ReportedKeys(reports: seq<Report>): set<Key> {
    set r | r in reports :: r.Id()
  }

  function EnabledKeys(projects: seq<Project>): set<Key> {
    set p | p in projects && !p.disabled :: p.Id()
  }

  /** Name to identity; the last declaration of a name wins. */
  function SelectedKeys(projects: seq<Project>): map<string, Key> {
    if projects == [] then map[]
    else
      var n := |projects| - 1;
      SelectedKeys(projects[..n])[projects[n].name := projects[n].Id()]
  }

  predicate Carried(key: Key, polled: set<Key>, configured: set<Key>) { key !in polled && key in configured }

  function Carries(polled: set<Key>, configured: set<Key>): Report -> bool {
    (r: Report) => Carried(r.Id(), polled, configured)
  }

  predicate Selected(e: Entry, selected: map<string, Key>) {
    e.project in selected && selected[e.project] == e.Id()
  }

  function ErrorsOf(reports: seq<Report>): seq<string> {
    if reports == [] then []
    else (match reports[0].error case None => [] case Some(error) => [error]) + ErrorsOf(reports[1..])
  }

  function Merge(prior: Status, latest: Status, polled: set<Key>, configured: set<Key>, selected: map<string, Key>): Status {
    var carriedReports := Filter(prior.projects, Carries(polled, configured));
    var carryEntry := (e: Entry) => Carried(e.Id(), polled, configured);
    Status(
      Filter(Filter(prior.candidates, carryEntry) + latest.candidates, (e: Entry) => Selected(e, selected)),
      ErrorsOf(carriedReports) + latest.errors,
      Filter(prior.filtered, carryEntry) + latest.filtered,
      carriedReports + latest.projects)
  }

  /** The merged bands, identity by identity, for every configuration: carried
      entries then latest ones, and candidates only for the selected declaration. */
  lemma MergeBands(prior: Status, latest: Status, polled: set<Key>, configured: set<Key>, selected: map<string, Key>, key: Key)
    ensures var merged := Merge(prior, latest, polled, configured, selected);
      var carried := Carried(key, polled, configured);
      && IssuesOf(merged.filtered, key) == (if carried then IssuesOf(prior.filtered, key) else []) + IssuesOf(latest.filtered, key)
      && IssuesOf(merged.candidates, key) ==
           (if key.name in selected && selected[key.name] == key
            then (if carried then IssuesOf(prior.candidates, key) else []) + IssuesOf(latest.candidates, key)
            else [])
  {
    var carried := Carried(key, polled, configured);
    var carryEntry := (e: Entry) => Carried(e.Id(), polled, configured);
    var selectEntry := (e: Entry) => Selected(e, selected);
    IssuesOfKeyFilter(prior.filtered, carryEntry, key, carried);
    IssuesConcat(Filter(prior.filtered, carryEntry), latest.filtered, key);
    IssuesOfKeyFilter(prior.candidates, carryEntry, key, carried);
    var all := Filter(prior.candidates, carryEntry) + latest.candidates;
    IssuesConcat(Filter(prior.candidates, carryEntry), latest.candidates, key);
    IssuesOfKeyFilter(all, selectEntry, key, key.name in selected && selected[key.name] == key);
  }

  // ---------- Suppression ----------

  const SUPPRESSED_REASON: string := "a newer run suppresses latest dispatch"

  function Count(entries: seq<Entry>, r: Report): nat { |IssuesOf(entries, r.Id())| }

  function MarkAll(entries: seq<Entry>): seq<Entry> {
    if entries == [] then [] else [entries[0].(reasons := [SUPPRESSED_REASON])] + MarkAll(entries[1..])
  }

  /** Moves a report's suppressed candidates to its filtered count, at most as
      many as it has. */
  function Adjust(r: Report, suppressed: seq<Entry>): Report {
    var moved := if Count(suppressed, r) <= r.candidates then Count(suppressed, r) else r.candidates;
    r.(candidates := r.candidates - moved, filtered := r.filtered + moved)
  }

  function AdjustAll(reports: seq<Report>, suppressed: seq<Entry>): (r: seq<Report>)
    ensures |r| == |reports|
    ensures forall i | 0 <= i < |r| :: r[i] == Adjust(reports[i], suppressed)
  {
    if reports == [] then [] else [Adjust(reports[0], suppressed)] + AdjustAll(reports[1..], suppressed)
  }

  function Suppress(s: Status, hides: Entry -> bool): Status {
    var suppressed := MarkAll(Filter(s.candidates, hides));
    Status(Filter(s.candidates, Not(hides)), s.errors, s.filtered + suppressed, AdjustAll(s.projects, suppressed))
  }

  lemma {:induction false} MarkedIssues(entries: seq<Entry>, key: Key)
    ensures IssuesOf(MarkAll(entries), key) == IssuesOf(entries, key)
  {
    if entries != [] { MarkedIssues(entries[1..], key); }
  }

  lemma {:induction false} FilterSplits(entries: seq<Entry>, p: Entry -> bool, key: Key)
    ensures multiset(IssuesOf(Filter(entries, p), key)) + multiset(IssuesOf(Filter(entries, Not(p)), key))
         == multiset(IssuesOf(entries, key))
  {
    hide IssuesOf, Filter, KeyOf, Not;
    if entries == [] {
      FilterNone(p);
      FilterNone(Not(p));
      IssuesNone(key);
    } else {
      var e, rest := entries[0], entries[1..];
      FilterSplits(rest, p, key);
      FilterStep(entries, p);
      FilterStep(entries, Not(p));
      assert Not(p)(e) == !p(e) by { NotApplied(p, e); }
      SplitOne(e, rest, key);
      assert entries == [e] + rest;
      if p(e) {
        SplitOne(e, Filter(rest, p), key);
      } else {
        SplitOne(e, Filter(rest, Not(p)), key);
      }
    }
  }

  lemma FilterNone(p: Entry -> bool) ensures Filter([], p) == [] {}

  lemma IssuesNone(key: Key) ensures IssuesOf([], key) == [] {}

  lemma NotApplied(p: Entry -> bool, e: Entry) ensures Not(p)(e) == !p(e) {}

  lemma FilterStep(entries: seq<Entry>, p: Entry -> bool)
    requires entries != []
    ensures Filter(entries, p) == if p(entries[0]) then [entries[0]] + Filter(entries[1..], p) else Filter(entries[1..], p)
  {
  }

  lemma SplitOne(e: Entry, rest: seq<Entry>, key: Key)
    ensures multiset(IssuesOf([e] + rest, key)) == (if e.Id() == key then multiset{e.issue} else multiset{}) + multiset(IssuesOf(rest, key))
  {
    assert ([e] + rest)[1..] == rest;
  }

  /** Suppression moves issues between the bands and loses none. */
  lemma SuppressKeepsHeld(s: Status, hides: Entry -> bool, key: Key)
    ensures Held(Suppress(s, hides), key) == Held(s, key)
    ensures multiset(IssuesOf(Suppress(s, hides).candidates, key)) <= multiset(IssuesOf(s.candidates, key))
  {
    var hidden := Filter(s.candidates, hides);
    FilterSplits(s.candidates, hides, key);
    MarkedIssues(hidden, key);
    IssuesConcat(s.filtered, MarkAll(hidden), key);
  }

  // ---------- Publishing ticks ----------

  datatype Tick = Tick(latest: Status, projects: seq<Project>, hides: Entry -> bool)

  function MergeTick(s: Status, t: Tick): Status {
    Merge(s, t.latest, ReportedKeys(t.latest.projects), EnabledKeys(t.projects), SelectedKeys(t.projects))
  }

  function Publish(s: Status, t: Tick): Status { Suppress(MergeTick(s, t), t.hides) }

  function PublishAll(ticks: seq<Tick>): Status {
    if ticks == [] then EMPTY else Publish(PublishAll(ticks[..|ticks| - 1]), ticks[|ticks| - 1])
  }

  predicate UniqueNames(projects: seq<Project>) {
    forall i, j | 0 <= i < j < |projects| :: projects[i].name != projects[j].name
  }

  /** A poll result: only enabled projects report, and every entry belongs to a
      reported identity. */
  ghost predicate PollResult(latest: Status, projects: seq<Project>) {
    && ReportedKeys(latest.projects) <= EnabledKeys(projects)
    && (forall e | e in latest.candidates || e in latest.filtered :: e.Id() in ReportedKeys(latest.projects))
  }

  ghost predicate Proper(t: Tick) { UniqueNames(t.projects) && PollResult(t.latest, t.projects) }

  ghost predicate ProperTicks(ticks: seq<Tick>) { forall i | 0 <= i < |ticks| :: Proper(ticks[i]) }

  predicate Polls(t: Tick, key: Key) { key in ReportedKeys(t.latest.projects) }

  predicate Configures(t: Tick, key: Key) { key in EnabledKeys(t.projects) }

  lemma {:induction false} SelectedUnique(projects: seq<Project>, i: nat)
    requires UniqueNames(projects) && i < |projects|
    ensures projects[i].name in SelectedKeys(projects) && SelectedKeys(projects)[projects[i].name] == projects[i].Id()
  {
    var n := |projects| - 1;
    if i < n {
      assert projects[..n][i] == projects[i];
      SelectedUnique(projects[..n], i);
    }
  }

  lemma EnabledIsSelected(projects: seq<Project>, key: Key)
    requires UniqueNames(projects) && key in EnabledKeys(projects)
    ensures key.name in SelectedKeys(projects) && SelectedKeys(projects)[key.name] == key
  {
    var p :| p in projects && !p.disabled && p.Id() == key;
    var i :| 0 <= i < |projects| && projects[i] == p;
    SelectedUnique(projects, i);
  }

  lemma {:induction false} NoIssuesUnlessKeyed(entries: seq<Entry>, key: Key)
    requires forall e | e in entries :: e.Id() != key
    ensures IssuesOf(entries, key) == []
  {
    if entries != [] {
      assert entries[0] in entries;
      assert forall e | e in entries[1..] :: e in entries;
      NoIssuesUnlessKeyed(entries[1..], key);
    }
  }

  /** One tick: a polled identity holds what this tick found, a configured one
      keeps what it held, and any other holds nothing. */
  lemma PublishHeld(s: Status, t: Tick, key: Key)
    requires Proper(t)
    ensures Polls(t, key) ==> Configures(t, key)
    ensures Held(Publish(s, t), key) ==
            if Polls(t, key) then Held(t.latest, key)
            else if Configures(t, key) then Held(s, key)
            else multiset{}
  {
    assert Publish(s, t) == Suppress(MergeTick(s, t), t.hides);
    hide Publish, Suppress, MergeTick, Held, Polls, Configures;
    SuppressKeepsHeld(MergeTick(s, t), t.hides, key);
    MergeHeld(s, t, key);
  }

  lemma MergeHeld(s: Status, t: Tick, key: Key)
    requires Proper(t)
    ensures Polls(t, key) ==> Configures(t, key)
    ensures Held(MergeTick(s, t), key) ==
            if Polls(t, key) then Held(t.latest, key)
            else if Configures(t, key) then Held(s, key)
            else multiset{}
  {
    hide Merge, SelectedKeys, IssuesOf;
    var polled, configured, selected := ReportedKeys(t.latest.projects), EnabledKeys(t.projects), SelectedKeys(t.projects);
    MergeBands(s, t.latest, polled, configured, selected, key);
    if key !in polled {
      NoIssuesUnlessKeyed(t.latest.candidates, key);
      NoIssuesUnlessKeyed(t.latest.filtered, key);
    }
    if key in configured {
      EnabledIsSelected(t.projects, key);
    }
  }

  lemma LastTickHeld(ticks: seq<Tick>, key: Key)
    requires ProperTicks(ticks) && |ticks| > 0
    ensures ProperTicks(ticks[..|ticks| - 1])
    ensures var last := ticks[|ticks| - 1];
      Held(PublishAll(ticks), key) ==
        if Polls(last, key) then Held(last.latest, key)
        else if Configures(last, key) then Held(PublishAll(ticks[..|ticks| - 1]), key)
        else multiset{}
    ensures Polls(ticks[|ticks| - 1], key) ==> Configures(ticks[|ticks| - 1], key)
  {
    hide Publish, Held, Polls, Configures, Proper;
    var n := |ticks| - 1;
    assert Proper(ticks[n]);
    PublishHeld(PublishAll(ticks[..n]), ticks[n], key);
  }

  /** Over any sequence of ticks: the status holds, for an identity, exactly what
      the latest tick that polled it found, as long as it stayed configured. */
  lemma {:induction false} HeldThroughTicks(ticks: seq<Tick>, key: Key, i: nat)
    requires ProperTicks(ticks) && i < |ticks|
    requires Polls(ticks[i], key)
    requires forall j | i < j < |ticks| :: !Polls(ticks[j], key) && Configures(ticks[j], key)
    ensures Held(PublishAll(ticks), key) == Held(ticks[i].latest, key)
    decreases |ticks|
  {
    hide *;
    var n := |ticks| - 1;
    var before := ticks[..n];
    LastTickHeld(ticks, key);
    if i < n {
      assert before[i] == ticks[i];
      HeldThroughTicks(before, key, i);
    }
  }

  /** An identity that was removed or disabled and not polled since holds nothing. */
  lemma {:induction false} NothingHeldThroughTicks(ticks: seq<Tick>, key: Key, i: nat)
    requires ProperTicks(ticks) && i < |ticks|
    requires !Configures(ticks[i], key)
    requires forall j | i < j < |ticks| :: !Polls(ticks[j], key)
    ensures Held(PublishAll(ticks), key) == multiset{}
    decreases |ticks|
  {
    hide *;
    var n := |ticks| - 1;
    var before := ticks[..n];
    LastTickHeld(ticks, key);
    if i < n {
      assert before[i] == ticks[i];
      NothingHeldThroughTicks(before, key, i);
    }
  }

  // ---------- Reports ----------

  /** What a report says besides its counts' split. */
  datatype Summary = Summary(ok: bool, error: Option<string>, fetched: nat)

  function Summaries(reports: seq<Report>, key: Key): seq<Summary> {
    if reports == [] then []
    else
      (if reports[0].Id() == key then [Summary(reports[0].ok, reports[0].error, reports[0].fetched)] else [])
      + Summaries(reports[1..], key)
  }

  lemma {:induction false} SummariesConcat(a: seq<Report>, b: seq<Report>, key: Key)
    ensures Summaries(a + b, key) == Summaries(a, key) + Summaries(b, key)
  {
    if a == [] {
      assert a + b == b;
    } else {
      assert (a + b)[1..] == a[1..] + b;
      SummariesConcat(a[1..], b, key);
    }
  }

  lemma {:induction false} SummariesCarried(reports: seq<Report>, polled: set<Key>, configured: set<Key>, key: Key)
    ensures Summaries(Filter(reports, Carries(polled, configured)), key) ==
            if Carried(key, polled, configured) then Summaries(reports, key) else []
  {
    if reports != [] {
      var rest := Filter(reports[1..], Carries(polled, configured));
      SummariesCarried(reports[1..], polled, configured, key);
      assert ([reports[0]] + rest)[1..] == rest && [] + rest == rest;
    }
  }

  lemma {:induction false} SummariesAdjusted(reports: seq<Report>, suppressed: seq<Entry>, key: Key)
    ensures Summaries(AdjustAll(reports, suppressed), key) == Summaries(reports, key)
  {
    if reports != [] {
      SummariesAdjusted(reports[1..], suppressed, key);
      var head, rest := Adjust(reports[0], suppressed), AdjustAll(reports[1..], suppressed);
      assert ([head] + rest)[1..] == rest;
    }
  }

  lemma {:induction false} NoSummaryUnlessKeyed(reports: seq<Report>, key: Key)
    requires key !in ReportedKeys(reports)
    ensures Summaries(reports, key) == []
  {
    if reports != [] {
      assert reports[0] in reports;
      assert ReportedKeys(reports[1..]) <= ReportedKeys(reports) by {
        assert forall r | r in reports[1..] :: r in reports;
      }
      NoSummaryUnlessKeyed(reports[1..], key);
    }
  }

  /** One tick, for every configuration: a polled identity has this tick's
      reports, a configured one keeps its own, and any other has none. */
  lemma PublishReports(s: Status, t: Tick, key: Key)
    ensures Summaries(Publish(s, t).projects, key) ==
            if Polls(t, key) then Summaries(t.latest.projects, key)
            else if Configures(t, key) then Summaries(s.projects, key)
            else []
  {
    var polled, configured := ReportedKeys(t.latest.projects), EnabledKeys(t.projects);
    var merged := MergeTick(s, t);
    SummariesCarried(s.projects, polled, configured, key);
    SummariesConcat(Filter(s.projects, Carries(polled, configured)), t.latest.projects, key);
    SummariesAdjusted(merged.projects, MarkAll(Filter(merged.candidates, t.hides)), key);
    if key !in polled { NoSummaryUnlessKeyed(t.latest.projects, key); }
    hide Filter, Summaries, AdjustAll, MarkAll, SelectedKeys;
  }

  /** Over any sequence of ticks and configurations, the reports of an identity are
      those of the latest tick that polled it, as long as it stayed configured. */
  lemma {:induction false} ReportsThroughTicks(ticks: seq<Tick>, key: Key, i: nat)
    requires i < |ticks| && Polls(ticks[i], key)
    requires forall j | i < j < |ticks| :: !Polls(ticks[j], key) && Configures(ticks[j], key)
    ensures Summaries(PublishAll(ticks).projects, key) == Summaries(ticks[i].latest.projects, key)
    decreases |ticks|
  {
    hide Polls, Configures, Publish, Summaries;
    var n := |ticks| - 1;
    var before := ticks[..n];
    PublishReports(PublishAll(before), ticks[n], key);
    if i < n {
      assert before[i] == ticks[i];
      ReportsThroughTicks(before, key, i);
    }
  }

  /** Every report's error is in the shared list. */
  predicate ErrorsListed(s: Status) {
    forall r | r in s.projects && r.error.Some? :: r.error.value in s.errors
  }

  lemma {:induction false} ErrorsOfMembers(reports: seq<Report>, r: Report)
    requires r in reports && r.error.Some?
    ensures r.error.value in ErrorsOf(reports)
  {
    if r == reports[0] {
    } else {
      ErrorsOfMembers(reports[1..], r);
    }
  }

  /** An error of a project that is backing off survives the ticks that do not
      poll it, however many others succeed. */
  lemma {:induction false} ErrorsSurvive(ticks: seq<Tick>)
    requires forall i | 0 <= i < |ticks| :: ErrorsListed(ticks[i].latest)
    ensures ErrorsListed(PublishAll(ticks))
    decreases |ticks|
  {
    if ticks != [] {
      var n := |ticks| - 1;
      ErrorsSurvive(ticks[..n]);
      MergeKeepsErrors(PublishAll(ticks[..n]), ticks[n]);
      SuppressKeepsErrors(MergeTick(PublishAll(ticks[..n]), ticks[n]), ticks[n].hides);
      hide MergeTick, Suppress, ErrorsListed;
    }
  }

  lemma MergeKeepsErrors(s: Status, t: Tick)
    requires ErrorsListed(t.latest)
    ensures ErrorsListed(MergeTick(s, t))
  {
    var merged := MergeTick(s, t);
    var carried := Filter(s.projects, Carries(ReportedKeys(t.latest.projects), EnabledKeys(t.projects)));
    forall r | r in merged.projects && r.error.Some? ensures r.error.value in merged.errors {
      if r in carried { ErrorsOfMembers(carried, r); }
    }
  }

  lemma SuppressKeepsErrors(s: Status, hides: Entry -> bool)
    requires ErrorsListed(s)
    ensures ErrorsListed(Suppress(s, hides))
  {
    var t := Suppress(s, hides);
    forall r | r in t.projects && r.error.Some? ensures r.error.value in t.errors {
      var i :| 0 <= i < |t.projects| && t.projects[i] == r;
      assert s.projects[i] in s.projects && s.projects[i].error == r.error;
    }
  }

  // ---------- Counts ----------

  predicate ReportSound(r: Report) { r.fetched == r.candidates + r.filtered }

  predicate AllSound(s: Status) { forall r | r in s.projects :: ReportSound(r) }

  /** Fetched equals candidate plus filtered in every report that publishing can
      produce, duplicate declarations included. */
  lemma PublishKeepsSound(s: Status, t: Tick)
    requires AllSound(s) && AllSound(t.latest)
    ensures AllSound(Publish(s, t))
  {
    var polled, configured := ReportedKeys(t.latest.projects), EnabledKeys(t.projects);
    FilterMembers(s.projects, Carries(polled, configured));
    var merged := Merge(s, t.latest, polled, configured, SelectedKeys(t.projects));
    forall r | r in merged.projects ensures ReportSound(r) {}
    var published := Publish(s, t).projects;
    forall r | r in published ensures ReportSound(r) {
      var i :| 0 <= i < |published| && published[i] == r;
      assert merged.projects[i] in merged.projects;
    }
  }

  lemma {:induction false} SoundThroughTicks(ticks: seq<Tick>)
    requires forall i | 0 <= i < |ticks| :: AllSound(ticks[i].latest)
    ensures AllSound(PublishAll(ticks))
    decreases |ticks|
  {
    if ticks != [] {
      var n := |ticks| - 1;
      SoundThroughTicks(ticks[..n]);
      PublishKeepsSound(PublishAll(ticks[..n]), ticks[n]);
    }
  }

  /** A report's candidate count is the number of its candidates in the list. */
  predicate CountsMatch(s: Status) {
    forall r | r in s.projects :: r.candidates == Count(s.candidates, r)
  }

  lemma SuppressKeepsCounts(s: Status, hides: Entry -> bool)
    requires CountsMatch(s)
    ensures CountsMatch(Suppress(s, hides))
  {
    var hidden := Filter(s.candidates, hides);
    var t := Suppress(s, hides);
    forall r | r in t.projects ensures r.candidates == Count(t.candidates, r) {
      var i :| 0 <= i < |t.projects| && t.projects[i] == r;
      var before := s.projects[i];
      assert before in s.projects;
      assert r == Adjust(before, MarkAll(hidden)) && r.Id() == before.Id();
      FilterSplits(s.candidates, hides, before.Id());
      MarkedIssues(hidden, before.Id());
      MultisetSizes(IssuesOf(hidden, before.Id()), IssuesOf(t.candidates, before.Id()), IssuesOf(s.candidates, before.Id()));
    }
  }

  lemma MultisetSizes<T>(a: seq<T>, b: seq<T>, c: seq<T>)
    requires multiset(a) + multiset(b) == multiset(c)
    ensures |a| + |b| == |c|
  {
    assert |multiset(a)| == |a| && |multiset(b)| == |b| && |multiset(c)| == |c|;
    assert |multiset(a) + multiset(b)| == |multiset(a)| + |multiset(b)|;
  }

  lemma MergeKeepsCounts(s: Status, t: Tick)
    requires UniqueNames(t.projects) && PollResult(t.latest, t.projects)
    requires CountsMatch(s) && CountsMatch(t.latest)
    ensures CountsMatch(Merge(s, t.latest, ReportedKeys(t.latest.projects), EnabledKeys(t.projects), SelectedKeys(t.projects)))
  {
    var polled, configured, selected := ReportedKeys(t.latest.projects), EnabledKeys(t.projects), SelectedKeys(t.projects);
    var merged := Merge(s, t.latest, polled, configured, selected);
    FilterMembers(s.projects, Carries(polled, configured));
    forall r | r in merged.projects ensures r.candidates == Count(merged.candidates, r) {
      var key := r.Id();
      MergeBands(s, t.latest, polled, configured, selected, key);
      if r in t.latest.projects {
        assert key in polled;
        EnabledIsSelected(t.projects, key);
      } else {
        EnabledIsSelected(t.projects, key);
        NoIssuesUnlessKeyed(t.latest.candidates, key);
      }
    }
  }

  /** With unique names, every published report counts exactly its candidates in
      the shared list, after any sequence of ticks. */
  lemma {:induction false} CountsThroughTicks(ticks: seq<Tick>)
    requires ProperTicks(ticks)
    requires forall i | 0 <= i < |ticks| :: CountsMatch(ticks[i].latest)
    ensures CountsMatch(PublishAll(ticks))
    decreases |ticks|
  {
    if ticks != [] {
      var n := |ticks| - 1;
      CountsThroughTicks(ticks[..n]);
      MergeKeepsCounts(PublishAll(ticks[..n]), ticks[n]);
      var s, t := PublishAll(ticks[..n]), ticks[n];
      SuppressKeepsCounts(Merge(s, t.latest, ReportedKeys(t.latest.projects), EnabledKeys(t.projects), SelectedKeys(t.projects)), t.hides);
    }
  }

  // ---------- Persisted rows ----------

  /** The first entry of each issue number, in order. */
  function FirstByNumber(entries: seq<Entry>): seq<Entry> {
    if entries == [] then []
    else
      var n := |entries| - 1;
      var earlier := FirstByNumber(entries[..n]);
      if entries[n].issue.number in Numbers(entries[..n]) then earlier else earlier + [entries[n]]
  }

  function Numbers(entries: seq<Entry>): set<nat> { set e | e in entries :: e.issue.number }

  /** Every number keeps one row, its first: candidates come first, so a
      candidate wins over a filtered duplicate. */
  lemma {:induction false} FirstByNumberUnique(entries: seq<Entry>)
    ensures Numbers(FirstByNumber(entries)) == Numbers(entries)
    ensures forall i, j | 0 <= i < j < |FirstByNumber(entries)| :: FirstByNumber(entries)[i].issue.number != FirstByNumber(entries)[j].issue.number
    ensures forall k | 0 <= k < |entries| && entries[k].issue.number !in Numbers(entries[..k]) :: entries[k] in FirstByNumber(entries)
  {
    if entries != [] {
      var n := |entries| - 1;
      var prefix := entries[..n];
      var earlier, rows := FirstByNumber(prefix), FirstByNumber(entries);
      assert entries == prefix + [entries[n]];
      assert rows == if entries[n].issue.number in Numbers(prefix) then earlier else earlier + [entries[n]];
      hide FirstByNumber, Numbers;
      FirstByNumberUnique(prefix);
      NumbersGrow(prefix, entries[n]);
      NumbersGrow(earlier, entries[n]);
      forall i | 0 <= i < |earlier| ensures earlier[i].issue.number in Numbers(prefix) {
        NumberOf(earlier, i);
      }
      forall k | 0 <= k < n && entries[k].issue.number !in Numbers(entries[..k]) ensures entries[k] in rows {
        assert prefix[k] == entries[k] && prefix[..k] == entries[..k];
      }
    }
  }

  lemma NumberOf(entries: seq<Entry>, i: nat)
    requires i < |entries|
    ensures entries[i].issue.number in Numbers(entries)
  {
    assert entries[i] in entries;
  }

  lemma NumbersGrow(entries: seq<Entry>, e: Entry)
    ensures Numbers(entries + [e]) == Numbers(entries) + {e.issue.number}
  {
    assert (entries + [e])[|entries|] == e;
    forall m | m in Numbers(entries) ensures m in Numbers(entries + [e]) {
      var f :| f in entries && f.issue.number == m;
      assert f in entries + [e];
    }
  }

  lemma NoRows(all: seq<Entry>)
    ensures Numbers(all[..0]) == {} && FirstByNumber(all[..0]) == []
  {
  }

  lemma RowStep(all: seq<Entry>, n: nat)
    requires n < |all|
    ensures Numbers(all[..n + 1]) == Numbers(all[..n]) + {all[n].issue.number}
    ensures FirstByNumber(all[..n + 1]) ==
            if all[n].issue.number in Numbers(all[..n]) then FirstByNumber(all[..n]) else FirstByNumber(all[..n]) + [all[n]]
  {
    assert all[..n + 1] == all[..n] + [all[n]] && all[..n + 1][..n] == all[..n];
    NumbersGrow(all[..n], all[n]);
  }

  /** Drops every row whose issue number was seen before. */
  method SnapshotRows(s: Status, key: Key) returns (rows: seq<Entry>)
    ensures rows == FirstByNumber(Filter(s.candidates, Keyed(key)) + Filter(s.filtered, Keyed(key)))
  {
    var all := Filter(s.candidates, Keyed(key)) + Filter(s.filtered, Keyed(key));
    var seen: set<nat> := {};
    rows := [];
    hide Filter, Keyed, FirstByNumber, Numbers;
    assert seen == Numbers(all[..0]) && rows == FirstByNumber(all[..0]) by { NoRows(all); }
    for n := 0 to |all|
      invariant seen == Numbers(all[..n]) && rows == FirstByNumber(all[..n])
    {
      RowStep(all, n);
      if all[n].issue.number in seen {
        continue;
      }
      seen := seen + {all[n].issue.number};
      rows := rows + [all[n]];
    }
    assert all[..|all|] == all;
  }

  function Keyed(key: Key): Entry -> bool { (e: Entry) => e.Id() == key }

  // ---------- Polling ----------

  datatype Assessed = Assessed(issue: Issue, reasons: seq<string>)

  /** What asking for one project's issues yields. */
  datatype Outcome = Failed(error: string) | Listed(issues: seq<Assessed>)

  function CandidateEntries(p: Project, issues: seq<Assessed>): seq<Entry> {
    if issues == [] then []
    else (if issues[0].reasons == [] then [Entry(p.name, p.repository, issues[0].issue, [])] else []) + CandidateEntries(p, issues[1..])
  }

  function FilteredEntries(p: Project, issues: seq<Assessed>): seq<Entry> {
    if issues == [] then []
    else (if issues[0].reasons == [] then [] else [Entry(p.name, p.repository, issues[0].issue, issues[0].reasons)])
         + FilteredEntries(p, issues[1..])
  }

  function PollOne(s: Status, p: Project, outcome: Outcome): Status {
    match outcome
    case Failed(error) =>
      s.(errors := s.errors + [error], projects := s.projects + [Report(p.name, p.repository, false, Some(error), 0, 0, 0)])
    case Listed(issues) =>
      var candidates, filtered := CandidateEntries(p, issues), FilteredEntries(p, issues);
      Status(s.candidates + candidates, s.errors, s.filtered + filtered,
             s.projects + [Report(p.name, p.repository, true, None, |issues|, |candidates|, |filtered|)])
  }

  lemma {:induction false} EntriesOfProject(p: Project, issues: seq<Assessed>)
    ensures |CandidateEntries(p, issues)| + |FilteredEntries(p, issues)| == |issues|
    ensures forall e | e in CandidateEntries(p, issues) || e in FilteredEntries(p, issues) :: e.Id() == p.Id()
  {
    if issues != [] { EntriesOfProject(p, issues[1..]); }
  }

  lemma {:induction false} AllIssuesKeyed(entries: seq<Entry>, key: Key)
    requires forall e | e in entries :: e.Id() == key
    ensures |IssuesOf(entries, key)| == |entries|
  {
    if entries != [] {
      assert entries[0] in entries;
      assert forall e | e in entries[1..] :: e in entries;
      AllIssuesKeyed(entries[1..], key);
    }
  }

  /** What a poll under way satisfies: `seen` are the enabled projects passed so
      far. */
  ghost predicate PollInvariant(s: Status, seen: seq<Project>) {
    && PollResult(s, seen)
    && AllSound(s)
    && ErrorsListed(s)
    && (UniqueNames(seen) ==> CountsMatch(s))
  }

  lemma PollOneResult(s: Status, seen: seq<Project>, p: Project, outcome: Outcome)
    requires PollResult(s, seen) && !p.disabled
    ensures PollResult(PollOne(s, p, outcome), seen + [p])
  {
    var t := PollOne(s, p, outcome);
    var r := t.projects[|t.projects| - 1];
    if outcome.Listed? { EntriesOfProject(p, outcome.issues); }
    assert t.projects == s.projects + [r] && r.Id() == p.Id();
    assert r in t.projects && p in seen + [p];
    forall key | key in ReportedKeys(t.projects) ensures key in EnabledKeys(seen + [p]) {
      if key != p.Id() {
        assert key in ReportedKeys(s.projects) && key in EnabledKeys(seen);
        var q :| q in seen && !q.disabled && q.Id() == key;
        assert q in seen + [p];
      }
    }
    forall e | e in t.candidates || e in t.filtered ensures e.Id() in ReportedKeys(t.projects) {
      if e in s.candidates || e in s.filtered {
        var q :| q in s.projects && q.Id() == e.Id();
        assert q in t.projects;
      }
    }
  }

  lemma PollOneCounts(s: Status, seen: seq<Project>, p: Project, outcome: Outcome)
    requires PollResult(s, seen) && CountsMatch(s) && UniqueNames(seen + [p])
    ensures CountsMatch(PollOne(s, p, outcome))
  {
    var t := PollOne(s, p, outcome);
    var key := p.Id();
    forall q | q in seen ensures q.name != p.name {
      var i :| 0 <= i < |seen| && seen[i] == q;
      assert (seen + [p])[i] == q && (seen + [p])[|seen|] == p;
    }
    assert key !in EnabledKeys(seen);
    NoIssuesUnlessKeyed(s.candidates, key);
    var added := if outcome.Listed? then CandidateEntries(p, outcome.issues) else [];
    if outcome.Listed? { EntriesOfProject(p, outcome.issues); }
    assert t.candidates == s.candidates + added;
    forall r | r in t.projects ensures r.candidates == Count(t.candidates, r) {
      IssuesConcat(s.candidates, added, r.Id());
      if r in s.projects {
        assert r.Id() in ReportedKeys(s.projects) && r.Id() != key;
        NoIssuesUnlessKeyed(added, r.Id());
      } else {
        assert r.Id() == key;
        AllIssuesKeyed(added, key);
      }
    }
  }

  lemma PollOneKeeps(s: Status, seen: seq<Project>, p: Project, outcome: Outcome)
    requires PollInvariant(s, seen) && !p.disabled
    ensures PollInvariant(PollOne(s, p, outcome), seen + [p])
  {
    PollOneResult(s, seen, p, outcome);
    if outcome.Listed? { EntriesOfProject(p, outcome.issues); }
    assert AllSound(PollOne(s, p, outcome));
    if UniqueNames(seen + [p]) {
      assert UniqueNames(seen) by {
        assert forall i | 0 <= i < |seen| :: (seen + [p])[i] == seen[i];
      }
      PollOneCounts(s, seen, p, outcome);
    }
  }

  lemma SkipKeeps(s: Status, seen: seq<Project>, p: Project)
    requires PollInvariant(s, seen)
    ensures PollInvariant(s, seen + [p])
  {
    forall key | key in EnabledKeys(seen) ensures key in EnabledKeys(seen + [p]) {
      var q :| q in seen && !q.disabled && q.Id() == key;
      assert q in seen + [p];
    }
    assert UniqueNames(seen + [p]) ==> UniqueNames(seen) by {
      assert forall i | 0 <= i < |seen| :: (seen + [p])[i] == seen[i];
    }
  }

  // ---------- Rate limits ----------

  predicate OccursAt(text: string, pattern: string, i: nat) {
    i + |pattern| <= |text| && Lower(text[i..i + |pattern|]) == pattern
  }

  predicate ContainsIgnoreCase(text: string, pattern: string) {
    exists i: nat | i <= |text| :: OccursAt(text, pattern, i)
  }

  /** GitHub's primary and secondary limits, recognized by message. */
  predicate IsRateLimitError(message: string) {
    ContainsIgnoreCase(message, "rate limit") || ContainsIgnoreCase(message, "abuse detection")
  }

  predicate RateLimited(outcome: Outcome) { outcome.Failed? && IsRateLimitError(outcome.error) }

  /** Polling project `k` reports a rate limit on credential `token`. */
  predicate LimitsToken(config: seq<Project>, outcomes: nat -> Outcome, k: nat, token: string) {
    k < |config| && config[k].token == Some(token) && RateLimited(outcomes(k))
  }

  /** Project `k` exhausted the credential of project `i`. */
  predicate Exhausts(config: seq<Project>, outcomes: nat -> Outcome, k: nat, i: nat) {
    i < |config| && config[i].token.Some? && LimitsToken(config, outcomes, k, config[i].token.value)
  }

  /** The projects asked among the first `n`: enabled ones in order, none after
      its credential's first rate-limit report, and an enabled one is skipped
      only because of such a report. */
  ghost predicate AskedFairly(config: seq<Project>, outcomes: nat -> Outcome, polled: seq<nat>, n: nat) {
    && n <= |config|
    && (forall k | 0 <= k < |polled| :: polled[k] < n && !config[polled[k]].disabled)
    && (forall i, j | 0 <= i < j < |polled| :: polled[i] < polled[j] && !Exhausts(config, outcomes, polled[i], polled[j]))
    && (forall i: nat | i < n && i !in polled :: config[i].disabled || Exhausted(config, outcomes, polled, i))
  }

  lemma ReportOf(s: Status, p: Project, outcome: Outcome)
    ensures var reports := PollOne(s, p, outcome).projects;
      && |reports| == |s.projects| + 1
      && var last := reports[|reports| - 1];
      && last.name == p.name && last.repository == p.repository
      && ((last.error.Some? && IsRateLimitError(last.error.value)) <==> RateLimited(outcome))
  {
  }

  lemma AskNext(config: seq<Project>, outcomes: nat -> Outcome, n: nat)
    requires n < |config|
    ensures var polled, p := Asked(config, outcomes, n), config[n];
      var limited := Limits(config, outcomes, polled);
      var after := Asked(config, outcomes, n + 1);
      if Skips(p, limited) then after == polled
      else
        && after == polled + [n]
        && PolledStatus(config, outcomes, after) == PollOne(PolledStatus(config, outcomes, polled), p, outcomes(n))
        && Limits(config, outcomes, after) == limited + if p.token.Some? && RateLimited(outcomes(n)) then {p.token.value} else {}
  {
    hide PollOne, Limits;
    var polled := Asked(config, outcomes, n);
    assert (polled + [n])[..|polled|] == polled;
    LimitsGrow(config, outcomes, polled, n);
  }

  /** Asking the listed projects in turn, from the empty status. */
  function PolledStatus(config: seq<Project>, outcomes: nat -> Outcome, polled: seq<nat>): Status
    requires forall m | 0 <= m < |polled| :: polled[m] < |config|
  {
    if polled == [] then EMPTY
    else
      var n := |polled| - 1;
      PollOne(PolledStatus(config, outcomes, polled[..n]), config[polled[n]], outcomes(polled[n]))
  }

  ghost predicate Exhausted(config: seq<Project>, outcomes: nat -> Outcome, polled: seq<nat>, i: nat) {
    exists m :: 0 <= m < |polled| && polled[m] < i && Exhausts(config, outcomes, polled[m], i)
  }

  /** The credentials the polls so far reported as limited. */
  function Limits(config: seq<Project>, outcomes: nat -> Outcome, polled: seq<nat>): set<string> {
    set m | 0 <= m < |polled| && polled[m] < |config| && config[polled[m]].token.Some? && RateLimited(outcomes(polled[m]))
      :: config[polled[m]].token.value
  }

  predicate Skips(p: Project, limited: set<string>) { p.disabled || (p.token.Some? && p.token.value in limited) }

  /** The pass over the first `n` projects. */
  function Asked(config: seq<Project>, outcomes: nat -> Outcome, n: nat): (polled: seq<nat>)
    requires n <= |config|
    ensures forall m | 0 <= m < |polled| :: polled[m] < n
  {
    if n == 0 then []
    else
      var polled := Asked(config, outcomes, n - 1);
      if Skips(config[n - 1], Limits(config, outcomes, polled)) then polled else polled + [n - 1]
  }

  lemma InLimits(config: seq<Project>, outcomes: nat -> Outcome, polled: seq<nat>, token: string)
    ensures token in Limits(config, outcomes, polled) <==> exists m :: 0 <= m < |polled| && LimitsToken(config, outcomes, polled[m], token)
  {
    hide RateLimited;
    if m :| 0 <= m < |polled| && LimitsToken(config, outcomes, polled[m], token) {
      assert config[polled[m]].token.value == token;
    }
  }

  lemma LimitsGrow(config: seq<Project>, outcomes: nat -> Outcome, polled: seq<nat>, n: nat)
    requires n < |config|
    ensures Limits(config, outcomes, polled + [n]) == Limits(config, outcomes, polled) +
              if config[n].token.Some? && RateLimited(outcomes(n)) then {config[n].token.value} else {}
  {
    hide RateLimited, Limits;
    var after := polled + [n];
    assert after[|polled|] == n;
    forall token
      ensures token in Limits(config, outcomes, after) <==>
              (token in Limits(config, outcomes, polled) || LimitsToken(config, outcomes, n, token))
    {
      InLimits(config, outcomes, polled, token);
      InLimits(config, outcomes, after, token);
      if m :| 0 <= m < |polled| && LimitsToken(config, outcomes, polled[m], token) {
        assert after[m] == polled[m];
      }
    }
  }

  /** A credential exhausted by an earlier poll makes the pass skip. */
  lemma ExhaustedSkips(config: seq<Project>, outcomes: nat -> Outcome, polled: seq<nat>, m: nat, n: nat)
    requires m < |polled| && n < |config|
    ensures Exhausts(config, outcomes, polled[m], n) ==> Skips(config[n], Limits(config, outcomes, polled))
  {
    hide RateLimited, Limits;
    if config[n].token.Some? { InLimits(config, outcomes, polled, config[n].token.value); }
  }

  lemma SkipFair(config: seq<Project>, outcomes: nat -> Outcome, polled: seq<nat>, n: nat)
    requires AskedFairly(config, outcomes, polled, n) && n < |config|
    requires Skips(config[n], Limits(config, outcomes, polled))
    ensures AskedFairly(config, outcomes, polled, n + 1)
  {
    hide RateLimited, Limits;
    if !config[n].disabled {
      InLimits(config, outcomes, polled, config[n].token.value);
      var m :| 0 <= m < |polled| && LimitsToken(config, outcomes, polled[m], config[n].token.value);
      assert Exhausts(config, outcomes, polled[m], n);
    }
  }

  lemma StaysExhausted(config: seq<Project>, outcomes: nat -> Outcome, polled: seq<nat>, n: nat, i: nat)
    requires Exhausted(config, outcomes, polled, i)
    ensures Exhausted(config, outcomes, polled + [n], i)
  {
    var m :| 0 <= m < |polled| && polled[m] < i && Exhausts(config, outcomes, polled[m], i);
    assert (polled + [n])[m] == polled[m];
  }

  lemma AskFair(config: seq<Project>, outcomes: nat -> Outcome, polled: seq<nat>, n: nat)
    requires AskedFairly(config, outcomes, polled, n) && n < |config|
    requires !Skips(config[n], Limits(config, outcomes, polled))
    ensures AskedFairly(config, outcomes, polled + [n], n + 1)
  {
    forall m | 0 <= m < |polled| ensures !Exhausts(config, outcomes, polled[m], n) {
      ExhaustedSkips(config, outcomes, polled, m, n);
    }
    hide Exhausts, Limits, Exhausted;
    var after := polled + [n];
    assert after[|polled|] == n;
    forall i: nat | i < n + 1 && i !in after ensures config[i].disabled || Exhausted(config, outcomes, after, i) {
      assert i !in polled && i < n;
      if !config[i].disabled { StaysExhausted(config, outcomes, polled, n, i); }
    }
  }

  lemma SkipsDisabled(p: Project, limited: set<string>)
    ensures p.disabled ==> Skips(p, limited)
  {
  }

  /** Every pass asks fairly ... */
  lemma {:induction false} PassIsFair(config: seq<Project>, outcomes: nat -> Outcome, n: nat)
    requires n <= |config|
    ensures AskedFairly(config, outcomes, Asked(config, outcomes, n), n)
  {
    hide *;
    if n == 0 {
      NothingAsked(config, outcomes);
    } else {
      PassIsFair(config, outcomes, n - 1);
      var polled := Asked(config, outcomes, n - 1);
      AskNext(config, outcomes, n - 1);
      if Skips(config[n - 1], Limits(config, outcomes, polled)) {
        SkipFair(config, outcomes, polled, n - 1);
      } else {
        AskFair(config, outcomes, polled, n - 1);
      }
    }
  }

  lemma NothingAsked(config: seq<Project>, outcomes: nat -> Outcome)
    ensures AskedFairly(config, outcomes, Asked(config, outcomes, 0), 0)
    ensures PollInvariant(PolledStatus(config, outcomes, Asked(config, outcomes, 0)), config[..0])
  {
  }

  /** ... and leaves sound reports that match the lists. */
  lemma {:induction false} PassKeeps(config: seq<Project>, outcomes: nat -> Outcome, n: nat)
    requires n <= |config|
    ensures PollInvariant(PolledStatus(config, outcomes, Asked(config, outcomes, n)), config[..n])
  {
    hide *;
    if n == 0 {
      NothingAsked(config, outcomes);
    } else {
      PassKeeps(config, outcomes, n - 1);
      var polled := Asked(config, outcomes, n - 1);
      var p := config[n - 1];
      var s, limited := PolledStatus(config, outcomes, polled), Limits(config, outcomes, polled);
      AskNext(config, outcomes, n - 1);
      SkipsDisabled(p, limited);
      PrefixStep(config, n);
      if Skips(p, limited) {
        SkipKeeps(s, config[..n - 1], p);
      } else {
        PollOneKeeps(s, config[..n - 1], p, outcomes(n - 1));
      }
    }
  }

  lemma PrefixStep<T>(xs: seq<T>, n: nat)
    requires 0 < n <= |xs|
    ensures xs[..n] == xs[..n - 1] + [xs[n - 1]]
  {
  }

  // ---------- The result of a pass ----------

  /** Inserts behind everything that does not come strictly after `e`. */
  function Insert(e: Entry, sorted: seq<Entry>, precedes: (Entry, Entry) -> bool): seq<Entry> {
    if sorted == [] || precedes(e, sorted[0]) then [e] + sorted
    else [sorted[0]] + Insert(e, sorted[1..], precedes)
  }

  /** The runtime's stable sort; `precedes` says that the comparator is negative. */
  function SortEntries(entries: seq<Entry>, precedes: (Entry, Entry) -> bool): seq<Entry> {
    if entries == [] then []
    else
      var n := |entries| - 1;
      Insert(entries[n], SortEntries(entries[..n], precedes), precedes)
  }

  predicate SortedBy(entries: seq<Entry>, precedes: (Entry, Entry) -> bool) {
    forall i, j | 0 <= i < j < |entries| :: !precedes(entries[j], entries[i])
  }

  /** What a comparator of a total preorder satisfies. */
  ghost predicate Comparator(precedes: (Entry, Entry) -> bool) {
    && (forall a, b :: precedes(a, b) ==> !precedes(b, a))
    && (forall a, b, c :: !precedes(a, b) && !precedes(b, c) ==> !precedes(a, c))
  }

  lemma {:induction false} InsertPermutes(e: Entry, sorted: seq<Entry>, precedes: (Entry, Entry) -> bool, key: Key)
    ensures multiset(Insert(e, sorted, precedes)) == multiset(sorted) + multiset{e}
    ensures multiset(IssuesOf(Insert(e, sorted, precedes), key)) == multiset(IssuesOf([e] + sorted, key))
  {
    InsertStep(e, sorted, precedes);
    hide Insert, IssuesOf, KeyOf;
    if sorted == [] || precedes(e, sorted[0]) {
      assert multiset([e] + sorted) == multiset{e} + multiset(sorted);
    } else {
      var rest := sorted[1..];
      InsertPermutes(e, rest, precedes, key);
      assert sorted == [sorted[0]] + rest;
      SplitOne(sorted[0], Insert(e, rest, precedes), key);
      SplitOne(e, sorted, key);
      SplitOne(e, rest, key);
      SplitOne(sorted[0], rest, key);
    }
  }

  lemma InsertStep(e: Entry, sorted: seq<Entry>, precedes: (Entry, Entry) -> bool)
    ensures Insert(e, sorted, precedes) ==
            if sorted == [] || precedes(e, sorted[0]) then [e] + sorted else [sorted[0]] + Insert(e, sorted[1..], precedes)
  {
  }

  /** Sorting keeps the entries, and so what each identity holds; with a proper
      comparator it puts them in order. */
  lemma {:induction false} SortPermutes(entries: seq<Entry>, precedes: (Entry, Entry) -> bool, key: Key)
    ensures multiset(SortEntries(entries, precedes)) == multiset(entries)
    ensures multiset(IssuesOf(SortEntries(entries, precedes), key)) == multiset(IssuesOf(entries, key))
  {
    if entries != [] {
      var n := |entries| - 1;
      var earlier := SortEntries(entries[..n], precedes);
      assert entries == entries[..n] + [entries[n]];
      SortPermutes(entries[..n], precedes, key);
      InsertPermutes(entries[n], earlier, precedes, key);
      SplitOne(entries[n], earlier, key);
      IssuesConcat(entries[..n], [entries[n]], key);
      SplitOne(entries[n], [], key);
      assert [entries[n]] + [] == [entries[n]];
      IssuesNone(key);
      hide IssuesOf, KeyOf, Insert;
    }
  }

  lemma {:induction false} InsertSorts(e: Entry, sorted: seq<Entry>, precedes: (Entry, Entry) -> bool)
    requires Comparator(precedes) && SortedBy(sorted, precedes)
    ensures SortedBy(Insert(e, sorted, precedes), precedes)
    ensures forall x :: x in Insert(e, sorted, precedes) <==> x == e || x in sorted
  {
    if sorted == [] {
    } else if precedes(e, sorted[0]) {
      forall j | 0 <= j < |sorted| ensures !precedes(sorted[j], e) {
        assert !precedes(sorted[0], e);
        assert j > 0 ==> !precedes(sorted[j], sorted[0]);
      }
    } else {
      InsertSorts(e, sorted[1..], precedes);
      assert sorted == [sorted[0]] + sorted[1..];
      var rest := Insert(e, sorted[1..], precedes);
      forall j | 0 <= j < |rest| ensures !precedes(rest[j], sorted[0]) {
        assert rest[j] in rest;
        if rest[j] in sorted[1..] {
          var i :| 0 <= i < |sorted[1..]| && sorted[1..][i] == rest[j];
          assert sorted[i + 1] == rest[j];
        }
      }
    }
  }

  lemma {:induction false} SortSorts(entries: seq<Entry>, precedes: (Entry, Entry) -> bool)
    requires Comparator(precedes)
    ensures SortedBy(SortEntries(entries, precedes), precedes)
  {
    if entries != [] {
      SortSorts(entries[..|entries| - 1], precedes);
      InsertSorts(entries[|entries| - 1], SortEntries(entries[..|entries| - 1], precedes), precedes);
    }
  }

  function Behind(errors: seq<string>, s: Status): Status { s.(errors := errors + s.errors) }

  lemma BehindPoll(errors: seq<string>, s: Status, p: Project, outcome: Outcome)
    ensures PollOne(Behind(errors, s), p, outcome) == Behind(errors, PollOne(s, p, outcome))
  {
    if outcome.Failed? { assert errors + (s.errors + [outcome.error]) == errors + s.errors + [outcome.error]; }
  }

  /** A pass over `config`: the polls' status behind the configuration's own errors,
      with both lists sorted. */
  function PassResult(config: seq<Project>, outcomes: nat -> Outcome, initialErrors: seq<string>,
                      precedes: (Entry, Entry) -> bool): Status {
    var s := PolledStatus(config, outcomes, Asked(config, outcomes, |config|));
    Sorted(Behind(initialErrors, s), precedes)
  }

  function Sorted(s: Status, precedes: (Entry, Entry) -> bool): Status {
    s.(candidates := SortEntries(s.candidates, precedes), filtered := SortEntries(s.filtered, precedes))
  }

  lemma SameMembers<T>(a: seq<T>, b: seq<T>)
    requires multiset(a) == multiset(b)
    ensures |a| == |b| && forall x :: x in a <==> x in b
  {
    assert |multiset(a)| == |a| && |multiset(b)| == |b|;
    forall x ensures x in a <==> x in b {
      assert x in a <==> x in multiset(a);
      assert x in b <==> x in multiset(b);
    }
  }

  lemma SortKeepsPollResult(s: Status, precedes: (Entry, Entry) -> bool, seen: seq<Project>)
    requires PollResult(s, seen)
    ensures PollResult(Sorted(s, precedes), seen)
  {
    SortPermutes(s.candidates, precedes, Key("", "", ""));
    SortPermutes(s.filtered, precedes, Key("", "", ""));
    hide SortEntries, IssuesOf, ReportedKeys, EnabledKeys;
    SameMembers(SortEntries(s.candidates, precedes), s.candidates);
    SameMembers(SortEntries(s.filtered, precedes), s.filtered);
  }

  lemma SortKeepsCounts(s: Status, precedes: (Entry, Entry) -> bool)
    requires CountsMatch(s)
    ensures CountsMatch(Sorted(s, precedes))
  {
    hide SortEntries, IssuesOf, KeyOf;
    forall r | r in s.projects ensures r.candidates == Count(SortEntries(s.candidates, precedes), r) {
      SortPermutes(s.candidates, precedes, r.Id());
      SameMembers(IssuesOf(SortEntries(s.candidates, precedes), r.Id()), IssuesOf(s.candidates, r.Id()));
    }
  }

  lemma SortKeepsResult(s: Status, initialErrors: seq<string>, precedes: (Entry, Entry) -> bool, seen: seq<Project>)
    requires PollInvariant(s, seen)
    ensures PollInvariant(Sorted(Behind(initialErrors, s), precedes), seen)
  {
    hide SortEntries, IssuesOf, ReportedKeys, EnabledKeys, UniqueNames;
    var behind := Behind(initialErrors, s);
    assert PollResult(behind, seen) && AllSound(Sorted(behind, precedes)) && ErrorsListed(Sorted(behind, precedes));
    SortKeepsPollResult(behind, precedes, seen);
    if CountsMatch(s) {
      assert CountsMatch(behind);
      SortKeepsCounts(behind, precedes);
    }
  }

  // ---------- The daemon's ticks ----------

  /** One tick: the declared projects, which of them the ledger lets through, what
      the configuration load and GitHub answered, the comparator, and which
      candidates a newer run suppresses. */
  datatype DaemonTick = DaemonTick(projects: seq<Project>, pollable: Project -> bool, initialErrors: seq<string>,
                                   outcomes: nat -> Outcome, precedes: (Entry, Entry) -> bool, hides: Entry -> bool)

  /** Only the pollable projects are asked, but the whole list is published against. */
  function TickOf(d: DaemonTick): Tick {
    Tick(PassResult(Filter(d.projects, d.pollable), d.outcomes, d.initialErrors, d.precedes), d.projects, d.hides)
  }

  function TicksOf(ds: seq<DaemonTick>): (ticks: seq<Tick>)
    ensures |ticks| == |ds| && forall i | 0 <= i < |ds| :: ticks[i] == TickOf(ds[i])
  {
    if ds == [] then [] else [TickOf(ds[0])] + TicksOf(ds[1..])
  }

  /** The shared status after these ticks. */
  function StatusAfter(ds: seq<DaemonTick>): Status { PublishAll(TicksOf(ds)) }

  lemma {:induction false} FilterUniqueNames(projects: seq<Project>, pollable: Project -> bool)
    requires UniqueNames(projects)
    ensures UniqueNames(Filter(projects, pollable))
  {
    if projects != [] {
      var rest := Filter(projects[1..], pollable);
      assert forall i, j | 0 <= i < j < |projects[1..]| :: projects[1..][i] == projects[i + 1] && projects[1..][j] == projects[j + 1];
      FilterUniqueNames(projects[1..], pollable);
      FilterMembers(projects[1..], pollable);
      forall j | 0 <= j < |rest| ensures rest[j].name != projects[0].name {
        assert rest[j] in rest;
        var i :| 0 <= i < |projects[1..]| && projects[1..][i] == rest[j];
        assert projects[i + 1] == rest[j];
      }
    }
  }

  lemma ResultLifts(s: Status, config: seq<Project>, projects: seq<Project>)
    requires PollResult(s, config) && forall p | p in config :: p in projects
    ensures PollResult(s, projects)
  {
    forall key | key in EnabledKeys(config) ensures key in EnabledKeys(projects) {
      var p :| p in config && !p.disabled && p.Id() == key;
      assert p in projects;
    }
  }

  /** Whatever the ledger holds back and whatever GitHub answers, a tick's result
      has sound reports with listed errors; with unique names it is proper against
      the whole configuration and its counts match. */
  lemma TickIsProper(d: DaemonTick)
    ensures AllSound(TickOf(d).latest) && ErrorsListed(TickOf(d).latest)
    ensures UniqueNames(d.projects) ==> Proper(TickOf(d)) && CountsMatch(TickOf(d).latest)
  {
    var config := Filter(d.projects, d.pollable);
    var s := PolledStatus(config, d.outcomes, Asked(config, d.outcomes, |config|));
    PassKeeps(config, d.outcomes, |config|);
    assert config[..|config|] == config;
    SortKeepsResult(s, d.initialErrors, d.precedes, config);
    FilterMembers(d.projects, d.pollable);
    ResultLifts(TickOf(d).latest, config, d.projects);
    if UniqueNames(d.projects) { FilterUniqueNames(d.projects, d.pollable); }
    hide PolledStatus, Asked, SortEntries, Filter, PollResult, UniqueNames, CountsMatch, AllSound, ErrorsListed;
  }

  ghost predicate UniqueThroughout(ds: seq<DaemonTick>) {
    forall i | 0 <= i < |ds| :: UniqueNames(ds[i].projects)
  }

  lemma TicksAreProper(ds: seq<DaemonTick>)
    requires UniqueThroughout(ds)
    ensures ProperTicks(TicksOf(ds))
  {
    forall i | 0 <= i < |ds| ensures Proper(TicksOf(ds)[i]) { TickIsProper(ds[i]); }
    hide TickOf, Proper;
  }

  /** Over every sequence of ticks with unique names: an identity holds exactly what
      the latest tick that polled it found, as long as it stayed configured; ticks
      in which its credential backs off, or is exhausted on the way, change
      nothing. */
  lemma HeldSinceLastPoll(ds: seq<DaemonTick>, key: Key, i: nat)
    requires UniqueThroughout(ds) && i < |ds|
    requires Polls(TickOf(ds[i]), key)
    requires forall j | i < j < |ds| :: !Polls(TickOf(ds[j]), key) && Configures(TickOf(ds[j]), key)
    ensures Held(StatusAfter(ds), key) == Held(TickOf(ds[i]).latest, key)
  {
    TicksAreProper(ds);
    hide TickOf, ProperTicks, Polls, Configures, Held;
    HeldThroughTicks(TicksOf(ds), key, i);
  }

  /** An identity that was removed or disabled and not polled since holds nothing. */
  lemma NothingHeldAfterRemoval(ds: seq<DaemonTick>, key: Key, i: nat)
    requires UniqueThroughout(ds) && i < |ds|
    requires !Configures(TickOf(ds[i]), key)
    requires forall j | i < j < |ds| :: !Polls(TickOf(ds[j]), key)
    ensures Held(StatusAfter(ds), key) == multiset{}
  {
    TicksAreProper(ds);
    hide TickOf, ProperTicks, Polls, Configures, Held;
    NothingHeldThroughTicks(TicksOf(ds), key, i);
  }

  /** Over every sequence of ticks, duplicate names included: the reports of an
      identity are those of the latest tick that polled it, as long as it stayed
      configured. */
  lemma ReportsSinceLastPoll(ds: seq<DaemonTick>, key: Key, i: nat)
    requires i < |ds| && Polls(TickOf(ds[i]), key)
    requires forall j | i < j < |ds| :: !Polls(TickOf(ds[j]), key) && Configures(TickOf(ds[j]), key)
    ensures Summaries(StatusAfter(ds).projects, key) == Summaries(TickOf(ds[i]).latest.projects, key)
  {
    hide TickOf, Polls, Configures, Summaries;
    ReportsThroughTicks(TicksOf(ds), key, i);
  }

  /** Every report of every reachable status: fetched is candidate plus filtered. */
  lemma EveryReportSound(ds: seq<DaemonTick>)
    ensures AllSound(StatusAfter(ds))
  {
    forall i | 0 <= i < |ds| ensures AllSound(TicksOf(ds)[i].latest) { TickIsProper(ds[i]); }
    hide TickOf, AllSound;
    SoundThroughTicks(TicksOf(ds));
  }

  /** Every report's error is in the shared list, also while its project backs off. */
  lemma EveryErrorListed(ds: seq<DaemonTick>)
    ensures ErrorsListed(StatusAfter(ds))
  {
    forall i | 0 <= i < |ds| ensures ErrorsListed(TicksOf(ds)[i].latest) { TickIsProper(ds[i]); }
    hide TickOf, ErrorsListed;
    ErrorsSurvive(TicksOf(ds));
  }

  /** With unique names, every report counts exactly its candidates in the shared
      list. */
  lemma CountsAlwaysMatch(ds: seq<DaemonTick>)
    requires UniqueThroughout(ds)
    ensures CountsMatch(StatusAfter(ds))
  {
    TicksAreProper(ds);
    forall i | 0 <= i < |ds| ensures CountsMatch(TicksOf(ds)[i].latest) { TickIsProper(ds[i]); }
    hide TickOf, CountsMatch, ProperTicks;
    CountsThroughTicks(TicksOf(ds));
  }

  /** The shared status object. */
  class IssuePollStatus {
    var candidateIssues: seq<Entry>
    var errors: seq<string>
    var filteredIssues: seq<Entry>
    var projects: seq<Report>

    function Snapshot(): Status
      reads this
    {
      Status(candidateIssues, errors, filteredIssues, projects)
    }

    constructor ()
      ensures Snapshot() == EMPTY
    {
      candidateIssues, errors, filteredIssues, projects := [], [], [], [];
    }

    method Replace(source: Status)
      modifies this
      ensures Snapshot() == source
    {
      candidateIssues, errors, filteredIssues, projects := source.candidates, source.errors, source.filtered, source.projects;
    }

    /** Reports one project; the counters of the source's loop. */
    method PollProject(p: Project, outcome: Outcome)
      modifies this
      ensures Snapshot() == PollOne(old(Snapshot()), p, outcome)
    {
      if outcome.Failed? {
        errors := errors + [outcome.error];
        projects := projects + [Report(p.name, p.repository, false, Some(outcome.error), 0, 0, 0)];
        return;
      }
      var issues := outcome.issues;
      var fetched, candidates, filtered := 0, 0, 0;
      for i := 0 to |issues|
        invariant errors == old(errors) && projects == old(projects)
        invariant candidateIssues + CandidateEntries(p, issues[i..]) == old(candidateIssues) + CandidateEntries(p, issues)
        invariant filteredIssues + FilteredEntries(p, issues[i..]) == old(filteredIssues) + FilteredEntries(p, issues)
        invariant fetched == i
        invariant candidates + |CandidateEntries(p, issues[i..])| == |CandidateEntries(p, issues)|
        invariant filtered + |FilteredEntries(p, issues[i..])| == |FilteredEntries(p, issues)|
      {
        assert issues[i..][1..] == issues[i + 1..];
        fetched := fetched + 1;
        if issues[i].reasons == [] {
          candidates := candidates + 1;
          candidateIssues := candidateIssues + [Entry(p.name, p.repository, issues[i].issue, [])];
          continue;
        }
        filtered := filtered + 1;
        filteredIssues := filteredIssues + [Entry(p.name, p.repository, issues[i].issue, issues[i].reasons)];
      }
      assert issues[|issues|..] == [];
      projects := projects + [Report(p.name, p.repository, true, None, fetched, candidates, filtered)];
    }

    /** One pass over the configuration; once a credential reports a limit,
        nothing more is asked on it. */
    method PollConfigured(config: seq<Project>, outcomes: nat -> Outcome, initialErrors: seq<string>,
                          precedes: (Entry, Entry) -> bool)
      requires Snapshot() == EMPTY
      modifies this
      ensures Snapshot() == PassResult(config, outcomes, initialErrors, precedes)
    {
      errors := initialErrors;
      PollEnabled(config, outcomes, initialErrors);
      candidateIssues := SortEntries(candidateIssues, precedes);
      filteredIssues := SortEntries(filteredIssues, precedes);
    }

    method PollEnabled(config: seq<Project>, outcomes: nat -> Outcome, ghost initialErrors: seq<string>)
      requires Snapshot() == EMPTY.(errors := initialErrors)
      modifies this
      ensures Snapshot() == Behind(initialErrors, PolledStatus(config, outcomes, Asked(config, outcomes, |config|)))
    {
      var limited: set<string> := {};
      for n := 0 to |config|
        invariant limited == Limits(config, outcomes, Asked(config, outcomes, n))
        invariant Snapshot() == Behind(initialErrors, PolledStatus(config, outcomes, Asked(config, outcomes, n)))
      {
        var p := config[n];
        ghost var s, polled := PolledStatus(config, outcomes, Asked(config, outcomes, n)), Asked(config, outcomes, n);
        AskNext(config, outcomes, n);
        if p.disabled {
          continue;
        }
        if p.token.Some? && p.token.value in limited {
          continue;
        }
        BehindPoll(initialErrors, s, p, outcomes(n));
        ReportOf(s, p, outcomes(n));
        PollProject(p, outcomes(n));
        var report := projects[|projects| - 1];
        if p.token.Some? && report.error.Some? && IsRateLimitError(report.error.value) {
          limited := limited + {p.token.value};
        }
      }
    }

    /** Merges a tick into the shared status, then suppresses there and in the
        tick's own result, which is what gets persisted. */
    method PublishTick(t: Tick) returns (persisted: Status)
      modifies this
      ensures Snapshot() == Publish(old(Snapshot()), t)
      ensures persisted == Suppress(t.latest, t.hides)
    {
      var polledKeys := ReportedKeys(t.latest.projects);
      Replace(Merge(Snapshot(), t.latest, polledKeys, EnabledKeys(t.projects), SelectedKeys(t.projects)));
      SuppressResolved(t.hides);
      var latest := new IssuePollStatus();
      latest.Replace(t.latest);
      latest.SuppressResolved(t.hides);
      persisted := latest.Snapshot();
    }

    /** A whole tick: polls what the ledger lets through, publishes against all. */
    method RunTick(d: DaemonTick)
      modifies this
      ensures Snapshot() == Publish(old(Snapshot()), TickOf(d))
    {
      var next := new IssuePollStatus();
      next.PollConfigured(Filter(d.projects, d.pollable), d.outcomes, d.initialErrors, d.precedes);
      var _ := PublishTick(Tick(next.Snapshot(), d.projects, d.hides));
    }

    method SuppressResolved(hides: Entry -> bool)
      modifies this
      ensures Snapshot() == Suppress(old(Snapshot()), hides)
    {
      var surviving := Filter(candidateIssues, Not(hides));
      var suppressed := MarkAll(Filter(candidateIssues, hides));
      candidateIssues := surviving;
      filteredIssues := filteredIssues + suppressed;
      projects := AdjustAll(projects, suppressed);
    }
  }
}
