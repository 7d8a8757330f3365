/** The GitHub rate-limit ledger: `src/github-backoff-ledger.ts`, with
    `rateLimitedTokens` and `backoffUntil` of `src/issue-polling.ts`. */
module BackoffLedger {
  import opened Wrappers
  import opened Strings
  import PollStatus

  /** The length of a window, in milliseconds. */
  const WINDOW: int := 300000

  // ---------- The ledger as a function of its history ----------

  /** What a caller does to the ledger, at the time its clock reads. */
  datatype Event = Engaged(time: int, tokens: set<string>) | Asked(time: int, token: string)

  predicate Active(untils: map<string, int>, token: string, now: int) {
    token in untils && now < untils[token]
  }

  /** Engaging opens a window for every token; asking drops a window that is over. */
  function Step(untils: map<string, int>, e: Event): map<string, int> {
    match e
    case Engaged(time, tokens) =>
      map token | token in untils.Keys + tokens :: if token in tokens then time + WINDOW else untils[token]
    case Asked(time, token) =>
      if token in untils && time >= untils[token] then untils - {token} else untils
  }

  function After(history: seq<Event>): map<string, int> {
    if history == [] then map[] else Step(After(history[..|history| - 1]), history[|history| - 1])
  }

  /** The clock never steps back: no event is later than its successors or `now`. */
  ghost predicate ClockOrdered(history: seq<Event>, now: int) {
    && (forall i, j | 0 <= i <= j < |history| :: history[i].time <= history[j].time)
    && (forall i | 0 <= i < |history| :: history[i].time <= now)
  }

  predicate Covers(e: Event, token: string, now: int) {
    e.Engaged? && token in e.tokens && now < e.time + WINDOW
  }

  /** Some engagement of the token happened within the last window. */
  ghost predicate EngagedRecently(history: seq<Event>, token: string, now: int) {
    exists i :: 0 <= i < |history| && Covers(history[i], token, now)
  }

  /** Event `e` gives the token a window, or looks at a window ending at `until`
      that is over. */
  predicate Displaces(e: Event, token: string, until: int) {
    match e
    case Engaged(_, tokens) => token in tokens
    case Asked(time, asked) => asked == token && until <= time
  }

  /** Engagement `i` set a window ending at `until`, and nothing displaced it since. */
  ghost predicate LastWord(history: seq<Event>, token: string, until: int, i: nat) {
    && i < |history| && history[i].Engaged? && token in history[i].tokens && until == history[i].time + WINDOW
    && forall j | i < j < |history| :: !Displaces(history[j], token, until)
  }

  /** The whole table, for every history and every clock: a window ending at
      `until` is on record exactly when some engagement set it and since then the
      token was neither engaged again nor asked for at `until` or later. */
  lemma {:induction false} WindowExact(history: seq<Event>, token: string, until: int)
    ensures token in After(history) && After(history)[token] == until <==> exists i: nat :: LastWord(history, token, until, i)
    decreases |history|
  {
    if history != [] {
      var n := |history| - 1;
      var earlier := history[..n];
      WindowExact(earlier, token, until);
      forall i: nat | i < n
        ensures LastWord(history, token, until, i) <==> LastWord(earlier, token, until, i) && !Displaces(history[n], token, until)
      {
        assert earlier[i] == history[i] && forall j | i < j < n :: earlier[j] == history[j];
      }
      hide Displaces;
      LastStep(history, token, until);
    }
  }

  lemma LastStep(history: seq<Event>, token: string, until: int)
    requires history != []
    ensures var n := |history| - 1;
      var before := After(history[..n]);
      token in After(history) && After(history)[token] == until <==>
      LastWord(history, token, until, n) ||
      (token in before && before[token] == until && !Displaces(history[n], token, until))
  {
  }

  /** So, whatever the clock does: a credential is refused exactly when the last
      engagement not yet displaced ends later than now. */
  lemma RefusedExactly(history: seq<Event>, token: string, now: int)
    ensures Active(After(history), token, now) <==>
            exists until: int, i: nat :: LastWord(history, token, until, i) && now < until
  {
    if Active(After(history), token, now) {
      WindowExact(history, token, After(history)[token]);
    }
    if until: int, i: nat :| LastWord(history, token, until, i) && now < until {
      WindowExact(history, token, until);
    }
  }

  /** With a clock that never steps back, whatever displaced an engagement still
      within its window was a later engagement, whose window ends no earlier. */
  lemma {:induction false} LatestStands(history: seq<Event>, token: string, now: int, i: nat)
    requires ClockOrdered(history, now) && i < |history| && Covers(history[i], token, now)
    ensures exists k: nat | k < |history| :: LastWord(history, token, history[k].time + WINDOW, k) && now < history[k].time + WINDOW
    decreases |history| - i
  {
    if j :| i < j < |history| && Displaces(history[j], token, history[i].time + WINDOW) {
      LatestStands(history, token, now, j);
    } else {
      assert LastWord(history, token, history[i].time + WINDOW, i);
    }
  }

  /** A credential is refused exactly when it was engaged within the last
      window, whatever else happened: with a clock that never steps back, asking,
      expiry and other credentials' limits neither shorten nor lengthen it. */
  lemma RefusedIffEngagedRecently(history: seq<Event>, token: string, now: int)
    requires ClockOrdered(history, now)
    ensures Active(After(history), token, now) <==> EngagedRecently(history, token, now)
  {
    RefusedExactly(history, token, now);
    if i :| 0 <= i < |history| && Covers(history[i], token, now) {
      LatestStands(history, token, now, i);
    }
    if until: int, i: nat :| LastWord(history, token, until, i) && now < until {
      assert Covers(history[i], token, now);
    }
  }

  /** For every clock, the two ways to differ from the rule "engaged within the last
      window": an engagement still within it was displaced by one read from an
      earlier clock, or by a question at a later one; refusal itself always rests
      on an engagement within it. */
  lemma ClockMattersExactly(history: seq<Event>, token: string, now: int)
    ensures Active(After(history), token, now) ==> EngagedRecently(history, token, now)
    ensures EngagedRecently(history, token, now) && !Active(After(history), token, now) <==>
            EngagedRecently(history, token, now) &&
            forall i: nat | i < |history| && Covers(history[i], token, now) ::
              exists j :: i < j < |history| && Displaces(history[j], token, history[i].time + WINDOW)
  {
    RefusedExactly(history, token, now);
    if until: int, i: nat :| LastWord(history, token, until, i) && now < until {
      assert Covers(history[i], token, now);
    }
    if i: nat :| i < |history| && Covers(history[i], token, now) &&
                 !exists j :: i < j < |history| && Displaces(history[j], token, history[i].time + WINDOW) {
      assert LastWord(history, token, history[i].time + WINDOW, i);
    }
  }

  /** The clock order is needed: engaged at 1000 and again at 0, a credential is
      free at 300500, before the first window is over. */
  lemma SteppingBackShortens(token: string)
    ensures var history := [Engaged(1000, {token}), Engaged(0, {token})];
      EngagedRecently(history, token, 300500) && !Active(After(history), token, 300500)
  {
    var history := [Engaged(1000, {token}), Engaged(0, {token})];
    assert Covers(history[0], token, 300500);
    assert Displaces(history[1], token, 301000);
    assert !Covers(history[1], token, 300500);
    ClockMattersExactly(history, token, 300500);
  }

  /** An engagement read from a clock that was ahead refuses for longer: at 0, one
      read at 1000000 still has more than three windows to go. */
  lemma ReadAheadLengthens(token: string)
    ensures Active(After([Engaged(1000000, {token})]), token, 0)
    ensures Active(After([Engaged(1000000, {token})]), token, 3 * WINDOW)
  {
    var history := [Engaged(1000000, {token})];
    assert LastWord(history, token, 1000000 + WINDOW, 0);
    RefusedExactly(history, token, 0);
    RefusedExactly(history, token, 3 * WINDOW);
  }

  /** And a question asked while the clock was ahead ends a window for good. */
  lemma AskingAheadShortens(token: string)
    ensures var history := [Engaged(0, {token}), Asked(400000, token)];
      EngagedRecently(history, token, 1000) && !Active(After(history), token, 1000)
  {
    var history := [Engaged(0, {token}), Asked(400000, token)];
    assert Covers(history[0], token, 1000);
    assert Displaces(history[1], token, 300000);
    ClockMattersExactly(history, token, 1000);
  }

  // ---------- Rate-limited credentials ----------

  predicate ReportsLimit(r: PollStatus.Report) {
    r.error.Some? && PollStatus.IsRateLimitError(r.error.value)
  }

  predicate LimitReported(reports: seq<PollStatus.Report>, key: PollStatus.Key) {
    exists i :: 0 <= i < |reports| && reports[i].Id() == key && ReportsLimit(reports[i])
  }

  /** Every resolved token declared for an identity that reported a limit. */
  ghost function LimitedTokens(reports: seq<PollStatus.Report>, declared: seq<PollStatus.Project>): set<string> {
    set p | p in declared && p.token.Some? && LimitReported(reports, p.Id()) :: p.token.value
  }

  ghost function TokensOf(declared: seq<PollStatus.Project>, key: PollStatus.Key): set<string> {
    set p | p in declared && p.token.Some? && p.Id() == key :: p.token.value
  }

  function Declarations(declared: seq<PollStatus.Project>, key: PollStatus.Key): seq<PollStatus.Project> {
    if declared == [] then []
    else
      var n := |declared| - 1;
      Declarations(declared[..n], key) + if declared[n].Id() == key then [declared[n]] else []
  }

  lemma {:induction false} DeclarationsExact(declared: seq<PollStatus.Project>, key: PollStatus.Key)
    ensures forall p :: p in Declarations(declared, key) <==> p in declared && p.Id() == key
  {
    if declared != [] {
      var n := |declared| - 1;
      DeclarationsExact(declared[..n], key);
      assert declared == declared[..n] + [declared[n]];
    }
  }

  /** A message that spells one of GitHub's two limits somewhere, in any case. */
  ghost predicate SpeaksOfLimit(message: string) {
    exists before, words, after ::
      message == before + words + after && (Lower(words) == "rate limit" || Lower(words) == "abuse detection")
  }

  lemma SpelledSomewhere(message: string, pattern: string)
    ensures PollStatus.ContainsIgnoreCase(message, pattern) <==>
              exists before, words, after :: message == before + words + after && Lower(words) == pattern
  {
    if PollStatus.ContainsIgnoreCase(message, pattern) {
      var i: nat :| i <= |message| && PollStatus.OccursAt(message, pattern, i);
      var before, words, after := message[..i], message[i..i + |pattern|], message[i + |pattern|..];
      assert message == before + words + after && Lower(words) == pattern;
    }
    if before, words, after :| message == before + words + after && Lower(words) == pattern {
      LowerSize(words);
      assert message[|before|..|before| + |words|] == words;
      assert PollStatus.OccursAt(message, pattern, |before|);
    }
  }

  lemma {:induction false} LowerSize(s: string)
    ensures |Lower(s)| == |s|
  {
    if s != "" { LowerSize(s[1..]); }
  }

  /** What engages a credential: a report of a project it is declared for, by name
      and repository in any case, whose error speaks of a limit.  No other error
      does. */
  lemma LimitedExactly(reports: seq<PollStatus.Report>, declared: seq<PollStatus.Project>, token: string)
    ensures token in LimitedTokens(reports, declared) <==>
              exists r, p :: r in reports && p in declared && p.token == Some(token) && Concerns(r, p)
                && r.error.Some? && SpeaksOfLimit(r.error.value)
  {
    forall message ensures PollStatus.IsRateLimitError(message) <==> SpeaksOfLimit(message) {
      SpelledSomewhere(message, "rate limit");
      SpelledSomewhere(message, "abuse detection");
      hide PollStatus.ContainsIgnoreCase;
    }
    hide PollStatus.IsRateLimitError, SpeaksOfLimit;
    if token in LimitedTokens(reports, declared) {
      var p :| p in declared && p.token.Some? && LimitReported(reports, p.Id()) && p.token.value == token;
      var i :| 0 <= i < |reports| && reports[i].Id() == p.Id() && ReportsLimit(reports[i]);
      assert reports[i] in reports && Concerns(reports[i], p);
    }
    if r, p :| r in reports && p in declared && p.token == Some(token) && Concerns(r, p) && r.error.Some? && SpeaksOfLimit(r.error.value) {
      var i :| 0 <= i < |reports| && reports[i] == r;
      assert reports[i].Id() == p.Id() && ReportsLimit(reports[i]);
      assert LimitReported(reports, p.Id());
    }
  }

  predicate Concerns(r: PollStatus.Report, p: PollStatus.Project) {
    && r.name == p.name
    && Lower(r.repository.owner) == Lower(p.repository.owner) && Lower(r.repository.repo) == Lower(p.repository.repo)
  }

  lemma LimitedTokensStep(reports: seq<PollStatus.Report>, declared: seq<PollStatus.Project>, n: nat)
    requires n < |reports|
    ensures LimitedTokens(reports[..n + 1], declared) == LimitedTokens(reports[..n], declared) +
              if ReportsLimit(reports[n]) then TokensOf(declared, reports[n].Id()) else {}
  {
    hide ReportsLimit;
    var before, after := reports[..n], reports[..n + 1];
    forall key
      ensures LimitReported(after, key) <==> LimitReported(before, key) || (reports[n].Id() == key && ReportsLimit(reports[n]))
    {
      assert forall i | 0 <= i < n :: after[i] == before[i];
      assert after[n] == reports[n];
      if i :| 0 <= i < n && before[i].Id() == key && ReportsLimit(before[i]) {
        assert after[i].Id() == key;
      }
    }
  }

  method RateLimitedTokens(reports: seq<PollStatus.Report>, declared: seq<PollStatus.Project>) returns (tokens: set<string>)
    ensures tokens == LimitedTokens(reports, declared)
  {
    var byIdentity: map<PollStatus.Key, seq<PollStatus.Project>> := map[];
    for n := 0 to |declared|
      invariant forall key :: Declarations(declared[..n], key) == if key in byIdentity then byIdentity[key] else []
    {
      assert declared[..n + 1] == declared[..n] + [declared[n]] && declared[..n + 1][..n] == declared[..n];
      var key := declared[n].Id();
      var declarations := if key in byIdentity then byIdentity[key] else [];
      byIdentity := byIdentity[key := declarations + [declared[n]]];
    }
    assert declared[..|declared|] == declared;
    tokens := {};
    assert LimitedTokens(reports[..0], declared) == {};
    for n := 0 to |reports|
      invariant tokens == LimitedTokens(reports[..n], declared)
    {
      LimitedTokensStep(reports, declared, n);
      if !ReportsLimit(reports[n]) {
        continue;
      }
      var key := reports[n].Id();
      DeclarationsExact(declared, key);
      if key !in byIdentity {
        assert Declarations(declared, key) == [];
        continue;
      }
      var added := CollectTokens(byIdentity[key]);
      tokens := tokens + added;
    }
    assert reports[..|reports|] == reports;
  }

  method CollectTokens(projects: seq<PollStatus.Project>) returns (tokens: set<string>)
    ensures tokens == set p | p in projects && p.token.Some? :: p.token.value
  {
    tokens := {};
    for n := 0 to |projects|
      invariant tokens == set p | p in projects[..n] && p.token.Some? :: p.token.value
    {
      assert projects[..n + 1] == projects[..n] + [projects[n]];
      if projects[n].token.Some? {
        tokens := tokens + {projects[n].token.value};
      }
    }
    assert projects[..|projects|] == projects;
  }

  // ---------- The ledger ----------

  predicate PollableAt(untils: map<string, int>, p: PollStatus.Project, now: int) {
    p.token.None? || !Active(untils, p.token.value, now)
  }

  function Pollability(untils: map<string, int>, now: int): PollStatus.Project -> bool {
    (p: PollStatus.Project) => PollableAt(untils, p, now)
  }

  /** The projects a tick at `now` asks: what `PollStatus.TickOf` takes. */
  function Pollables(untils: map<string, int>, projects: seq<PollStatus.Project>, now: int): seq<PollStatus.Project> {
    PollStatus.Filter(projects, Pollability(untils, now))
  }

  /** Which projects a tick asks, whatever the clock does: those without a resolved
      token, and those whose last engagement not displaced since is over. */
  lemma PollableExactly(history: seq<Event>, projects: seq<PollStatus.Project>, p: PollStatus.Project, now: int)
    ensures p in Pollables(After(history), projects, now) <==>
              p in projects &&
              (p.token.None? || forall until: int, i: nat :: LastWord(history, p.token.value, until, i) ==> until <= now)
  {
    PollStatus.FilterMembers(projects, Pollability(After(history), now));
    if p.token.Some? { RefusedExactly(history, p.token.value, now); }
    hide PollStatus.Filter, LastWord, After;
  }

  /** With a clock that never steps back: those without a token, and those whose
      token was not engaged within the last window. */
  lemma PollableUnlessRecent(history: seq<Event>, projects: seq<PollStatus.Project>, p: PollStatus.Project, now: int)
    requires ClockOrdered(history, now)
    ensures p in Pollables(After(history), projects, now) <==>
              p in projects &&
              (p.token.None? ||
               forall i | 0 <= i < |history| && history[i].Engaged? && p.token.value in history[i].tokens :: history[i].time + 300000 <= now)
  {
    PollStatus.FilterMembers(projects, Pollability(After(history), now));
    if p.token.Some? {
      RefusedIffEngagedRecently(history, p.token.value, now);
      assert EngagedRecently(history, p.token.value, now) <==>
        exists i :: 0 <= i < |history| && history[i].Engaged? && p.token.value in history[i].tokens && now < history[i].time + 300000;
    }
    hide PollStatus.Filter, After;
  }

  /** The questions a batch asks, in order. */
  function Questions(projects: seq<PollStatus.Project>, now: int): seq<Event> {
    if projects == [] then []
    else
      var n := |projects| - 1;
      Questions(projects[..n], now) + if projects[n].token.Some? then [Asked(now, projects[n].token.value)] else []
  }

  lemma {:induction false} PollablesGrow(untils: map<string, int>, projects: seq<PollStatus.Project>, p: PollStatus.Project, now: int)
    ensures Pollables(untils, projects + [p], now) == Pollables(untils, projects, now) + if PollableAt(untils, p, now) then [p] else []
  {
    if projects == [] {
      assert (projects + [p])[1..] == [];
    } else {
      assert (projects + [p])[1..] == projects[1..] + [p];
      PollablesGrow(untils, projects[1..], p, now);
    }
  }

  /** Two tables answer alike from `now` on. */
  ghost predicate Alike(a: map<string, int>, b: map<string, int>, now: int) {
    forall token :: Active(a, token, now) == Active(b, token, now)
  }

  /** The tokens without a window running. */
  ghost function FreshlyLimited(untils: map<string, int>, tokens: set<string>, now: int): set<string> {
    set token | token in tokens && !Active(untils, token, now)
  }

  lemma EngageNone(untils: map<string, int>, now: int)
    ensures Step(untils, Engaged(now, {})) == untils && FreshlyLimited(untils, {}, now) == {}
  {
  }

  lemma EngageOne(untils: map<string, int>, done: set<string>, token: string, now: int)
    requires token !in done
    ensures var midway := Step(untils, Engaged(now, done));
      && midway[token := now + WINDOW] == Step(untils, Engaged(now, done + {token}))
      && (Active(midway, token, now) <==> Active(untils, token, now))
    ensures FreshlyLimited(untils, done + {token}, now) ==
            FreshlyLimited(untils, done, now) + if Active(untils, token, now) then {} else {token}
  {
  }

  class GithubBackoffLedger {
    var untilByToken: map<string, int>
    ghost var history: seq<Event>

    ghost predicate Valid()
      reads this
    {
      untilByToken == After(history)
    }

    constructor ()
      ensures Valid() && history == []
    {
      untilByToken := map[];
      history := [];
    }

    method IsActive(now: int, token: string) returns (active: bool)
      requires Valid()
      modifies this
      ensures Valid() && history == old(history) + [Asked(now, token)]
      ensures active == Active(old(untilByToken), token, now)
      ensures Alike(untilByToken, old(untilByToken), now)
    {
      active := false;
      history := history + [Asked(now, token)];
      assert history[..|history| - 1] == old(history);
      if token !in untilByToken {
        return;
      }
      if now >= untilByToken[token] {
        untilByToken := untilByToken - {token};
        return;
      }
      active := true;
    }

    /** A project whose token does not resolve is always pollable. */
    method IsPollable(p: PollStatus.Project, now: int) returns (pollable: bool)
      requires Valid()
      modifies this
      ensures Valid() && history == old(history) + if p.token.Some? then [Asked(now, p.token.value)] else []
      ensures pollable == PollableAt(old(untilByToken), p, now)
      ensures Alike(untilByToken, old(untilByToken), now)
    {
      pollable := true;
      assert history == history + [];
      if p.token.Some? {
        var active := IsActive(now, p.token.value);
        pollable := !active;
      }
    }

    /** A batch is judged at one instant, project by project, in order. */
    method Pollable(projects: seq<PollStatus.Project>, now: int) returns (pollable: seq<PollStatus.Project>)
      requires Valid()
      modifies this
      ensures Valid() && history == old(history) + Questions(projects, now)
      ensures pollable == Pollables(old(untilByToken), projects, now)
      ensures Alike(untilByToken, old(untilByToken), now)
    {
      pollable := [];
      for n := 0 to |projects|
        invariant Valid() && history == old(history) + Questions(projects[..n], now)
        invariant pollable == Pollables(old(untilByToken), projects[..n], now)
        invariant Alike(untilByToken, old(untilByToken), now)
      {
        assert projects[..n + 1] == projects[..n] + [projects[n]] && projects[..n + 1][..n] == projects[..n];
        PollablesGrow(old(untilByToken), projects[..n], projects[n], now);
        var keep := IsPollable(projects[n], now);
        if keep {
          pollable := pollable + [projects[n]];
        }
      }
      assert projects[..|projects|] == projects;
    }

    /** Opens a window for every limited credential; `warned` are those that had
        none running.  A window that is over needs no deletion first, because it
        is overwritten. */
    method Engage(reports: seq<PollStatus.Report>, polled: seq<PollStatus.Project>, now: int) returns (warned: set<string>)
      requires Valid()
      modifies this
      ensures Valid() && history == old(history) + [Engaged(now, LimitedTokens(reports, polled))]
      ensures warned == FreshlyLimited(old(untilByToken), LimitedTokens(reports, polled), now)
    {
      var tokens := RateLimitedTokens(reports, polled);
      warned := OpenWindows(tokens, now);
      history := history + [Engaged(now, tokens)];
      assert history[..|history| - 1] == old(history);
    }

    method OpenWindows(tokens: set<string>, now: int) returns (warned: set<string>)
      modifies this`untilByToken
      ensures untilByToken == Step(old(untilByToken), Engaged(now, tokens))
      ensures warned == FreshlyLimited(old(untilByToken), tokens, now)
    {
      ghost var was := untilByToken;
      EngageNone(was, now);
      hide *;
      warned := {};
      var rest := tokens;
      ghost var done: set<string> := {};
      while rest != {}
        invariant done !! rest && done + rest == tokens
        invariant untilByToken == Step(was, Engaged(now, done))
        invariant warned == FreshlyLimited(was, done, now)
        decreases |rest|
      {
        var token :| token in rest;
        EngageOne(was, done, token, now);
        var wasActive := Active(untilByToken, token, now);
        untilByToken := untilByToken[token := now + WINDOW];
        if !wasActive {
          warned := warned + {token};
        }
        done, rest := done + {token}, rest - {token};
      }
      assert done == tokens;
    }
  }
}
