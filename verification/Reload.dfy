/** Routine declarations across configuration reloads: `src/reload.ts`.

    Reading the YAML and the declaration files is a parameter of each reload; the
    model starts where their outcome is known. */
module Reload {
  import opened Wrappers
  import Template = ProviderTemplate

  // ---------- Declarations ----------

  datatype Declaration = Declaration(name: string, sourcePath: string, git: bool, provider: Option<string>, values: Template.Values)

  /** A routine aimed at one of its target projects. */
  datatype Targeted = Targeted(d: Declaration, target: string)

  /** What loading one declaration file yields; a broken one may still reveal a name. */
  datatype Loaded = Good(d: Declaration) | Broken(partialName: Option<string>)

  datatype Entry = Entry(targets: seq<string>, path: string)

  datatype Invalid = Invalid(name: Option<string>, path: string, target: string)

  datatype Duplicate = Duplicate(name: string, first: string, second: string)

  /** What one reload reads from: the files, and the routines attached before. */
  datatype Sources = Sources(loads: string -> Loaded, previous: map<string, Declaration>)

  ghost predicate Sound(s: Sources) {
    && (forall path :: s.loads(path).Good? ==> s.loads(path).d.sourcePath == path)
    && (forall path | path in s.previous :: s.previous[path].sourcePath == path)
  }

  /** The declaration an entry offers: its file's, or the one its path had before. */
  function Offer(e: Entry, s: Sources): Option<Declaration> {
    match s.loads(e.path)
    case Good(d) => Some(d)
    case Broken(_) => if e.path in s.previous then Some(s.previous[e.path]) else None
  }

  /** The name an entry reserves. */
  function Claim(e: Entry, s: Sources): Option<string> {
    match Offer(e, s)
    case Some(d) => Some(d.name)
    case None => s.loads(e.path).partialName
  }

  /** Each reserved name, with the path of the first entry that claims it. */
  function Claims(entries: seq<Entry>, s: Sources): map<string, string> {
    if entries == [] then map[]
    else
      var n := |entries| - 1;
      var earlier, claim := Claims(entries[..n], s), Claim(entries[n], s);
      if claim.None? || claim.value in earlier then earlier else earlier[claim.value := entries[n].path]
  }

  function Retarget(d: Declaration, targets: seq<string>): seq<Targeted> {
    if targets == [] then [] else [Targeted(d, targets[0])] + Retarget(d, targets[1..])
  }

  function InvalidFor(name: Option<string>, path: string, targets: seq<string>): seq<Invalid> {
    if targets == [] then [] else [Invalid(name, path, targets[0])] + InvalidFor(name, path, targets[1..])
  }

  function Routines(entries: seq<Entry>, s: Sources): seq<Targeted> {
    if entries == [] then []
    else
      var n := |entries| - 1;
      var offer := Offer(entries[n], s);
      Routines(entries[..n], s) +
      if offer.Some? && offer.value.name !in Claims(entries[..n], s) then Retarget(offer.value, entries[n].targets) else []
  }

  function InvalidNew(entries: seq<Entry>, s: Sources): seq<Invalid> {
    if entries == [] then []
    else
      var n := |entries| - 1;
      InvalidNew(entries[..n], s) +
      if Offer(entries[n], s).None? then InvalidFor(s.loads(entries[n].path).partialName, entries[n].path, entries[n].targets) else []
  }

  function Duplicates(entries: seq<Entry>, s: Sources): seq<Duplicate> {
    if entries == [] then []
    else
      var n := |entries| - 1;
      var earlier, claim := Claims(entries[..n], s), Claim(entries[n], s);
      Duplicates(entries[..n], s) +
      if claim.Some? && claim.value in earlier then [Duplicate(claim.value, earlier[claim.value], entries[n].path)] else []
  }

  /** The last routine attached for each path. */
  function PreviousBySource(routines: seq<Targeted>): map<string, Declaration> {
    if routines == [] then map[]
    else
      var n := |routines| - 1;
      PreviousBySource(routines[..n])[routines[n].d.sourcePath := routines[n].d]
  }

  method ReadRoutineDeclarations(entries: seq<Entry>, previousRoutines: seq<Targeted>, loads: string -> Loaded)
    returns (routines: seq<Targeted>, invalidNew: seq<Invalid>, duplicates: seq<Duplicate>)
    requires Sound(Sources(loads, PreviousBySource(previousRoutines)))
    ensures var s := Sources(loads, PreviousBySource(previousRoutines));
      routines == Routines(entries, s) && invalidNew == InvalidNew(entries, s) && duplicates == Duplicates(entries, s)
  {
    routines, invalidNew, duplicates := [], [], [];
    var seenNames: map<string, string> := map[];
    var previousBySourcePath := PreviousBySource(previousRoutines);
    ghost var s := Sources(loads, previousBySourcePath);
    for n := 0 to |entries|
      invariant seenNames == Claims(entries[..n], s)
      invariant routines == Routines(entries[..n], s)
      invariant invalidNew == InvalidNew(entries[..n], s)
      invariant duplicates == Duplicates(entries[..n], s)
    {
      var entry := entries[n];
      assert entries[..n + 1][..n] == entries[..n] && entries[..n + 1][n] == entry;
      var result := loads(entry.path);
      if result.Broken? {
        if entry.path in previousBySourcePath {
          // A broken file keeps its path's previous declaration, and its name.
          var previous := previousBySourcePath[entry.path];
          if previous.name in seenNames {
            duplicates := duplicates + [Duplicate(previous.name, seenNames[previous.name], previous.sourcePath)];
          } else {
            seenNames := seenNames[previous.name := previous.sourcePath];
            routines := routines + Retarget(previous, entry.targets);
          }
        } else {
          if result.partialName.Some? {
            var partialName := result.partialName.value;
            if partialName in seenNames {
              duplicates := duplicates + [Duplicate(partialName, seenNames[partialName], entry.path)];
            } else {
              seenNames := seenNames[partialName := entry.path];
            }
          }
          invalidNew := invalidNew + InvalidFor(result.partialName, entry.path, entry.targets);
        }
        continue;
      }
      var routine := result.d;
      if routine.name in seenNames {
        duplicates := duplicates + [Duplicate(routine.name, seenNames[routine.name], routine.sourcePath)];
        continue;
      }
      seenNames := seenNames[routine.name := routine.sourcePath];
      routines := routines + Retarget(routine, entry.targets);
    }
    assert entries[..|entries|] == entries;
  }

  // ---------- One entry per name ----------

  /** Entry `i` is the first to claim this name. */
  ghost predicate FirstClaim(entries: seq<Entry>, s: Sources, i: nat, name: string) {
    && i < |entries| && Claim(entries[i], s) == Some(name)
    && forall j | 0 <= j < i :: Claim(entries[j], s) != Some(name)
  }

  /** Entry `i` backs this routine: it offers it and is the first to claim its name. */
  ghost predicate Backs(entries: seq<Entry>, s: Sources, i: nat, r: Targeted) {
    && FirstClaim(entries, s, i, r.d.name)
    && Offer(entries[i], s) == Some(r.d) && r.target in entries[i].targets
  }

  lemma {:induction false} ClaimsExact(entries: seq<Entry>, s: Sources, name: string)
    ensures name in Claims(entries, s) <==> exists j :: 0 <= j < |entries| && Claim(entries[j], s) == Some(name)
  {
    if entries != [] {
      var n := |entries| - 1;
      ClaimsExact(entries[..n], s, name);
      if j :| 0 <= j < n && Claim(entries[..n][j], s) == Some(name) {
        assert Claim(entries[j], s) == Some(name);
      }
    }
  }

  lemma {:induction false} RetargetMembers(d: Declaration, targets: seq<string>, r: Targeted)
    ensures r in Retarget(d, targets) <==> r.d == d && r.target in targets
  {
    if targets != [] { RetargetMembers(d, targets[1..], r); }
  }

  ghost predicate Backed(entries: seq<Entry>, s: Sources, r: Targeted) {
    exists i: nat | i < |entries| :: Backs(entries, s, i, r)
  }

  /** A routine is accepted exactly when some listed entry backs it. */
  lemma {:induction false} RoutinesBacked(entries: seq<Entry>, s: Sources, r: Targeted)
    ensures r in Routines(entries, s) <==> Backed(entries, s, r)
  {
    if entries != [] {
      RoutinesBacked(entries[..|entries| - 1], s, r);
      LastBacked(entries, s, r);
      BackedPrefix(entries, s, r);
      hide *;
    }
  }

  lemma BackedPrefix(entries: seq<Entry>, s: Sources, r: Targeted)
    requires entries != []
    ensures var n := |entries| - 1;
      Backed(entries, s, r) <==> Backed(entries[..n], s, r) || Backs(entries, s, n, r)
  {
    hide Backs;
    var n := |entries| - 1;
    forall i: nat | i < n ensures Backs(entries[..n], s, i, r) <==> Backs(entries, s, i, r) {
      BacksPrefix(entries, s, i, r);
    }
  }

  lemma LastBacked(entries: seq<Entry>, s: Sources, r: Targeted)
    requires entries != []
    ensures var n := |entries| - 1;
      r in Routines(entries, s) <==> r in Routines(entries[..n], s) || Backs(entries, s, n, r)
  {
    var n := |entries| - 1;
    var before, e := entries[..n], entries[n];
    ClaimsExact(before, s, r.d.name);
    if Offer(e, s).Some? { RetargetMembers(Offer(e, s).value, e.targets, r); }
    assert forall j | 0 <= j < n :: before[j] == entries[j];
    hide Claims;
  }

  lemma BacksPrefix(entries: seq<Entry>, s: Sources, i: nat, r: Targeted)
    requires i < |entries| - 1
    ensures Backs(entries[..|entries| - 1], s, i, r) <==> Backs(entries, s, i, r)
  {
    var before := entries[..|entries| - 1];
    assert forall j | 0 <= j <= i :: before[j] == entries[j];
    hide Claim, Offer;
  }

  /** Routines that share a name, or a path, are backed by one and the same listed
      entry, which no other entry can replace, and are one declaration. */
  lemma OneEntryPerName(entries: seq<Entry>, s: Sources, a: Targeted, b: Targeted, i: nat, k: nat)
    requires Sound(s) && Backs(entries, s, i, a) && Backs(entries, s, k, b)
    requires a.d.name == b.d.name || a.d.sourcePath == b.d.sourcePath
    ensures i == k && a.d == b.d && a.d.sourcePath == entries[i].path
  {
    OfferPath(entries[i], s);
    OfferPath(entries[k], s);
    SamePathSameOffer(entries[i], entries[k], s);
    assert a.d.name == b.d.name;
    hide *;
    BackerUnique(entries, s, i, k, a, b);
  }

  lemma BackerUnique(entries: seq<Entry>, s: Sources, i: nat, k: nat, a: Targeted, b: Targeted)
    requires Backs(entries, s, i, a) && Backs(entries, s, k, b) && a.d.name == b.d.name
    ensures i == k && a.d == b.d
  {
    assert i < |entries| && k < |entries|;
  }

  lemma OfferPath(e: Entry, s: Sources)
    requires Sound(s)
    ensures Offer(e, s).Some? ==> Offer(e, s).value.sourcePath == e.path
  {
  }

  lemma SamePathSameOffer(e: Entry, f: Entry, s: Sources)
    ensures e.path == f.path ==> Offer(e, s) == Offer(f, s)
  {
  }

  // ---------- Attaching ----------

  /** A loaded project, with what the attach pass assigns to it. */
  datatype Host = Host(name: string, routineHost: bool, tracked: bool, provider: string,
                       routines: seq<Targeted>, trackerless: seq<Targeted>, templateRejected: seq<Targeted>, invalidNames: seq<string>)

  predicate Bare(h: Host) { h.routines == [] && h.trackerless == [] && h.templateRejected == [] && h.invalidNames == [] }

  datatype Placement = Attached | Trackerless | TemplateRejected

  /** A provided model or effort must occur in the provider's command, if it has
      one; a git routine needs a tracker. */
  function Place(h: Host, d: Declaration, commands: map<string, string>): Placement {
    if h.routineHost && !h.tracked && d.git then Trackerless
    else
      var provider := if d.provider.Some? then d.provider.value else h.provider;
      if provider !in commands then Attached
      else
        match Template.Parse(commands[provider])
        case Err(_) => TemplateRejected
        case Ok(nodes) =>
          if Template.UnreferencedFields(Template.Referenced(nodes), d.values) == [] then Attached else TemplateRejected
  }

  function Aimed(routines: seq<Targeted>, name: string): seq<Targeted> {
    if routines == [] then []
    else
      var n := |routines| - 1;
      Aimed(routines[..n], name) + if routines[n].target == name then [routines[n]] else []
  }

  function Placed(group: seq<Targeted>, h: Host, commands: map<string, string>, placement: Placement): seq<Targeted> {
    if group == [] then []
    else
      var n := |group| - 1;
      Placed(group[..n], h, commands, placement) + if Place(h, group[n].d, commands) == placement then [group[n]] else []
  }

  function InvalidNamesOf(invalid: seq<Invalid>, name: string): seq<string> {
    if invalid == [] then []
    else
      var n := |invalid| - 1;
      InvalidNamesOf(invalid[..n], name) +
      if invalid[n].target == name && invalid[n].name.Some? then [invalid[n].name.value] else []
  }

  function Occurrences(hosts: seq<Host>, name: string): nat {
    if hosts == [] then 0
    else
      var n := |hosts| - 1;
      Occurrences(hosts[..n], name) + if hosts[n].name == name then 1 else 0
  }

  /** A host after the pass; a name declared twice hosts nothing. */
  function Hosted(h: Host, hosts: seq<Host>, routines: seq<Targeted>, invalid: seq<Invalid>, commands: map<string, string>): Host {
    if Occurrences(hosts, h.name) != 1 then h
    else
      var group := Aimed(routines, h.name);
      h.(routines := Placed(group, h, commands, Attached), trackerless := Placed(group, h, commands, Trackerless),
         templateRejected := Placed(group, h, commands, TemplateRejected), invalidNames := InvalidNamesOf(invalid, h.name))
  }

  /** The routines whose target is not declared exactly once. */
  function Homeless(routines: seq<Targeted>, hosts: seq<Host>): seq<Targeted> {
    if routines == [] then []
    else
      var n := |routines| - 1;
      Homeless(routines[..n], hosts) + if Occurrences(hosts, routines[n].target) != 1 then [routines[n]] else []
  }

  lemma {:induction false} PlacedSplit(group: seq<Targeted>, h: Host, commands: map<string, string>)
    ensures multiset(Placed(group, h, commands, Attached)) + multiset(Placed(group, h, commands, Trackerless))
            + multiset(Placed(group, h, commands, TemplateRejected)) == multiset(group)
  {
    hide Place, Placed;
    if group == [] {
      PlacedNone(h, commands);
    } else {
      var n := |group| - 1;
      PlacedSplit(group[..n], h, commands);
      PlacedLast(group, h, commands, Attached);
      PlacedLast(group, h, commands, Trackerless);
      PlacedLast(group, h, commands, TemplateRejected);
      assert group == group[..n] + [group[n]];
      assert multiset(group) == multiset(group[..n]) + multiset{group[n]};
    }
  }

  lemma PlacedNone(h: Host, commands: map<string, string>)
    ensures forall placement :: Placed([], h, commands, placement) == []
  {
  }

  lemma PlacedLast(group: seq<Targeted>, h: Host, commands: map<string, string>, placement: Placement)
    requires group != []
    ensures var n := |group| - 1;
      multiset(Placed(group, h, commands, placement)) ==
      multiset(Placed(group[..n], h, commands, placement)) +
        if Place(h, group[n].d, commands) == placement then multiset{group[n]} else multiset{}
  {
    hide Place;
  }

  lemma AimedLast(routines: seq<Targeted>, r: Targeted, name: string)
    ensures Aimed(routines + [r], name) == Aimed(routines, name) + if r.target == name then [r] else []
  {
    assert (routines + [r])[..|routines|] == routines;
  }

  lemma {:induction false} HomelessAimed(routines: seq<Targeted>, hosts: seq<Host>, name: string)
    ensures Aimed(Homeless(routines, hosts), name) == if Occurrences(hosts, name) == 1 then [] else Aimed(routines, name)
  {
    if routines != [] {
      var n := |routines| - 1;
      var r := routines[n];
      HomelessAimed(routines[..n], hosts, name);
      AimedLast(Homeless(routines[..n], hosts), r, name);
      assert Aimed(routines, name) == Aimed(routines[..n], name) + if r.target == name then [r] else [];
      if Occurrences(hosts, r.target) != 1 {
        assert Homeless(routines, hosts) == Homeless(routines[..n], hosts) + [r];
      } else {
        assert Homeless(routines, hosts) == Homeless(routines[..n], hosts);
      }
    }
  }

  /** The attach pass puts every routine aimed at a name in exactly one place, as
      often as it is listed: with the single project of that name, in one of its
      three lists, or else with the target errors. */
  lemma EveryPairPlacedOnce(hosts: seq<Host>, i: nat, routines: seq<Targeted>, invalid: seq<Invalid>, commands: map<string, string>)
    requires i < |hosts| && Bare(hosts[i])
    ensures var h := Hosted(hosts[i], hosts, routines, invalid, commands);
      multiset(h.routines) + multiset(h.trackerless) + multiset(h.templateRejected)
        + multiset(Aimed(Homeless(routines, hosts), h.name)) == multiset(Aimed(routines, h.name))
  {
    PlacedSplit(Aimed(routines, hosts[i].name), hosts[i], commands);
    HomelessAimed(routines, hosts, hosts[i].name);
  }

  method GroupByTarget(routines: seq<Targeted>) returns (groups: map<string, seq<Targeted>>)
    ensures forall name :: Aimed(routines, name) == if name in groups then groups[name] else []
  {
    groups := map[];
    for n := 0 to |routines|
      invariant forall name :: Aimed(routines[..n], name) == if name in groups then groups[name] else []
    {
      assert routines[..n + 1][..n] == routines[..n];
      var target := routines[n].target;
      var list := if target in groups then groups[target] else [];
      groups := groups[target := list + [routines[n]]];
    }
    assert routines[..|routines|] == routines;
  }

  method GroupInvalidNames(invalid: seq<Invalid>) returns (names: map<string, seq<string>>)
    ensures forall name :: InvalidNamesOf(invalid, name) == if name in names then names[name] else []
  {
    names := map[];
    for n := 0 to |invalid|
      invariant forall name :: InvalidNamesOf(invalid[..n], name) == if name in names then names[name] else []
    {
      assert invalid[..n + 1][..n] == invalid[..n];
      if invalid[n].name.None? {
        continue;
      }
      var target := invalid[n].target;
      var list := if target in names then names[target] else [];
      names := names[target := list + [invalid[n].name.value]];
    }
    assert invalid[..|invalid|] == invalid;
  }

  /** Sorts one project's routines into its three lists. */
  method PlaceRoutines(group: seq<Targeted>, h: Host, commands: map<string, string>)
    returns (attached: seq<Targeted>, trackerless: seq<Targeted>, rejected: seq<Targeted>)
    ensures attached == Placed(group, h, commands, Attached)
    ensures trackerless == Placed(group, h, commands, Trackerless)
    ensures rejected == Placed(group, h, commands, TemplateRejected)
  {
    attached, trackerless, rejected := [], [], [];
    for n := 0 to |group|
      invariant attached == Placed(group[..n], h, commands, Attached)
      invariant trackerless == Placed(group[..n], h, commands, Trackerless)
      invariant rejected == Placed(group[..n], h, commands, TemplateRejected)
    {
      assert group[..n + 1][..n] == group[..n];
      var placement := Decide(h, group[n].d, commands);
      match placement {
        case Attached => attached := attached + [group[n]];
        case Trackerless => trackerless := trackerless + [group[n]];
        case TemplateRejected => rejected := rejected + [group[n]];
      }
    }
    assert group[..|group|] == group;
  }

  method Decide(h: Host, d: Declaration, commands: map<string, string>) returns (placement: Placement)
    ensures placement == Place(h, d, commands)
  {
    if h.routineHost && !h.tracked && d.git {
      return Trackerless;
    }
    var provider := if d.provider.Some? then d.provider.value else h.provider;
    if provider in commands {
      var rendering := Template.RenderProviderCommandTemplate(commands[provider], d.values);
      if rendering.Err? || rendering.value.unreferencedFields != [] {
        return TemplateRejected;
      }
    }
    return Attached;
  }

  lemma {:induction false} AimedConcat(a: seq<Targeted>, b: seq<Targeted>, name: string)
    ensures Aimed(a + b, name) == Aimed(a, name) + Aimed(b, name)
  {
    if b == [] {
      assert a + b == a;
    } else {
      var n := |b| - 1;
      assert (a + b)[..|a + b| - 1] == a + b[..n];
      AimedConcat(a, b[..n], name);
    }
  }

  lemma {:induction false} AimedOfAimed(routines: seq<Targeted>, name: string, other: string)
    ensures Aimed(Aimed(routines, name), other) == if other == name then Aimed(routines, name) else []
  {
    if routines != [] {
      var n := |routines| - 1;
      AimedOfAimed(routines[..n], name, other);
      AimedLast(Aimed(routines[..n], name), routines[n], other);
      if routines[n].target == name {
        assert Aimed(routines, name) == Aimed(routines[..n], name) + [routines[n]];
      } else {
        assert Aimed(routines, name) == Aimed(routines[..n], name);
      }
    }
  }

  lemma {:induction false} OccurrencesExact(hosts: seq<Host>, name: string)
    ensures Occurrences(hosts, name) == 0 <==> forall i | 0 <= i < |hosts| :: hosts[i].name != name
    ensures Occurrences(hosts, name) == 1 ==>
              forall i, k | 0 <= i < k < |hosts| && hosts[i].name == name :: hosts[k].name != name
  {
    if hosts != [] {
      var n := |hosts| - 1;
      OccurrencesExact(hosts[..n], name);
      assert forall i | 0 <= i < n :: hosts[..n][i] == hosts[i];
    }
  }

  method CountNames(hosts: array<Host>) returns (counts: map<string, nat>)
    ensures forall name :: Occurrences(hosts[..], name) == if name in counts then counts[name] else 0
  {
    counts := map[];
    for n := 0 to hosts.Length
      invariant forall name :: Occurrences(hosts[..n], name) == if name in counts then counts[name] else 0
    {
      assert hosts[..n + 1][..n] == hosts[..n];
      var name := hosts[n].name;
      counts := counts[name := 1 + if name in counts then counts[name] else 0];
    }
    assert hosts[..hosts.Length] == hosts[..];
  }

  function HostAll(hosts: seq<Host>, routines: seq<Targeted>, invalid: seq<Invalid>, commands: map<string, string>): seq<Host> {
    seq(|hosts|, i requires 0 <= i < |hosts| => Hosted(hosts[i], hosts, routines, invalid, commands))
  }

  /** A name nothing is aimed at leaves its host as it was. */
  lemma HostedIdle(h: Host, hosts: seq<Host>, routines: seq<Targeted>, invalid: seq<Invalid>, commands: map<string, string>)
    requires Bare(h) && Aimed(routines, h.name) == [] && InvalidNamesOf(invalid, h.name) == []
    ensures Hosted(h, hosts, routines, invalid, commands) == h
  {
    hide Place;
  }

  /** Host `i` once the names in `done` were visited. */
  predicate HostRight(before: seq<Host>, now: seq<Host>, i: nat, done: set<string>,
                      routines: seq<Targeted>, invalid: seq<Invalid>, commands: map<string, string>)
    requires i < |now| == |before|
  {
    now[i] == if before[i].name in done then Hosted(before[i], before, routines, invalid, commands) else before[i]
  }

  predicate HostsRight(before: seq<Host>, now: seq<Host>, done: set<string>,
                       routines: seq<Targeted>, invalid: seq<Invalid>, commands: map<string, string>)
  {
    |now| == |before| && forall i | 0 <= i < |now| :: HostRight(before, now, i, done, routines, invalid, commands)
  }

  ghost predicate ErrorsRight(before: seq<Host>, errors: seq<Targeted>, done: set<string>, routines: seq<Targeted>) {
    forall name :: Aimed(errors, name) == if name in done && Occurrences(before, name) != 1 then Aimed(routines, name) else []
  }

  lemma VisitErrors(before: seq<Host>, errors: seq<Targeted>, done: set<string>, routines: seq<Targeted>, name: string)
    requires ErrorsRight(before, errors, done, routines) && name !in done
    ensures ErrorsRight(before, if Occurrences(before, name) != 1 then errors + Aimed(routines, name) else errors, done + {name}, routines)
  {
    forall other ensures Aimed(errors + Aimed(routines, name), other) == Aimed(errors, other) + if other == name then Aimed(routines, name) else [] {
      AimedConcat(errors, Aimed(routines, name), other);
      AimedOfAimed(routines, name, other);
    }
    hide Aimed, Occurrences;
  }

  /** A name without a single host changes no host, ... */
  lemma VisitHomeless(before: seq<Host>, now: seq<Host>, done: set<string>,
                      routines: seq<Targeted>, invalid: seq<Invalid>, commands: map<string, string>, name: string)
    requires HostsRight(before, now, done, routines, invalid, commands) && Occurrences(before, name) != 1
    ensures HostsRight(before, now, done + {name}, routines, invalid, commands)
  {
    forall i | 0 <= i < |now| ensures HostRight(before, now, i, done + {name}, routines, invalid, commands) {
      assert HostRight(before, now, i, done, routines, invalid, commands);
    }
    hide Aimed, Occurrences, Placed, InvalidNamesOf;
  }

  /** ... and a name with one host changes that one. */
  lemma VisitHost(before: seq<Host>, now: seq<Host>, done: set<string>,
                  routines: seq<Targeted>, invalid: seq<Invalid>, commands: map<string, string>, i: nat)
    requires HostsRight(before, now, done, routines, invalid, commands)
    requires i < |before| && before[i].name !in done && Occurrences(before, before[i].name) == 1
    ensures now[i] == before[i]
    ensures HostsRight(before, now[i := Hosted(before[i], before, routines, invalid, commands)], done + {before[i].name},
                       routines, invalid, commands)
  {
    hide Hosted, Aimed, Occurrences;
    OccurrencesExact(before, before[i].name);
    assert HostRight(before, now, i, done, routines, invalid, commands);
    var after := now[i := Hosted(before[i], before, routines, invalid, commands)];
    forall k | 0 <= k < |now| ensures HostRight(before, after, k, done + {before[i].name}, routines, invalid, commands) {
      assert HostRight(before, now, k, done, routines, invalid, commands);
      if k != i { assert before[k].name != before[i].name; }
    }
  }

  /** The attach pass, project name by project name, in place. */
  method AttachRoutines(hosts: array<Host>, routines: seq<Targeted>, invalid: seq<Invalid>, commands: map<string, string>)
    returns (targetErrors: seq<Targeted>)
    requires forall i | 0 <= i < hosts.Length :: Bare(hosts[i])
    modifies hosts
    ensures hosts[..] == HostAll(old(hosts[..]), routines, invalid, commands)
    ensures forall name :: Aimed(targetErrors, name) == Aimed(Homeless(routines, old(hosts[..])), name)
  {
    ghost var before := hosts[..];
    var groups := GroupByTarget(routines);
    var invalidNames := GroupInvalidNames(invalid);
    var counts := CountNames(hosts);
    targetErrors := [];
    var names := groups.Keys + invalidNames.Keys;
    ghost var done: set<string> := {};
    PassBegins(before, routines, invalid, commands);
    hide *;
    while names != {}
      invariant done !! names && done + names == groups.Keys + invalidNames.Keys
      invariant hosts.Length == |before|
      invariant HostsRight(before, hosts[..], done, routines, invalid, commands)
      invariant ErrorsRight(before, targetErrors, done, routines)
      decreases |names|
    {
      var name :| name in names;
      names := names - {name};
      var group := if name in groups then groups[name] else [];
      assert group == Aimed(routines, name);
      VisitErrors(before, targetErrors, done, routines, name);
      var count := if name in counts then counts[name] else 0;
      if count != 1 {
        // Declared more than once, or not at all: every routine aimed here is reported.
        VisitHomeless(before, hosts[..], done, routines, invalid, commands, name);
        targetErrors := targetErrors + group;
      } else {
        var invalidHere := if name in invalidNames then invalidNames[name] else [];
        AttachTo(hosts, before, done, routines, invalid, commands, name, group, invalidHere);
      }
      done := done + {name};
    }
    PassEnds(before, hosts[..], targetErrors, done, routines, invalid, commands);
  }

  lemma PassBegins(before: seq<Host>, routines: seq<Targeted>, invalid: seq<Invalid>, commands: map<string, string>)
    ensures HostsRight(before, before, {}, routines, invalid, commands) && ErrorsRight(before, [], {}, routines)
  {
  }

  lemma PassEnds(before: seq<Host>, now: seq<Host>, errors: seq<Targeted>, done: set<string>,
                 routines: seq<Targeted>, invalid: seq<Invalid>, commands: map<string, string>)
    requires HostsRight(before, now, done, routines, invalid, commands) && ErrorsRight(before, errors, done, routines)
    requires forall h | h in before :: Bare(h)
    requires forall name | name !in done :: Aimed(routines, name) == [] && InvalidNamesOf(invalid, name) == []
    ensures now == HostAll(before, routines, invalid, commands)
    ensures forall name :: Aimed(errors, name) == Aimed(Homeless(routines, before), name)
  {
    hide Aimed, Placed, InvalidNamesOf, Occurrences, Homeless, Hosted;
    forall i | 0 <= i < |before| ensures now[i] == Hosted(before[i], before, routines, invalid, commands) {
      assert HostRight(before, now, i, done, routines, invalid, commands);
      if before[i].name !in done { HostedIdle(before[i], before, routines, invalid, commands); }
    }
    forall name ensures Aimed(errors, name) == Aimed(Homeless(routines, before), name) {
      HomelessAimed(routines, before, name);
    }
  }

  /** Assigns its lists to the one project of a name. */
  method AttachTo(hosts: array<Host>, ghost before: seq<Host>, ghost done: set<string>,
                  ghost routines: seq<Targeted>, ghost invalid: seq<Invalid>, commands: map<string, string>,
                  name: string, group: seq<Targeted>, invalidHere: seq<string>)
    requires HostsRight(before, hosts[..], done, routines, invalid, commands)
    requires name !in done && Occurrences(before, name) == 1
    requires group == Aimed(routines, name) && invalidHere == InvalidNamesOf(invalid, name)
    modifies hosts
    ensures HostsRight(before, hosts[..], done + {name}, routines, invalid, commands)
  {
    ghost var now := hosts[..];
    SameNames(before, now, done, routines, invalid, commands, name);
    var i := FindHost(hosts, name);
    hide HostsRight, Aimed, Placed, InvalidNamesOf, Occurrences;
    NameKept(before, now, done, routines, invalid, commands, i);
    VisitHost(before, now, done, routines, invalid, commands, i);
    var attached, trackerless, rejected := PlaceRoutines(group, hosts[i], commands);
    hosts[i] := hosts[i].(routines := attached, trackerless := trackerless, templateRejected := rejected, invalidNames := invalidHere);
    assert hosts[..] == now[i := Hosted(before[i], before, routines, invalid, commands)];
  }

  lemma NameKept(before: seq<Host>, now: seq<Host>, done: set<string>,
                 routines: seq<Targeted>, invalid: seq<Invalid>, commands: map<string, string>, i: nat)
    requires HostsRight(before, now, done, routines, invalid, commands) && i < |now|
    ensures |before| == |now| && now[i].name == before[i].name
  {
    assert HostRight(before, now, i, done, routines, invalid, commands);
    hide Aimed, Placed, InvalidNamesOf, Occurrences;
  }

  lemma SameNames(before: seq<Host>, now: seq<Host>, done: set<string>,
                  routines: seq<Targeted>, invalid: seq<Invalid>, commands: map<string, string>, name: string)
    requires HostsRight(before, now, done, routines, invalid, commands)
    ensures Occurrences(now, name) == Occurrences(before, name)
  {
    hide HostsRight, Hosted;
    forall i | 0 <= i < |now| ensures |now| == |before| && now[i].name == before[i].name {
      NameKept(before, now, done, routines, invalid, commands, i);
    }
    assert |now| == |before| by { NameCount(before, now, done, routines, invalid, commands); }
    OccurrencesByName(now, before, name);
  }

  lemma NameCount(before: seq<Host>, now: seq<Host>, done: set<string>,
                  routines: seq<Targeted>, invalid: seq<Invalid>, commands: map<string, string>)
    requires HostsRight(before, now, done, routines, invalid, commands)
    ensures |now| == |before|
  {
  }

  lemma {:induction false} OccurrencesByName(a: seq<Host>, b: seq<Host>, name: string)
    requires |a| == |b| && forall i | 0 <= i < |a| :: a[i].name == b[i].name
    ensures Occurrences(a, name) == Occurrences(b, name)
  {
    if a != [] { OccurrencesByName(a[..|a| - 1], b[..|b| - 1], name); }
  }

  method FindHost(hosts: array<Host>, name: string) returns (i: nat)
    requires Occurrences(hosts[..], name) != 0
    ensures i < hosts.Length && hosts[i].name == name
  {
    OccurrencesExact(hosts[..], name);
    i := 0;
    while hosts[i].name != name
      invariant i < hosts.Length && forall k | 0 <= k < i :: hosts[k].name != name
      decreases hosts.Length - i
    {
      i := i + 1;
    }
  }

  // ---------- Reloading ----------

  /** A configuration as one reload finds it.  `Unusable` stands for every failure
      that stops the reload before the routines: an unreadable file, a schema
      error, a project whose failure reverts the whole snapshot. */
  datatype Candidate =
    | Unusable
    | Read(hosts: seq<Host>, entries: seq<Entry>, defaults: Template.Values, commands: map<string, string>, loads: string -> Loaded)

  predicate CommandsParse(commands: map<string, string>) {
    forall provider | provider in commands :: Template.Parse(commands[provider]).Ok?
  }

  /** The candidate goes live: its provider commands parse, and it has a project
      unless nothing was live before. */
  predicate GoesLive(c: Candidate, first: bool) {
    c.Read? && CommandsParse(c.commands) && (c.hosts != [] || first)
  }

  ghost predicate CandidateSound(c: Candidate) {
    c.Read? ==>
      && (forall h | h in c.hosts :: Bare(h))
      && (forall path :: c.loads(path).Good? ==> c.loads(path).d.sourcePath == path)
  }

  function OrDefault(value: Option<string>, default: Option<string>): Option<string> { if value.Some? then value else default }

  function WithDefaults(d: Declaration, defaults: Template.Values): Declaration {
    d.(values := Template.Values(OrDefault(d.values.model, defaults.model), OrDefault(d.values.effort, defaults.effort),
                                 OrDefault(d.values.permissionMode, defaults.permissionMode)))
  }

  function AllWithDefaults(routines: seq<Targeted>, defaults: Template.Values): seq<Targeted> {
    if routines == [] then []
    else [routines[0].(d := WithDefaults(routines[0].d, defaults))] + AllWithDefaults(routines[1..], defaults)
  }

  function AttachedRoutines(hosts: seq<Host>): seq<Targeted> {
    if hosts == [] then [] else hosts[0].routines + AttachedRoutines(hosts[1..])
  }

  function SourcesOf(previous: seq<Host>, c: Candidate): Sources
    requires c.Read?
  {
    Sources(c.loads, PreviousBySource(AttachedRoutines(previous)))
  }

  function LoadHosts(previous: seq<Host>, c: Candidate): seq<Host>
    requires c.Read?
  {
    var s := SourcesOf(previous, c);
    HostAll(c.hosts, AllWithDefaults(Routines(c.entries, s), c.defaults), InvalidNew(c.entries, s), c.commands)
  }

  function LiveHosts(snapshot: Option<seq<Host>>): seq<Host> { match snapshot case None => [] case Some(hosts) => hosts }

  /** The snapshot after a reload: the new one, or the last known good one. */
  function Reloaded(snapshot: Option<seq<Host>>, c: Candidate): Option<seq<Host>> {
    if GoesLive(c, snapshot.None?) then Some(LoadHosts(LiveHosts(snapshot), c)) else snapshot
  }

  lemma {:induction false} AimedMembers(routines: seq<Targeted>, name: string, r: Targeted)
    ensures r in Aimed(routines, name) <==> r in routines && r.target == name
  {
    if routines != [] {
      var n := |routines| - 1;
      AimedMembers(routines[..n], name, r);
      assert routines == routines[..n] + [routines[n]];
    }
  }

  lemma {:induction false} PlacedMembers(group: seq<Targeted>, h: Host, commands: map<string, string>, placement: Placement, r: Targeted)
    ensures r in Placed(group, h, commands, placement) <==> r in group && Place(h, r.d, commands) == placement
  {
    hide Place;
    if group != [] {
      var n := |group| - 1;
      PlacedMembers(group[..n], h, commands, placement, r);
      assert group == group[..n] + [group[n]];
    }
  }

  lemma {:induction false} AttachedMembers(hosts: seq<Host>, r: Targeted)
    ensures r in AttachedRoutines(hosts) <==> exists i :: 0 <= i < |hosts| && r in hosts[i].routines
  {
    if hosts != [] {
      AttachedMembers(hosts[1..], r);
      if i :| 0 <= i < |hosts[1..]| && r in hosts[1..][i].routines {
        assert r in hosts[i + 1].routines;
      }
      if i :| 0 <= i < |hosts| && r in hosts[i].routines && i > 0 {
        assert r in hosts[1..][i - 1].routines;
      }
    }
  }

  /** The one project of the routine's target accepts it. */
  ghost predicate Welcome(hosts: seq<Host>, r: Targeted, commands: map<string, string>) {
    && Occurrences(hosts, r.target) == 1
    && exists i :: 0 <= i < |hosts| && hosts[i].name == r.target && Place(hosts[i], r.d, commands) == Attached
  }

  lemma HostedMembers(h: Host, hosts: seq<Host>, routines: seq<Targeted>, invalid: seq<Invalid>, commands: map<string, string>, r: Targeted)
    requires Bare(h)
    ensures r in Hosted(h, hosts, routines, invalid, commands).routines <==>
            Occurrences(hosts, h.name) == 1 && r in routines && r.target == h.name && Place(h, r.d, commands) == Attached
  {
    AimedMembers(routines, h.name, r);
    PlacedMembers(Aimed(routines, h.name), h, commands, Attached, r);
    hide Place, Placed, Aimed, Occurrences;
  }

  /** What is attached after the pass: the given routines that are welcome. */
  lemma HostAllMembers(hosts: seq<Host>, routines: seq<Targeted>, invalid: seq<Invalid>, commands: map<string, string>, r: Targeted)
    requires forall h | h in hosts :: Bare(h)
    ensures r in AttachedRoutines(HostAll(hosts, routines, invalid, commands)) <==> r in routines && Welcome(hosts, r, commands)
  {
    var after := HostAll(hosts, routines, invalid, commands);
    AttachedMembers(after, r);
    forall i | 0 <= i < |hosts|
      ensures r in after[i].routines <==>
              Occurrences(hosts, hosts[i].name) == 1 && r in routines && r.target == hosts[i].name && Place(hosts[i], r.d, commands) == Attached
    {
      HostedMembers(hosts[i], hosts, routines, invalid, commands, r);
    }
    hide Hosted, Occurrences, Place;
  }

  lemma {:induction false} DefaultsMembers(routines: seq<Targeted>, defaults: Template.Values, r: Targeted)
    ensures r in AllWithDefaults(routines, defaults) <==>
            exists q :: q in routines && r == q.(d := WithDefaults(q.d, defaults))
  {
    if routines != [] {
      DefaultsMembers(routines[1..], defaults, r);
      assert routines == [routines[0]] + routines[1..];
    }
  }

  // ---------- Coherent snapshots ----------

  /** Routines that share a name or a path are one declaration. */
  ghost predicate Coherent(routines: seq<Targeted>) {
    forall a, b | a in routines && b in routines :: a.d.name == b.d.name || a.d.sourcePath == b.d.sourcePath ==> a.d == b.d
  }

  lemma {:induction false} PreviousExact(routines: seq<Targeted>, path: string)
    ensures path in PreviousBySource(routines) <==> exists r :: r in routines && r.d.sourcePath == path
    ensures path in PreviousBySource(routines) ==>
              exists r :: r in routines && r.d.sourcePath == path && r.d == PreviousBySource(routines)[path]
  {
    if routines != [] {
      var n := |routines| - 1;
      PreviousExact(routines[..n], path);
      assert routines == routines[..n] + [routines[n]];
      if routines[n].d.sourcePath == path { assert routines[n] in routines; }
    }
  }

  lemma SourcesSound(previous: seq<Host>, c: Candidate)
    requires c.Read? && CandidateSound(c)
    ensures Sound(SourcesOf(previous, c))
  {
    var routines := AttachedRoutines(previous);
    forall path | path in PreviousBySource(routines) ensures PreviousBySource(routines)[path].sourcePath == path {
      PreviousExact(routines, path);
    }
  }

  /** A candidate that goes live attaches exactly the accepted, welcome routines. */
  lemma LoadedMembers(previous: seq<Host>, c: Candidate, r: Targeted)
    requires c.Read? && CandidateSound(c)
    ensures r in AttachedRoutines(LoadHosts(previous, c)) <==>
            (Welcome(c.hosts, r, c.commands) &&
             exists q :: Backed(c.entries, SourcesOf(previous, c), q) && r == q.(d := WithDefaults(q.d, c.defaults)))
  {
    var s := SourcesOf(previous, c);
    var routines := Routines(c.entries, s);
    HostAllMembers(c.hosts, AllWithDefaults(routines, c.defaults), InvalidNew(c.entries, s), c.commands, r);
    DefaultsMembers(routines, c.defaults, r);
    forall q ensures q in routines <==> Backed(c.entries, s, q) {
      RoutinesBacked(c.entries, s, q);
    }
    hide Routines, Backed, Welcome, AllWithDefaults, InvalidNew, WithDefaults, HostAll;
  }

  /** Every snapshot a reload can leave is coherent: each name it attaches is
      backed by exactly one listed entry of the configuration that went live. */
  lemma ReloadedCoherent(previous: seq<Host>, c: Candidate)
    requires c.Read? && CandidateSound(c)
    ensures Coherent(AttachedRoutines(LoadHosts(previous, c)))
  {
    SourcesSound(previous, c);
    var s := SourcesOf(previous, c);
    var attached := AttachedRoutines(LoadHosts(previous, c));
    forall a, b | a in attached && b in attached && (a.d.name == b.d.name || a.d.sourcePath == b.d.sourcePath)
      ensures a.d == b.d
    {
      LoadedMembers(previous, c, a);
      LoadedMembers(previous, c, b);
      var p :| Backed(c.entries, s, p) && a == p.(d := WithDefaults(p.d, c.defaults));
      var q :| Backed(c.entries, s, q) && b == q.(d := WithDefaults(q.d, c.defaults));
      BackedTogether(c.entries, s, p, q);
    }
  }

  lemma BackedTogether(entries: seq<Entry>, s: Sources, a: Targeted, b: Targeted)
    requires Sound(s) && Backed(entries, s, a) && Backed(entries, s, b)
    requires a.d.name == b.d.name || a.d.sourcePath == b.d.sourcePath
    ensures a.d == b.d
  {
    var i: nat :| i < |entries| && Backs(entries, s, i, a);
    var k: nat :| k < |entries| && Backs(entries, s, k, b);
    OneEntryPerName(entries, s, a, b, i, k);
  }

  // ---------- The last good declaration ----------

  /** A listed entry has the routine's path and target, and no earlier entry
      claims its name. */
  ghost predicate Listed(previous: seq<Host>, c: Candidate, r: Targeted)
    requires c.Read?
  {
    exists i: nat | i < |c.entries| ::
      && c.entries[i].path == r.d.sourcePath && r.target in c.entries[i].targets
      && forall j | 0 <= j < i :: Claim(c.entries[j], SourcesOf(previous, c)) != Some(r.d.name)
  }

  lemma BrokenOffer(previous: seq<Host>, c: Candidate, r: Targeted, e: Entry)
    requires c.Read? && Coherent(AttachedRoutines(previous)) && r in AttachedRoutines(previous)
    requires c.loads(r.d.sourcePath).Broken? && e.path == r.d.sourcePath
    ensures Offer(e, SourcesOf(previous, c)) == Some(r.d) && Claim(e, SourcesOf(previous, c)) == Some(r.d.name)
  {
    PreviousExact(AttachedRoutines(previous), r.d.sourcePath);
    hide AttachedRoutines, PreviousBySource;
  }

  lemma BrokenBacked(previous: seq<Host>, c: Candidate, r: Targeted)
    requires c.Read? && CandidateSound(c) && Coherent(AttachedRoutines(previous)) && r in AttachedRoutines(previous)
    requires c.loads(r.d.sourcePath).Broken?
    ensures Backed(c.entries, SourcesOf(previous, c), r) <==> Listed(previous, c, r)
  {
    var s := SourcesOf(previous, c);
    SourcesSound(previous, c);
    hide Offer, Claim, SourcesOf, AttachedRoutines, Coherent, Sound;
    if i: nat :| i < |c.entries| && Backs(c.entries, s, i, r) {
      OfferPath(c.entries[i], s);
      assert c.entries[i].path == r.d.sourcePath;
    }
    if i: nat :| i < |c.entries| && c.entries[i].path == r.d.sourcePath && r.target in c.entries[i].targets
                 && forall j | 0 <= j < i :: Claim(c.entries[j], s) != Some(r.d.name) {
      BrokenOffer(previous, c, r, c.entries[i]);
      assert Backs(c.entries, s, i, r);
    }
  }

  /** With its file broken, an attached routine stays attached after a reload that
      goes live exactly when its path is still listed for its target, no earlier
      entry claims its name, and its target accepts it. */
  lemma KeptIffListedAndWelcome(previous: seq<Host>, c: Candidate, r: Targeted)
    requires c.Read? && CandidateSound(c) && Coherent(AttachedRoutines(previous)) && r in AttachedRoutines(previous)
    requires c.loads(r.d.sourcePath).Broken?
    ensures var kept := r.(d := WithDefaults(r.d, c.defaults));
      kept in AttachedRoutines(LoadHosts(previous, c)) <==> Listed(previous, c, r) && Welcome(c.hosts, kept, c.commands)
  {
    var kept := r.(d := WithDefaults(r.d, c.defaults));
    var s := SourcesOf(previous, c);
    LoadedMembers(previous, c, kept);
    BrokenBacked(previous, c, r);
    SourcesSound(previous, c);
    forall q | Backed(c.entries, s, q) && kept == q.(d := WithDefaults(q.d, c.defaults)) ensures q == r {
      var i: nat :| i < |c.entries| && Backs(c.entries, s, i, q);
      OfferPath(c.entries[i], s);
      BrokenOffer(previous, c, r, c.entries[i]);
    }
    hide Backed, Listed, Welcome, LoadHosts, AttachedRoutines;
  }

  /** Once nothing from a path is attached, its broken file cannot bring it back. */
  lemma ForgottenStaysForgotten(previous: seq<Host>, c: Candidate, r: Targeted)
    requires c.Read? && CandidateSound(c) && c.loads(r.d.sourcePath).Broken?
    requires forall q | q in AttachedRoutines(previous) :: q.d.sourcePath != r.d.sourcePath
    ensures r !in AttachedRoutines(LoadHosts(previous, c))
  {
    var s := SourcesOf(previous, c);
    LoadedMembers(previous, c, r);
    SourcesSound(previous, c);
    PreviousExact(AttachedRoutines(previous), r.d.sourcePath);
    forall q | Backed(c.entries, s, q) ensures q.d.sourcePath != r.d.sourcePath {
      var i: nat :| i < |c.entries| && Backs(c.entries, s, i, q);
      OfferPath(c.entries[i], s);
    }
  }

  /** The same declaration, with possibly more defaults filled in. */
  predicate Extends(d: Declaration, e: Declaration) {
    && e.name == d.name && e.sourcePath == d.sourcePath && e.git == d.git && e.provider == d.provider
    && (d.values.model.Some? ==> e.values.model == d.values.model)
    && (d.values.effort.Some? ==> e.values.effort == d.values.effort)
    && (d.values.permissionMode.Some? ==> e.values.permissionMode == d.values.permissionMode)
  }

  /** Through these reloads the routine's file stays broken, and whenever one goes
      live, the routine's path is listed, its name is free and its target accepts it. */
  ghost predicate Survives(snapshot: Option<seq<Host>>, cs: seq<Candidate>, r: Targeted)
    decreases |cs|
  {
    cs == [] ||
    (var c := cs[0];
     && CandidateSound(c)
     && if GoesLive(c, snapshot.None?) then
          var kept := r.(d := WithDefaults(r.d, c.defaults));
          && c.loads(r.d.sourcePath).Broken?
          && Listed(LiveHosts(snapshot), c, r) && Welcome(c.hosts, kept, c.commands)
          && Survives(Reloaded(snapshot, c), cs[1..], kept)
        else Survives(Reloaded(snapshot, c), cs[1..], r))
  }

  function ReloadAll(snapshot: Option<seq<Host>>, cs: seq<Candidate>): Option<seq<Host>>
    decreases |cs|
  {
    if cs == [] then snapshot else ReloadAll(Reloaded(snapshot, cs[0]), cs[1..])
  }

  /** Across any number of reloads with a broken file, failed or live, the last
      good declaration stays attached to its target. */
  lemma {:induction false} LastGoodStays(snapshot: Option<seq<Host>>, cs: seq<Candidate>, r: Targeted)
    requires Coherent(AttachedRoutines(LiveHosts(snapshot))) && r in AttachedRoutines(LiveHosts(snapshot))
    requires Survives(snapshot, cs, r)
    ensures exists last :: last in AttachedRoutines(LiveHosts(ReloadAll(snapshot, cs))) && last.target == r.target && Extends(r.d, last.d)
    decreases |cs|
  {
    if cs == [] {
      assert Extends(r.d, r.d);
    } else {
      var c := cs[0];
      var next := Reloaded(snapshot, c);
      var kept := if GoesLive(c, snapshot.None?) then r.(d := WithDefaults(r.d, c.defaults)) else r;
      if GoesLive(c, snapshot.None?) {
        KeptIffListedAndWelcome(LiveHosts(snapshot), c, r);
        ReloadedCoherent(LiveHosts(snapshot), c);
      }
      assert Coherent(AttachedRoutines(LiveHosts(next))) && kept in AttachedRoutines(LiveHosts(next));
      LastGoodStays(next, cs[1..], kept);
      var last :| last in AttachedRoutines(LiveHosts(ReloadAll(next, cs[1..]))) && last.target == kept.target && Extends(kept.d, last.d);
      assert Extends(r.d, last.d);
    }
  }

  // ---------- The reloader ----------

  class RuntimeConfigReloader {
    var snapshot: Option<seq<Host>>
    var usingLastKnownGood: bool

    ghost predicate Valid()
      reads this
    {
      Coherent(AttachedRoutines(LiveHosts(snapshot)))
    }

    constructor ()
      ensures Valid() && snapshot == None
    {
      snapshot, usingLastKnownGood := None, false;
    }

    method Reload(c: Candidate)
      requires Valid() && CandidateSound(c)
      modifies this
      ensures Valid() && snapshot == Reloaded(old(snapshot), c)
      ensures usingLastKnownGood <==> old(snapshot).Some? && !GoesLive(c, false)
      ensures usingLastKnownGood ==> snapshot == old(snapshot)
    {
      if c.Unusable? {
        LastKnownGoodOrNothing();
        return;
      }
      var parses := CheckCommands(c.commands);
      if !parses {
        LastKnownGoodOrNothing();
        return;
      }
      ReloadedCoherent(LiveHosts(snapshot), c);
      SourcesSound(LiveHosts(snapshot), c);
      var routines, invalid, _ := ReadRoutineDeclarations(c.entries, AttachedRoutines(LiveHosts(snapshot)), c.loads);
      var hosts := new Host[|c.hosts|](i requires 0 <= i < |c.hosts| => c.hosts[i]);
      assert hosts[..] == c.hosts;
      var _ := AttachRoutines(hosts, AllWithDefaults(routines, c.defaults), invalid, c.commands);
      if hosts.Length == 0 && snapshot.Some? {
        LastKnownGoodOrNothing();
        return;
      }
      snapshot, usingLastKnownGood := Some(hosts[..]), false;
    }

    method LastKnownGoodOrNothing()
      modifies this
      ensures snapshot == old(snapshot) && usingLastKnownGood == snapshot.Some?
    {
      usingLastKnownGood := snapshot.Some?;
    }
  }

  /** Parses every provider's command, used by a routine or not. */
  method CheckCommands(commands: map<string, string>) returns (parses: bool)
    ensures parses == CommandsParse(commands)
  {
    parses := true;
    var rest := commands.Keys;
    while rest != {}
      invariant rest <= commands.Keys
      invariant parses <==> forall provider | provider in commands.Keys - rest :: Template.Parse(commands[provider]).Ok?
      decreases |rest|
    {
      var provider :| provider in rest;
      var rendering := Template.RenderProviderCommandTemplate(commands[provider], Template.Values(None, None, None));
      parses := parses && rendering.Ok?;
      rest := rest - {provider};
    }
  }
}
