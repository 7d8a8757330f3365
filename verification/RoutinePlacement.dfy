/** Where a reload puts a routine, and what of it: `src/reload.ts`. */
module RoutinePlacement {
  import opened Wrappers
  import Template = ProviderTemplate
  import TemplateCommands
  import opened Reload

  /** The command of the routine's own provider, or else of the project's. */
  function CommandFor(h: Host, d: Declaration, commands: map<string, string>): Option<string> {
    match d.provider
    case Some(provider) => if provider in commands then Some(commands[provider]) else None
    case None => if h.provider in commands then Some(commands[h.provider]) else None
  }

  /** A command that cannot be used for these values: it does not parse, or it never
      names a model or effort that is given. */
  ghost predicate Unusable(command: string, values: Template.Values) {
    || Template.Parse(command).Err?
    || (values.model.Some? && !TemplateCommands.Mentions(command, "model"))
    || (values.effort.Some? && !TemplateCommands.Mentions(command, "effort"))
  }

  /** A routine is tracker-less exactly if it needs Git on a routine host without a
      tracker; of the others it is rejected exactly if its provider has a command
      and that is unusable for it; every other one is attached. */
  lemma PlacedExactly(h: Host, d: Declaration, commands: map<string, string>)
    ensures Place(h, d, commands) == Trackerless <==> d.git && h.routineHost && !h.tracked
    ensures Place(h, d, commands) == TemplateRejected <==>
              !(d.git && h.routineHost && !h.tracked) &&
              CommandFor(h, d, commands).Some? && Unusable(CommandFor(h, d, commands).value, d.values)
  {
    var command := CommandFor(h, d, commands);
    if command.Some? && Template.Parse(command.value).Ok? {
      TemplateCommands.ReportedExactly(command.value, d.values);
      hide Template.Parse, Template.Referenced, Template.UnreferencedFields, TemplateCommands.Mentions;
      assert |["model"] + ["effort"]| == 2;
    }
  }

  /** A routine's own values win; the defaults fill in the missing ones. */
  lemma OwnValuesWin(d: Declaration, defaults: Template.Values, field: string)
    requires Template.KnownField(field)
    ensures var own := TemplateCommands.Given(d.values, field);
      var filled := TemplateCommands.Given(WithDefaults(d, defaults).values, field);
      filled == if own.Some? then own else TemplateCommands.Given(defaults, field)
    ensures WithDefaults(d, defaults).(values := d.values) == d
  {
  }

  /** A file that loads replaces what its path had: after the reload its declaration
      is attached exactly if the target welcomes it, and no other declaration from
      that path is. */
  lemma NewContentReplaces(previous: seq<Host>, c: Candidate, i: nat, target: string)
    requires c.Read? && CandidateSound(c) && i < |c.entries| && target in c.entries[i].targets
    requires c.loads(c.entries[i].path).Good?
    requires var d := c.loads(c.entries[i].path).d;
      forall j | 0 <= j < i :: Claim(c.entries[j], SourcesOf(previous, c)) != Some(d.name)
    ensures var d := WithDefaults(c.loads(c.entries[i].path).d, c.defaults);
      && (Targeted(d, target) in AttachedRoutines(LoadHosts(previous, c)) <==> Welcome(c.hosts, Targeted(d, target), c.commands))
      && forall r | r in AttachedRoutines(LoadHosts(previous, c)) && r.d.sourcePath == c.entries[i].path :: r.d == d
  {
    var s, d := SourcesOf(previous, c), c.loads(c.entries[i].path).d;
    var offered := Targeted(d, target);
    SourcesSound(previous, c);
    assert Backs(c.entries, s, i, offered);
    var kept := offered.(d := WithDefaults(d, c.defaults));
    LoadedMembers(previous, c, kept);
    forall r | r in AttachedRoutines(LoadHosts(previous, c)) && r.d.sourcePath == c.entries[i].path
      ensures r.d == WithDefaults(d, c.defaults)
    {
      LoadedMembers(previous, c, r);
      var q :| Backed(c.entries, s, q) && r == q.(d := WithDefaults(q.d, c.defaults));
      var k: nat :| k < |c.entries| && Backs(c.entries, s, k, q);
      OfferPath(c.entries[k], s);
      SamePathSameOffer(c.entries[k], c.entries[i], s);
    }
    hide LoadHosts, AttachedRoutines, Welcome;
  }
}
