/** Structured values: `redactValueDeep` of `src/redaction.ts`, on JSON-like values. */
module DeepRedaction {
  import opened Wrappers
  import opened Redaction

  /** A JSON-like value.  A number carries the spelling the runtime prints. */
  datatype Value =
    | Text(text: string)
    | Number(spelling: string)
    | Boolean(truth: bool)
    | Null
    | List(items: seq<Value>)
    | Record(fields: seq<Field>)

  datatype Field = Field(key: string, value: Value)

  function BooleanSpelling(truth: bool): string { if truth then "true" else "false" }

  /** Assigning a property: an existing key keeps its place. */
  function Put(fields: seq<Field>, key: string, value: Value): seq<Field> {
    if fields == [] then [Field(key, value)]
    else if fields[0].key == key then [Field(key, value)] + fields[1..]
    else [fields[0]] + Put(fields[1..], key, value)
  }

  lemma {:induction false} PutEntry(fields: seq<Field>, key: string, value: Value, i: nat)
    requires i < |Put(fields, key, value)|
    ensures Put(fields, key, value)[i] == Field(key, value) || Put(fields, key, value)[i] in fields
  {
    if fields != [] && fields[0].key != key && 0 < i {
      PutEntry(fields[1..], key, value, i - 1);
      assert forall f | f in fields[1..] :: f in fields;
    }
  }

  lemma {:induction false} PutDistinct(fields: seq<Field>, key: string, value: Value)
    requires DistinctKeys(fields)
    ensures DistinctKeys(Put(fields, key, value))
  {
    if fields != [] && fields[0].key != key {
      var rest := Put(fields[1..], key, value);
      PutDistinct(fields[1..], key, value);
      forall i | 0 <= i < |rest| ensures rest[i].key != fields[0].key {
        PutEntry(fields[1..], key, value, i);
      }
    }
  }

  predicate DistinctKeys(fields: seq<Field>) {
    forall i, j | 0 <= i < j < |fields| :: fields[i].key != fields[j].key
  }

  ghost function RedactDeep(value: Value, secrets: set<string>): Value
    decreases value, 0
  {
    match value
    case Text(text) => Text(Mask(text, secrets, 0))
    case Number(spelling) => if Mask(spelling, secrets, 0) == spelling then value else Text(MARKER)
    case Boolean(truth) =>
      var spelling := BooleanSpelling(truth);
      if Mask(spelling, secrets, 0) == spelling then value else Text(MARKER)
    case Null => Null
    case List(items) => List(seq(|items|, i requires 0 <= i < |items| => RedactDeep(items[i], secrets)))
    case Record(fields) => Record(RedactFields(fields, secrets))
  }

  ghost function RedactFields(fields: seq<Field>, secrets: set<string>): seq<Field>
    decreases fields
  {
    if fields == [] then [] else
      var last := fields[|fields| - 1];
      Put(RedactFields(fields[..|fields| - 1], secrets), Mask(last.key, secrets, 0), RedactDeep(last.value, secrets))
  }

  /** No leaf spelling and no property name contains a secret. */
  ghost predicate Clean(value: Value, secrets: set<string>)
    decreases value, 0
  {
    match value
    case Text(text) => !Contains(text, secrets)
    case Number(spelling) => !Contains(spelling, secrets)
    case Boolean(truth) => !Contains(BooleanSpelling(truth), secrets)
    case Null => true
    case List(items) => forall i | 0 <= i < |items| :: Clean(items[i], secrets)
    case Record(fields) => FieldsClean(fields, secrets) && DistinctKeys(fields)
  }

  ghost predicate FieldsClean(fields: seq<Field>, secrets: set<string>)
    decreases fields
  {
    forall i | 0 <= i < |fields| :: !Contains(fields[i].key, secrets) && Clean(fields[i].value, secrets)
  }

  lemma MarkerClean(secrets: set<string>)
    requires MarkerApart(secrets)
    ensures !Contains(MARKER, secrets)
  {
    if s :| Occurrence(MARKER, secrets, s) {
      assert MarkerAt(MARKER, 0);
      OccurrenceMeetsMarker(MARKER, secrets, s, 0, s.start);
    }
  }

  lemma PrimitiveClean(spelling: string, secrets: set<string>)
    requires MarkerApart(secrets)
    requires Mask(spelling, secrets, 0) == spelling
    ensures !Contains(spelling, secrets)
  {
    RedactedTextClean(spelling, secrets);
  }

  /** Every leaf and every property name of the redacted value is clean. */
  lemma {:induction false} RedactedValueClean(value: Value, secrets: set<string>)
    requires MarkerApart(secrets)
    ensures Clean(RedactDeep(value, secrets), secrets)
    decreases value, 0
  {
    MarkerClean(secrets);
    match value
    case Text(text) => RedactedTextClean(text, secrets);
    case Number(spelling) => if Mask(spelling, secrets, 0) == spelling { PrimitiveClean(spelling, secrets); }
    case Boolean(truth) =>
      if Mask(BooleanSpelling(truth), secrets, 0) == BooleanSpelling(truth) { PrimitiveClean(BooleanSpelling(truth), secrets); }
    case Null =>
    case List(items) =>
      forall i | 0 <= i < |items| ensures Clean(RedactDeep(items[i], secrets), secrets) {
        RedactedValueClean(items[i], secrets);
      }
    case Record(fields) => RedactedFieldsClean(fields, secrets);
  }

  lemma {:induction false} RedactedFieldsClean(fields: seq<Field>, secrets: set<string>)
    requires MarkerApart(secrets)
    ensures FieldsClean(RedactFields(fields, secrets), secrets)
    ensures DistinctKeys(RedactFields(fields, secrets))
    decreases fields
  {
    if fields != [] {
      var last := fields[|fields| - 1];
      var before := RedactFields(fields[..|fields| - 1], secrets);
      RedactedFieldsClean(fields[..|fields| - 1], secrets);
      RedactedTextClean(last.key, secrets);
      RedactedValueClean(last.value, secrets);
      PutCleanField(before, Mask(last.key, secrets, 0), RedactDeep(last.value, secrets), secrets);
    }
  }

  lemma PutCleanField(fields: seq<Field>, key: string, value: Value, secrets: set<string>)
    requires FieldsClean(fields, secrets) && DistinctKeys(fields)
    requires !Contains(key, secrets) && Clean(value, secrets)
    ensures FieldsClean(Put(fields, key, value), secrets) && DistinctKeys(Put(fields, key, value))
  {
    PutDistinct(fields, key, value);
    var r := Put(fields, key, value);
    forall i | 0 <= i < |r| ensures !Contains(r[i].key, secrets) && Clean(r[i].value, secrets) {
      PutEntry(fields, key, value, i);
    }
  }

  lemma {:induction false} PutNewKeyAppends(fields: seq<Field>, key: string, value: Value)
    requires forall i | 0 <= i < |fields| :: fields[i].key != key
    ensures Put(fields, key, value) == fields + [Field(key, value)]
  {
    if fields != [] {
      PutNewKeyAppends(fields[1..], key, value);
      assert fields == [fields[0]] + fields[1..];
    }
  }

  lemma {:induction false} CleanValueUnchanged(value: Value, secrets: set<string>)
    requires Clean(value, secrets)
    ensures RedactDeep(value, secrets) == value
    decreases value, 0
  {
    match value
    case Text(text) => CleanTextUnchanged(text, secrets);
    case Number(spelling) => CleanTextUnchanged(spelling, secrets);
    case Boolean(truth) => CleanTextUnchanged(BooleanSpelling(truth), secrets);
    case Null =>
    case List(items) =>
      forall i | 0 <= i < |items| ensures RedactDeep(items[i], secrets) == items[i] {
        CleanValueUnchanged(items[i], secrets);
      }
    case Record(fields) => CleanFieldsUnchanged(fields, secrets);
  }

  lemma {:induction false} CleanFieldsUnchanged(fields: seq<Field>, secrets: set<string>)
    requires FieldsClean(fields, secrets) && DistinctKeys(fields)
    ensures RedactFields(fields, secrets) == fields
    decreases fields
  {
    if fields != [] {
      var front, last := fields[..|fields| - 1], fields[|fields| - 1];
      assert last == fields[|fields| - 1] && !Contains(last.key, secrets) && Clean(last.value, secrets);
      CleanFieldsUnchanged(front, secrets);
      CleanTextUnchanged(last.key, secrets);
      CleanValueUnchanged(last.value, secrets);
      forall i | 0 <= i < |front| ensures front[i].key != last.key {
        assert fields[i].key != fields[|fields| - 1].key;
      }
      PutNewKeyAppends(front, last.key, last.value);
      assert fields == front + [last];
    }
  }

  lemma DeepRedactionFixedPoint(value: Value, secrets: set<string>)
    requires MarkerApart(secrets)
    ensures RedactDeep(RedactDeep(value, secrets), secrets) == RedactDeep(value, secrets)
  {
    RedactedValueClean(value, secrets);
    CleanValueUnchanged(RedactDeep(value, secrets), secrets);
  }

  // ---------- What stands where ----------

  /** One step into a value: an index of a list, or a property name. */
  datatype Step = Item(index: nat) | Property(name: string)

  /** The value of the last property of that name. */
  function Find(fields: seq<Field>, name: string): Option<Value> {
    if fields == [] then None
    else if fields[|fields| - 1].key == name then Some(fields[|fields| - 1].value)
    else Find(fields[..|fields| - 1], name)
  }

  function Child(value: Value, step: Step): Option<Value> {
    match step
    case Item(i) => if value.List? && i < |value.items| then Some(value.items[i]) else None
    case Property(name) => if value.Record? then Find(value.fields, name) else None
  }

  /** What a path leads to. */
  function At(value: Value, path: seq<Step>): Option<Value>
    decreases |path|
  {
    if path == [] then Some(value)
    else
      match Child(value, path[0])
      case None => None
      case Some(child) => At(child, path[1..])
  }

  ghost function MaskedStep(step: Step, secrets: set<string>): Step {
    match step case Item(i) => Item(i) case Property(name) => Property(Mask(name, secrets, 0))
  }

  /** Indices stay, names are masked. */
  ghost function MaskedPath(path: seq<Step>, secrets: set<string>): seq<Step> {
    if path == [] then [] else [MaskedStep(path[0], secrets)] + MaskedPath(path[1..], secrets)
  }

  /** Property `i`, of that name, is the last one with its masked name. */
  ghost predicate LastMasked(fields: seq<Field>, name: string, secrets: set<string>, i: nat) {
    && i < |fields| && fields[i].key == name
    && forall j | i < j < |fields| :: Mask(fields[j].key, secrets, 0) != Mask(name, secrets, 0)
  }

  /** No later property overwrites the one of that name. */
  ghost predicate KeepsName(fields: seq<Field>, name: string, secrets: set<string>) {
    exists i :: LastMasked(fields, name, secrets, i)
  }

  /** So at every property along the path. */
  ghost predicate Unshadowed(value: Value, path: seq<Step>, secrets: set<string>)
    decreases |path|
  {
    path == [] ||
    (&& (path[0].Property? && value.Record? ==> KeepsName(value.fields, path[0].name, secrets))
     && match Child(value, path[0]) case None => true case Some(child) => Unshadowed(child, path[1..], secrets))
  }

  /** The last property whose masked name is `name`. */
  ghost function FindMasked(fields: seq<Field>, name: string, secrets: set<string>): Option<Value> {
    if fields == [] then None
    else if Mask(fields[|fields| - 1].key, secrets, 0) == name then Some(fields[|fields| - 1].value)
    else FindMasked(fields[..|fields| - 1], name, secrets)
  }

  lemma {:induction false} FindCons(f: Field, rest: seq<Field>, name: string)
    ensures Find([f] + rest, name) ==
            if Find(rest, name).Some? then Find(rest, name) else if f.key == name then Some(f.value) else None
  {
    var all := [f] + rest;
    if rest == [] {
      assert all == [f] && all[..0] == [];
    } else {
      assert all[..|all| - 1] == [f] + rest[..|rest| - 1];
      FindCons(f, rest[..|rest| - 1], name);
    }
  }

  lemma {:induction false} FindAbsent(fields: seq<Field>, name: string)
    requires forall i | 0 <= i < |fields| :: fields[i].key != name
    ensures Find(fields, name) == None
  {
    if fields != [] { FindAbsent(fields[..|fields| - 1], name); }
  }

  lemma {:induction false} FindPut(fields: seq<Field>, key: string, value: Value, name: string)
    requires DistinctKeys(fields)
    ensures Find(Put(fields, key, value), name) == if name == key then Some(value) else Find(fields, name)
  {
    if fields == [] {
      assert [Field(key, value)][..0] == [];
    } else {
      var first, rest := fields[0], fields[1..];
      assert fields == [first] + rest;
      FindCons(first, rest, name);
      if first.key == key {
        FindCons(Field(key, value), rest, name);
        if name == key { FindAbsent(rest, name); }
      } else {
        FindPut(rest, key, value, name);
        FindCons(first, Put(rest, key, value), name);
      }
    }
  }

  lemma {:induction false} RedactedKeysDistinct(fields: seq<Field>, secrets: set<string>)
    ensures DistinctKeys(RedactFields(fields, secrets))
  {
    if fields != [] {
      var last, before := fields[|fields| - 1], RedactFields(fields[..|fields| - 1], secrets);
      RedactedKeysDistinct(fields[..|fields| - 1], secrets);
      PutDistinct(before, Mask(last.key, secrets, 0), RedactDeep(last.value, secrets));
    }
  }

  ghost function Redacted(found: Option<Value>, secrets: set<string>): Option<Value> {
    match found case None => None case Some(v) => Some(RedactDeep(v, secrets))
  }

  /** A redacted object has a property of a name exactly when some name masks to it,
      and its value is that of the last one. */
  lemma {:induction false} FindRedacted(fields: seq<Field>, name: string, secrets: set<string>)
    ensures Find(RedactFields(fields, secrets), name) == Redacted(FindMasked(fields, name, secrets), secrets)
  {
    if fields != [] {
      hide Mask, RedactDeep;
      var front, last := fields[..|fields| - 1], fields[|fields| - 1];
      FindRedacted(front, name, secrets);
      RedactedKeysDistinct(front, secrets);
      FindPut(RedactFields(front, secrets), Mask(last.key, secrets, 0), RedactDeep(last.value, secrets), name);
    }
  }

  lemma {:induction false} KeptIsFound(fields: seq<Field>, name: string, secrets: set<string>)
    requires KeepsName(fields, name, secrets)
    ensures Find(fields, name).Some? && FindMasked(fields, Mask(name, secrets, 0), secrets) == Find(fields, name)
  {
    hide Mask;
    var i :| LastMasked(fields, name, secrets, i);
    var front, last := fields[..|fields| - 1], fields[|fields| - 1];
    if last.key != name {
      assert LastMasked(front, name, secrets, i);
      KeptIsFound(front, name, secrets);
    }
  }

  /** What is found under a masked name was kept under some name of the input. */
  lemma {:induction false} FoundIsKept(fields: seq<Field>, masked: string, secrets: set<string>) returns (name: string)
    requires FindMasked(fields, masked, secrets).Some?
    ensures Mask(name, secrets, 0) == masked && KeepsName(fields, name, secrets)
    ensures Find(fields, name) == FindMasked(fields, masked, secrets)
  {
    hide Mask;
    var front, last := fields[..|fields| - 1], fields[|fields| - 1];
    if Mask(last.key, secrets, 0) == masked {
      name := last.key;
      assert LastMasked(fields, name, secrets, |fields| - 1);
    } else {
      name := FoundIsKept(front, masked, secrets);
      var i :| LastMasked(front, name, secrets, i);
      assert LastMasked(fields, name, secrets, i);
    }
  }

  function Names(fields: seq<Field>): seq<string> {
    if fields == [] then [] else [fields[0].key] + Names(fields[1..])
  }

  /** The masked names, each at its first place. */
  ghost function FirstNames(fields: seq<Field>, secrets: set<string>): seq<string> {
    if fields == [] then []
    else
      var names, next := FirstNames(fields[..|fields| - 1], secrets), Mask(fields[|fields| - 1].key, secrets, 0);
      if next in names then names else names + [next]
  }

  lemma {:induction false} PutNames(fields: seq<Field>, key: string, value: Value)
    ensures Names(Put(fields, key, value)) == if key in Names(fields) then Names(fields) else Names(fields) + [key]
  {
    if fields == [] {
      assert [Field(key, value)][1..] == [];
    } else {
      PutNames(fields[1..], key, value);
    }
  }

  /** The properties of a redacted object come in the order in which the input first
      has their names. */
  lemma {:induction false} NamesInOrder(fields: seq<Field>, secrets: set<string>)
    ensures Names(RedactFields(fields, secrets)) == FirstNames(fields, secrets)
  {
    if fields != [] {
      hide Mask, RedactDeep;
      var front, last := fields[..|fields| - 1], fields[|fields| - 1];
      NamesInOrder(front, secrets);
      PutNames(RedactFields(front, secrets), Mask(last.key, secrets, 0), RedactDeep(last.value, secrets));
    }
  }

  // ---------- The shape is kept, leaf by leaf ----------

  lemma ChildRedacted(value: Value, step: Step, secrets: set<string>)
    requires Child(value, step).Some? && Unshadowed(value, [step], secrets)
    ensures Child(RedactDeep(value, secrets), MaskedStep(step, secrets)) == Redacted(Child(value, step), secrets)
  {
    hide Mask;
    if value.Record? {
      KeptIsFound(value.fields, step.name, secrets);
      FindRedacted(value.fields, Mask(step.name, secrets, 0), secrets);
    }
  }

  /** Whatever a path leads to, its redaction stands at the masked path, unless a
      later property of the same masked name has taken its place. */
  lemma {:induction false} PathRedacted(value: Value, path: seq<Step>, secrets: set<string>)
    requires At(value, path).Some? && Unshadowed(value, path, secrets)
    ensures At(RedactDeep(value, secrets), MaskedPath(path, secrets)) == Redacted(At(value, path), secrets)
    decreases |path|
  {
    if path != [] {
      hide Mask, RedactDeep;
      assert [path[0]][1..] == [];
      ChildRedacted(value, path[0], secrets);
      PathRedacted(Child(value, path[0]).value, path[1..], secrets);
      assert MaskedPath(path, secrets)[1..] == MaskedPath(path[1..], secrets);
    }
  }

  lemma ChildOrigin(value: Value, out: Step, secrets: set<string>) returns (step: Step)
    requires Child(RedactDeep(value, secrets), out).Some?
    ensures MaskedStep(step, secrets) == out && Child(value, step).Some? && Unshadowed(value, [step], secrets)
    ensures Child(RedactDeep(value, secrets), out) == Redacted(Child(value, step), secrets)
  {
    hide Mask;
    if value.Record? {
      FindRedacted(value.fields, out.name, secrets);
      var name := FoundIsKept(value.fields, out.name, secrets);
      step := Property(name);
    } else {
      step := out;
    }
  }

  /** And nothing else is there: everything in the result stands at the masked path
      of something it is the redaction of. */
  lemma {:induction false} PathOrigin(value: Value, out: seq<Step>, secrets: set<string>) returns (path: seq<Step>)
    requires At(RedactDeep(value, secrets), out).Some?
    ensures MaskedPath(path, secrets) == out && At(value, path).Some? && Unshadowed(value, path, secrets)
    ensures At(RedactDeep(value, secrets), out) == Redacted(At(value, path), secrets)
    decreases |out|
  {
    if out == [] {
      path := [];
    } else {
      hide Mask, RedactDeep;
      var step := ChildOrigin(value, out[0], secrets);
      var rest := PathOrigin(Child(value, step).value, out[1..], secrets);
      path := [step] + rest;
      assert path[1..] == rest;
    }
  }

  /** A leaf: what it is and how it is spelled. */
  ghost predicate LeafRedacted(leaf: Value, out: Value, secrets: set<string>) {
    match leaf
    case Text(text) => out == Text(Mask(text, secrets, 0))
    case Number(spelling) => out == if Mask(spelling, secrets, 0) == spelling then leaf else Text("[REDACTED]")
    case Boolean(truth) =>
      var spelling := if truth then "true" else "false";
      out == if Mask(spelling, secrets, 0) == spelling then leaf else Text("[REDACTED]")
    case Null => out == Null
    case List(items) => out.List? && |out.items| == |items|
    case Record(fields) =>
      && out.Record? && DistinctKeys(out.fields)
      && forall name :: Find(out.fields, name).Some? <==> exists i :: 0 <= i < |fields| && Mask(fields[i].key, secrets, 0) == name
  }

  /** The shape is kept and every leaf is masked: at the masked path stands a text
      masked like any text, a number or boolean that is itself unless its spelling
      changes, null for null, a list of the same length, an object with exactly the
      masked names. */
  lemma ShapeKept(value: Value, path: seq<Step>, secrets: set<string>)
    requires At(value, path).Some? && Unshadowed(value, path, secrets)
    ensures At(RedactDeep(value, secrets), MaskedPath(path, secrets)).Some?
    ensures LeafRedacted(At(value, path).value, At(RedactDeep(value, secrets), MaskedPath(path, secrets)).value, secrets)
  {
    PathRedacted(value, path, secrets);
    OneRedacted(At(value, path).value, secrets);
  }

  lemma OneRedacted(value: Value, secrets: set<string>)
    ensures LeafRedacted(value, RedactDeep(value, secrets), secrets)
  {
    hide Mask;
    if value.Record? {
      RedactedKeysDistinct(value.fields, secrets);
      forall name: string
        ensures Find(RedactFields(value.fields, secrets), name).Some? <==>
                exists i :: 0 <= i < |value.fields| && Mask(value.fields[i].key, secrets, 0) == name
      {
        FindRedacted(value.fields, name, secrets);
        MaskedNames(value.fields, name, secrets);
      }
    }
  }

  lemma {:induction false} MaskedNames(fields: seq<Field>, name: string, secrets: set<string>)
    ensures FindMasked(fields, name, secrets).Some? <==> exists i :: 0 <= i < |fields| && Mask(fields[i].key, secrets, 0) == name
  {
    hide Mask;
    if fields != [] {
      var front := fields[..|fields| - 1];
      MaskedNames(front, name, secrets);
      if i :| 0 <= i < |front| && Mask(front[i].key, secrets, 0) == name { assert fields[i] == front[i]; }
    }
  }

  /** Empty and repeated secrets change nothing. */
  lemma {:induction false} EmptySecretsAside(value: Value, secrets: seq<string>)
    ensures RedactDeep(value, SetOf(UniqueSecrets(secrets))) == RedactDeep(value, SetOf(secrets))
    decreases value, 0
  {
    var unique, all := SetOf(UniqueSecrets(secrets)), SetOf(secrets);
    forall text: string ensures Mask(text, unique, 0) == Mask(text, all, 0) {
      MaskIgnoresEmptySecret(text, all, unique, 0);
    }
    hide Mask;
    match value
    case List(items) =>
      forall i | 0 <= i < |items| ensures RedactDeep(items[i], unique) == RedactDeep(items[i], all) {
        EmptySecretsAside(items[i], secrets);
      }
    case Record(fields) => EmptySecretsAsideFields(fields, secrets);
    case _ =>
  }

  lemma {:induction false} EmptySecretsAsideFields(fields: seq<Field>, secrets: seq<string>)
    ensures RedactFields(fields, SetOf(UniqueSecrets(secrets))) == RedactFields(fields, SetOf(secrets))
    decreases fields
  {
    if fields != [] {
      var last := fields[|fields| - 1];
      MaskIgnoresEmptySecret(last.key, SetOf(secrets), SetOf(UniqueSecrets(secrets)), 0);
      hide Mask;
      EmptySecretsAsideFields(fields[..|fields| - 1], secrets);
      EmptySecretsAside(last.value, secrets);
    }
  }

  /** The recursive walk, with the array map and the key loop as loops. */
  method RedactUnknownDeep(value: Value, secrets: seq<string>) returns (r: Value)
    requires "" !in secrets
    ensures r == RedactDeep(value, SetOf(secrets))
    decreases value
  {
    ghost var known := SetOf(secrets);
    match value
    case Text(text) =>
      var masked := RedactUnique(text, secrets);
      return Text(masked);
    case Number(spelling) =>
      var masked := RedactUnique(spelling, secrets);
      return if masked == spelling then value else Text(MARKER);
    case Boolean(truth) =>
      var masked := RedactUnique(BooleanSpelling(truth), secrets);
      return if masked == BooleanSpelling(truth) then value else Text(MARKER);
    case Null =>
      return value;
    case List(items) =>
      var done: seq<Value> := [];
      for k := 0 to |items|
        invariant |done| == k
        invariant forall i | 0 <= i < k :: done[i] == RedactDeep(items[i], known)
      {
        var entry := RedactUnknownDeep(items[k], secrets);
        done := done + [entry];
      }
      return List(done);
    case Record(fields) =>
      var redacted: seq<Field> := [];
      for k := 0 to |fields|
        invariant redacted == RedactFields(fields[..k], known)
      {
        var key := RedactUnique(fields[k].key, secrets);
        var entry := RedactUnknownDeep(fields[k].value, secrets);
        redacted := Put(redacted, key, entry);
        assert fields[..k + 1][..k] == fields[..k];
      }
      assert fields[..|fields|] == fields;
      return Record(redacted);
  }

  /** The entry point. */
  method RedactValueDeep(value: Value, redactSecrets: seq<string>) returns (r: Value)
    ensures r == RedactDeep(value, SetOf(redactSecrets))
  {
    r := RedactUnknownDeep(value, UniqueSecrets(redactSecrets));
    EmptySecretsAside(value, redactSecrets);
  }
}
