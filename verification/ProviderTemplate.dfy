/** Provider command templates: `src/provider-command-template.ts`.

    A command is text with tags `{{f}}`, `{{#f}}` and `{{/f}}`.  The parser keeps
    a stack of open sections; the grammar it is checked against is the shape of
    the printed tree. */
module ProviderTemplate {
  import opened Wrappers
  import opened Strings

  // ---------- Tags and tokens ----------

  predicate KnownField(field: string) {
    field == "model" || field == "effort" || field == "permission_mode"
  }

  /** One match of the tag pattern: an optional slash, an optional hash, a field. */
  datatype Tag = Tag(closing: bool, hash: bool, field: string)

  datatype Token = Literal(text: string) | Mark(tag: Tag)

  predicate IsBrace(c: char) { c == '{' || c == '}' }
  predicate NoBrace(c: char) { !IsBrace(c) }

  function TagBody(tag: Tag): string {
    (if tag.closing then "/" else "") + (if tag.hash then "#" else "") + tag.field
  }

  function PrintTag(tag: Tag): string {
    "{{" + TagBody(tag) + "}}"
  }

  /** The captures of the tag pattern, for the text between the braces. */
  function ReadTag(body: string): (tag: Tag)
    ensures TagBody(tag) == body
  {
    var closing := body != "" && body[0] == '/';
    var rest := if closing then body[1..] else body;
    var hash := rest != "" && rest[0] == '#';
    Tag(closing, hash, if hash then rest[1..] else rest)
  }

  /** Whether the whole match contains a hash or starts with a slash. */
  predicate IsSection(tag: Tag) {
    '#' in PrintTag(tag) || tag.closing
  }

  datatype TagMatch = TagMatch(tag: Tag, length: nat)

  /** The tag pattern, anchored at the start of `s`. */
  function MatchTag(s: string): (m: Option<TagMatch>)
    ensures m.Some? ==> 4 <= m.value.length <= |s| && PrintTag(m.value.tag) == s[..m.value.length]
  {
    if |s| < 2 || s[0] != '{' || s[1] != '{' then None
    else
      var n := RunLength(s[2..], NoBrace);
      if n + 4 <= |s| && s[n + 2] == '}' && s[n + 3] == '}' then
        assert s[2..n + 2] == s[2..][..n];
        assert s[..n + 4] == "{{" + s[2..n + 2] + "}}";
        Some(TagMatch(ReadTag(s[2..n + 2]), n + 4))
      else None
  }

  /** The index of the leftmost tag. */
  function FirstTag(s: string): (i: Option<nat>)
    ensures i.Some? ==> i.value < |s| && MatchTag(s[i.value..]).Some?
  {
    if s == "" then None
    else if MatchTag(s).Some? then Some(0)
    else
      match FirstTag(s[1..])
      case None => None
      case Some(i) =>
        assert s[1..][i..] == s[i + 1..];
        Some(i + 1)
  }

  predicate TagFree(s: string) { FirstTag(s).None? }

  function LiteralIfAny(text: string): seq<Token> {
    if text == "" then [] else [Literal(text)]
  }

  /** The left-to-right, non-overlapping matches and the text between them. */
  function Lex(s: string): seq<Token> {
    match FirstTag(s)
    case None => LiteralIfAny(s)
    case Some(i) =>
      var m := MatchTag(s[i..]).value;
      LiteralIfAny(s[..i]) + [Mark(m.tag)] + Lex(s[i..][m.length..])
  }

  function PrintToken(token: Token): string {
    match token
    case Literal(text) => text
    case Mark(tag) => PrintTag(tag)
  }

  function PrintTokens(tokens: seq<Token>): string {
    if tokens == [] then "" else PrintToken(tokens[0]) + PrintTokens(tokens[1..])
  }

  lemma {:induction false} PrintTokensConcat(a: seq<Token>, b: seq<Token>)
    ensures PrintTokens(a + b) == PrintTokens(a) + PrintTokens(b)
  {
    if a == [] {
      assert a + b == b;
    } else {
      assert (a + b)[1..] == a[1..] + b;
      PrintTokensConcat(a[1..], b);
    }
  }

  lemma PrintTextTag(text: string, tag: Tag, after: seq<Token>)
    ensures PrintTokens(LiteralIfAny(text) + [Mark(tag)] + after) == text + (PrintTag(tag) + PrintTokens(after))
  {
    var tokens := [Mark(tag)] + after;
    assert tokens[1..] == after;
    assert LiteralIfAny(text) + [Mark(tag)] + after == LiteralIfAny(text) + tokens;
    if text == "" {
      assert LiteralIfAny(text) + tokens == tokens;
      assert text + PrintTokens(tokens) == PrintTokens(tokens);
    } else {
      assert (LiteralIfAny(text) + tokens)[1..] == tokens;
    }
  }

  lemma PrintPieces(s: string, i: nat, m: TagMatch, after: seq<Token>, all: seq<Token>)
    requires i + m.length <= |s| && PrintTag(m.tag) == s[i..][..m.length]
    requires PrintTokens(after) == s[i..][m.length..]
    requires all == LiteralIfAny(s[..i]) + [Mark(m.tag)] + after
    ensures PrintTokens(all) == s
  {
    PrintTextTag(s[..i], m.tag, after);
    Rejoin(s, i, m.length);
  }

  lemma Rejoin(s: string, i: nat, n: nat)
    requires i + n <= |s|
    ensures s == s[..i] + (s[i..][..n] + s[i..][n..])
  {
    assert s[i..] == s[i..][..n] + s[i..][n..];
    assert s == s[..i] + s[i..];
  }

  /** Nothing of the command is lost between the tokens. */
  lemma {:induction false} LexLossless(s: string)
    ensures PrintTokens(Lex(s)) == s
    decreases |s|
  {
    match FirstTag(s)
    case None =>
    case Some(i) =>
      var m := MatchTag(s[i..]).value;
      var rest := s[i..][m.length..];
      LexLossless(rest);
      PrintPieces(s, i, m, Lex(rest), Lex(s));
  }

  // ---------- Trees ----------

  datatype Node =
    | Text(text: string)
    | Value(field: string)
    | Section(field: string, children: seq<Node>)

  function Open(field: string): Token { Mark(Tag(false, true, field)) }
  function Close(field: string): Token { Mark(Tag(true, false, field)) }

  function NodeTokens(node: Node): seq<Token>
    decreases node, 0
  {
    match node
    case Text(text) => [Literal(text)]
    case Value(field) => [Mark(Tag(false, false, field))]
    case Section(field, children) => [Open(field)] + TokensOf(children) + [Close(field)]
  }

  /** The printed tree, as tokens: the grammar of the template language. */
  function TokensOf(nodes: seq<Node>): seq<Token>
    decreases nodes, 0
  {
    if nodes == [] then [] else NodeTokens(nodes[0]) + TokensOf(nodes[1..])
  }

  function PrintNodes(nodes: seq<Node>): string { PrintTokens(TokensOf(nodes)) }

  /** All fields are known and no section lies inside one of its own field. */
  predicate WellNested(nodes: seq<Node>, open: set<string>)
    decreases nodes, 0
  {
    forall i | 0 <= i < |nodes| :: NodeWellNested(nodes[i], open)
  }

  predicate NodeWellNested(node: Node, open: set<string>)
    decreases node, 0
  {
    match node
    case Text(_) => true
    case Value(field) => KnownField(field)
    case Section(field, children) => KnownField(field) && field !in open && WellNested(children, open + {field})
  }

  lemma {:induction false} TokensOfConcat(a: seq<Node>, b: seq<Node>)
    ensures TokensOf(a + b) == TokensOf(a) + TokensOf(b)
  {
    if a == [] {
      assert a + b == b;
    } else {
      assert (a + b)[1..] == a[1..] + b;
      TokensOfConcat(a[1..], b);
    }
  }

  lemma TokensOfOne(nodes: seq<Node>, node: Node)
    ensures TokensOf(nodes + [node]) == TokensOf(nodes) + NodeTokens(node)
  {
    TokensOfConcat(nodes, [node]);
    assert [node][1..] == [];
    assert TokensOf([node]) == NodeTokens(node) + [];
  }

  // ---------- The parser ----------

  datatype TemplateError =
    | Unrecognized(field: string)
    | Unbalanced(field: string)
    | Nested(field: string)

  datatype Frame = Frame(field: string, children: seq<Node>)

  datatype State = State(root: seq<Node>, stack: seq<Frame>)

  /** Pushes onto the children of the innermost open section, or the root. */
  function AddChild(state: State, node: Node): State {
    if state.stack == [] then State(state.root + [node], [])
    else
      var n := |state.stack| - 1;
      var top := state.stack[n];
      State(state.root, state.stack[..n] + [Frame(top.field, top.children + [node])])
  }

  function Step(state: State, token: Token): Result<State, TemplateError> {
    match token
    case Literal(text) => Ok(AddChild(state, Text(text)))
    case Mark(tag) =>
      if !KnownField(tag.field) then Err(Unrecognized(tag.field))
      else if !IsSection(tag) then Ok(AddChild(state, Value(tag.field)))
      else if tag.closing then
        if state.stack == [] || state.stack[|state.stack| - 1].field != tag.field then Err(Unbalanced(tag.field))
        else
          var n := |state.stack| - 1;
          Ok(AddChild(State(state.root, state.stack[..n]), Section(tag.field, state.stack[n].children)))
      else if OpenIn(state.stack, tag.field) then Err(Nested(tag.field))
      else Ok(State(state.root, state.stack + [Frame(tag.field, [])]))
  }

  predicate OpenIn(stack: seq<Frame>, field: string) {
    exists i :: 0 <= i < |stack| && stack[i].field == field
  }

  function Run(state: State, tokens: seq<Token>): Result<State, TemplateError>
    decreases |tokens|
  {
    if tokens == [] then Ok(state)
    else
      match Step(state, tokens[0])
      case Err(e) => Err(e)
      case Ok(next) => Run(next, tokens[1..])
  }

  function Finish(r: Result<State, TemplateError>): Result<seq<Node>, TemplateError> {
    match r
    case Err(e) => Err(e)
    case Ok(state) =>
      if state.stack != [] then Err(Unbalanced(state.stack[|state.stack| - 1].field)) else Ok(state.root)
  }

  const EMPTY := State([], [])

  function Parse(command: string): Result<seq<Node>, TemplateError> {
    Finish(Run(EMPTY, Lex(command)))
  }

  lemma {:induction false} RunConcat(state: State, a: seq<Token>, b: seq<Token>)
    ensures Run(state, a + b) == match Run(state, a) case Err(e) => Err(e) case Ok(next) => Run(next, b)
    decreases |a|
  {
    if a == [] {
      assert a + b == b;
    } else {
      assert (a + b)[1..] == a[1..] + b;
      match Step(state, a[0])
      case Err(_) =>
      case Ok(next) => RunConcat(next, a[1..], b);
    }
  }

  function WithText(state: State, text: string): State {
    if text == "" then state else AddChild(state, Text(text))
  }

  lemma RunLiteral(state: State, text: string, rest: seq<Token>)
    ensures Run(state, LiteralIfAny(text) + rest) == Run(WithText(state, text), rest)
  {
    if text == "" {
      assert LiteralIfAny(text) + rest == rest;
    } else {
      assert (LiteralIfAny(text) + rest)[1..] == rest;
    }
  }

  /** Reading one literal and the tag after it. */
  lemma RunToNextTag(state: State, s: string, i: nat, m: TagMatch)
    requires FirstTag(s) == Some(i) && MatchTag(s[i..]) == Some(m)
    ensures Run(state, Lex(s)) ==
            match Step(WithText(state, s[..i]), Mark(m.tag))
            case Err(e) => Err(e)
            case Ok(next) => Run(next, Lex(s[i..][m.length..]))
  {
    var after := Lex(s[i..][m.length..]);
    assert Lex(s) == LiteralIfAny(s[..i]) + ([Mark(m.tag)] + after);
    RunLiteral(state, s[..i], [Mark(m.tag)] + after);
    assert ([Mark(m.tag)] + after)[1..] == after;
  }

  /** What is left after the last tag. */
  lemma RunTrailing(state: State, s: string)
    requires TagFree(s)
    ensures Finish(Run(state, Lex(s))) ==
            if state.stack != [] then Err(Unbalanced(state.stack[|state.stack| - 1].field))
            else Ok(WithText(state, s).root)
  {
    RunLiteral(state, s, []);
    assert LiteralIfAny(s) + [] == Lex(s);
  }

  /** One match of the tag pattern, seen from the whole command. */
  lemma NextMatch(state: State, command: string, lastIndex: nat, i: nat, m: TagMatch)
    requires lastIndex <= |command| && FirstTag(command[lastIndex..]) == Some(i)
    requires MatchTag(command[lastIndex..][i..]) == Some(m)
    ensures lastIndex + i + m.length <= |command|
    ensures Run(state, Lex(command[lastIndex..])) ==
            match Step(WithText(state, command[lastIndex..][..i]), Mark(m.tag))
            case Err(e) => Err(e)
            case Ok(next) => Run(next, Lex(command[lastIndex + i + m.length..]))
  {
    hide *;
    DropDrops(command, lastIndex, i, m.length);
    RunToNextTag(state, command[lastIndex..], i, m);
  }

  lemma DropDrops(s: string, a: nat, b: nat, c: nat)
    requires a <= |s| && b <= |s| - a && c <= |s| - a - b
    ensures s[a..][b..][c..] == s[a + b + c..]
  {
  }

  lemma ParseIsRun(command: string)
    ensures Parse(command) == Finish(Run(EMPTY, Lex(command[0..])))
    ensures forall e :: Finish(Err(e)) == Err(e)
  {
    assert command[0..] == command;
  }

  /** The single pass of the source: the matches of the tag pattern drive a stack
      of sections and a list of root nodes. */
  method ParseTemplate(command: string) returns (r: Result<seq<Node>, TemplateError>)
    ensures r == Parse(command)
  {
    hide Run, Lex, Step, AddChild, Finish, FirstTag, MatchTag, Parse;
    ParseIsRun(command);
    var state := EMPTY;
    var lastIndex: nat := 0;
    var at := FirstTag(command[lastIndex..]);
    while at.Some?
      invariant lastIndex <= |command| && at == FirstTag(command[lastIndex..])
      invariant Run(state, Lex(command[lastIndex..])) == Run(EMPTY, Lex(command[0..]))
      decreases |command| - lastIndex
    {
      var m := MatchTag(command[lastIndex..][at.value..]).value;
      NextMatch(state, command, lastIndex, at.value, m);
      var literal := command[lastIndex..][..at.value];
      if |literal| > 0 {
        state := AddChild(state, Text(literal));
      }
      lastIndex := lastIndex + at.value + m.length;
      var next := Step(state, Mark(m.tag));
      if next.Err? {
        return Err(next.error);
      }
      state := next.value;
      at := FirstTag(command[lastIndex..]);
    }
    var trailing := command[lastIndex..];
    RunTrailing(state, trailing);
    if |state.stack| > 0 {
      return Err(Unbalanced(state.stack[|state.stack| - 1].field));
    }
    if |trailing| > 0 {
      state := AddChild(state, Text(trailing));
    }
    return Ok(state.root);
  }

  // ---------- The parser accepts exactly the grammar ----------

  /** A closer may be written with or without a hash. */
  function NormalToken(token: Token): Token {
    if token.Mark? && token.tag.closing then Mark(Tag(true, false, token.tag.field)) else token
  }

  function Normalize(tokens: seq<Token>): seq<Token> {
    seq(|tokens|, i requires 0 <= i < |tokens| => NormalToken(tokens[i]))
  }

  lemma {:induction false} RunNormalize(state: State, tokens: seq<Token>)
    ensures Run(state, Normalize(tokens)) == Run(state, tokens)
    decreases |tokens|
  {
    if tokens != [] {
      assert Normalize(tokens)[1..] == Normalize(tokens[1..]);
      match Step(state, tokens[0])
      case Err(_) =>
      case Ok(next) => RunNormalize(next, tokens[1..]);
    }
  }

  function OpenFields(stack: seq<Frame>): set<string> {
    if stack == [] then {} else OpenFields(stack[..|stack| - 1]) + {stack[|stack| - 1].field}
  }

  lemma {:induction false} OpenFieldsMembers(stack: seq<Frame>, field: string)
    ensures field in OpenFields(stack) <==> OpenIn(stack, field)
  {
    if stack != [] {
      var front := stack[..|stack| - 1];
      OpenFieldsMembers(front, field);
      if OpenIn(front, field) {
        var i :| 0 <= i < |front| && front[i].field == field;
        assert stack[i].field == field;
      }
      if OpenIn(stack, field) && stack[|stack| - 1].field != field {
        var i :| 0 <= i < |stack| && stack[i].field == field;
        assert front[i].field == field;
      }
    }
  }

  function AddChildren(state: State, nodes: seq<Node>): State
    decreases |nodes|
  {
    if nodes == [] then state else AddChildren(AddChild(state, nodes[0]), nodes[1..])
  }

  lemma {:induction false} AddChildrenToTop(state: State, top: Frame, nodes: seq<Node>)
    ensures AddChildren(State(state.root, state.stack + [top]), nodes)
         == State(state.root, state.stack + [Frame(top.field, top.children + nodes)])
    decreases |nodes|
  {
    if nodes == [] {
      assert top.children + nodes == top.children;
    } else {
      var next := Frame(top.field, top.children + [nodes[0]]);
      assert (state.stack + [top])[..|state.stack|] == state.stack;
      AddChildrenToTop(state, next, nodes[1..]);
      assert next.children + nodes[1..] == top.children + nodes;
    }
  }

  lemma {:induction false} AddChildrenToRoot(root: seq<Node>, nodes: seq<Node>)
    ensures AddChildren(State(root, []), nodes) == State(root + nodes, [])
    decreases |nodes|
  {
    if nodes == [] {
      assert root + nodes == root;
    } else {
      AddChildrenToRoot(root + [nodes[0]], nodes[1..]);
      assert root + [nodes[0]] + nodes[1..] == root + nodes;
    }
  }

  lemma AddChildFields(state: State, node: Node)
    ensures OpenFields(AddChild(state, node).stack) == OpenFields(state.stack)
  {
    if state.stack != [] {
      var n := |state.stack| - 1;
      assert AddChild(state, node).stack[..n] == state.stack[..n];
    }
  }

  /** Running over the tokens of a well-nested forest adds its nodes. */
  lemma {:induction false} RunForest(state: State, nodes: seq<Node>)
    requires WellNested(nodes, OpenFields(state.stack))
    ensures Run(state, TokensOf(nodes)) == Ok(AddChildren(state, nodes))
    decreases nodes, 1
  {
    if nodes != [] {
      assert NodeWellNested(nodes[0], OpenFields(state.stack));
      RunNode(state, nodes[0]);
      var next := AddChild(state, nodes[0]);
      AddChildFields(state, nodes[0]);
      RunForest(next, nodes[1..]);
      RunConcat(state, NodeTokens(nodes[0]), TokensOf(nodes[1..]));
    }
  }

  lemma {:induction false} RunNode(state: State, node: Node)
    requires NodeWellNested(node, OpenFields(state.stack))
    ensures Run(state, NodeTokens(node)) == Ok(AddChild(state, node))
    decreases node, 1
  {
    if node.Section? {
      var field, children := node.field, node.children;
      var frame := Frame(field, []);
      var inner := State(state.root, state.stack + [frame]);
      assert inner.stack[..|state.stack|] == state.stack;
      OpenFieldsMembers(state.stack, field);
      RunForest(inner, children);
      AddChildrenToTop(state, frame, children);
      assert [] + children == children;
      var full := State(state.root, state.stack + [Frame(field, children)]);
      RunOne(state, Open(field));
      assert '#' in PrintTag(Open(field).tag) by { assert PrintTag(Open(field).tag)[2] == '#'; }
      assert Step(state, Open(field)) == Ok(inner);
      RunOne(full, Close(field));
      assert full.stack[..|state.stack|] == state.stack;
      RunConcat(state, [Open(field)] + TokensOf(children), [Close(field)]);
      RunConcat(state, [Open(field)], TokensOf(children));
    } else {
      RunOne(state, NodeTokens(node)[0]);
      if node.Value? { PlainTagHasNoHash(node.field); }
    }
  }

  lemma PlainTagHasNoHash(field: string)
    requires KnownField(field)
    ensures !IsSection(Tag(false, false, field))
  {
    assert '#' !in field;
    assert TagBody(Tag(false, false, field)) == field;
  }

  lemma RunOne(state: State, token: Token)
    ensures Run(state, [token]) == Step(state, token)
  {
    assert [token][1..] == [];
  }

  /** The tokens read so far, recovered from the parser's state. */
  function Unfinished(state: State): seq<Token> {
    TokensOf(state.root) + StackTokens(state.stack)
  }

  function StackTokens(stack: seq<Frame>): seq<Token> {
    if stack == [] then []
    else
      var n := |stack| - 1;
      StackTokens(stack[..n]) + [Open(stack[n].field)] + TokensOf(stack[n].children)
  }

  /** The open sections are known, distinct, and their contents well nested. */
  predicate Consistent(state: State) {
    WellNested(state.root, {}) && ConsistentStack(state.stack)
  }

  predicate ConsistentStack(stack: seq<Frame>) {
    stack == [] ||
    var n := |stack| - 1;
      && ConsistentStack(stack[..n])
      && KnownField(stack[n].field)
      && stack[n].field !in OpenFields(stack[..n])
      && WellNested(stack[n].children, OpenFields(stack[..n]) + {stack[n].field})
  }

  lemma WellNestedOneMore(nodes: seq<Node>, node: Node, open: set<string>)
    requires WellNested(nodes, open) && NodeWellNested(node, open)
    ensures WellNested(nodes + [node], open)
  {
    forall i | 0 <= i < |nodes + [node]| ensures NodeWellNested((nodes + [node])[i], open) {
      if i < |nodes| { assert NodeWellNested(nodes[i], open); }
    }
  }

  lemma AddChildKeeps(state: State, node: Node)
    requires Consistent(state) && NodeWellNested(node, OpenFields(state.stack))
    ensures Consistent(AddChild(state, node))
    ensures Unfinished(AddChild(state, node)) == Unfinished(state) + NodeTokens(node)
  {
    if state.stack == [] {
      TokensOfOne(state.root, node);
      WellNestedOneMore(state.root, node, {});
      assert Unfinished(state) == TokensOf(state.root) + [];
    } else {
      var n := |state.stack| - 1;
      assert state.stack == state.stack[..n] + [state.stack[n]];
      AddToTopKeeps(state.root, state.stack[..n], state.stack[n], node);
    }
  }

  lemma AddToTopKeeps(root: seq<Node>, front: seq<Frame>, top: Frame, node: Node)
    requires Consistent(State(root, front + [top])) && NodeWellNested(node, OpenFields(front + [top]))
    ensures var next := State(root, front + [Frame(top.field, top.children + [node])]);
      Consistent(next) && Unfinished(next) == Unfinished(State(root, front + [top])) + NodeTokens(node)
  {
    PushFrame(front, top);
    PushFrame(front, Frame(top.field, top.children + [node]));
    WellNestedOneMore(top.children, node, OpenFields(front) + {top.field});
    TokensOfOne(top.children, node);
    AppendGroups(TokensOf(root), StackTokens(front), [Open(top.field)], TokensOf(top.children), NodeTokens(node));
  }

  lemma AppendGroups<T>(a: seq<T>, b: seq<T>, c: seq<T>, d: seq<T>, e: seq<T>)
    ensures a + (b + c + (d + e)) == a + (b + c + d) + e
  {
  }

  lemma PushFrame(front: seq<Frame>, frame: Frame)
    ensures StackTokens(front + [frame]) == StackTokens(front) + [Open(frame.field)] + TokensOf(frame.children)
    ensures OpenFields(front + [frame]) == OpenFields(front) + {frame.field}
    ensures ConsistentStack(front + [frame]) <==>
              ConsistentStack(front) && KnownField(frame.field) && frame.field !in OpenFields(front)
              && WellNested(frame.children, OpenFields(front) + {frame.field})
  {
    assert (front + [frame])[..|front|] == front;
  }

  lemma StepKeeps(state: State, token: Token)
    requires Consistent(state) && Step(state, token).Ok?
    ensures Consistent(Step(state, token).value)
    ensures Unfinished(Step(state, token).value) == Unfinished(state) + [NormalToken(token)]
  {
    var next := Step(state, token).value;
    match token
    case Literal(text) => AddChildKeeps(state, Text(text));
    case Mark(tag) =>
      if !IsSection(tag) {
        SectionTagShape(tag);
        AddChildKeeps(state, Value(tag.field));
      } else if tag.closing {
        CloseKeeps(state, tag.field);
      } else {
        SectionTagShape(tag);
        OpenKeeps(state, tag.field);
      }
  }

  lemma SectionTagShape(tag: Tag)
    requires KnownField(tag.field) && !tag.closing
    ensures tag.hash <==> IsSection(tag)
  {
    if tag.hash {
      assert PrintTag(tag)[2] == '#';
    } else {
      PlainTagHasNoHash(tag.field);
    }
  }

  lemma OpenKeeps(state: State, field: string)
    requires Consistent(state) && KnownField(field) && !OpenIn(state.stack, field)
    ensures var next := State(state.root, state.stack + [Frame(field, [])]);
      Consistent(next) && Unfinished(next) == Unfinished(state) + [Open(field)]
  {
    OpenFieldsMembers(state.stack, field);
    PushFrame(state.stack, Frame(field, []));
    assert TokensOf([]) == [];
    AppendGroups(TokensOf(state.root), StackTokens(state.stack), [], [], [Open(field)]);
    assert StackTokens(state.stack) + [] + [] == StackTokens(state.stack);
    assert StackTokens(state.stack) + [] + ([] + [Open(field)]) == StackTokens(state.stack) + [Open(field)] + [];
  }

  lemma CloseKeeps(state: State, field: string)
    requires Consistent(state) && state.stack != [] && state.stack[|state.stack| - 1].field == field
    ensures var n := |state.stack| - 1;
      var next := AddChild(State(state.root, state.stack[..n]), Section(field, state.stack[n].children));
      Consistent(next) && Unfinished(next) == Unfinished(state) + [Close(field)]
  {
    var n := |state.stack| - 1;
    var front, top := state.stack[..n], state.stack[n];
    var outer := State(state.root, front);
    assert state.stack == front + [top];
    PushFrame(front, top);
    AddChildKeeps(outer, Section(field, top.children));
    CloseGroups(TokensOf(state.root), StackTokens(front), [Open(field)], TokensOf(top.children), [Close(field)]);
  }

  lemma CloseGroups<T>(a: seq<T>, b: seq<T>, c: seq<T>, d: seq<T>, e: seq<T>)
    ensures a + b + (c + d + e) == a + (b + c + d) + e
  {
  }

  lemma NormalizeHead(tokens: seq<Token>, before: seq<Token>)
    requires tokens != []
    ensures before + [NormalToken(tokens[0])] + Normalize(tokens[1..]) == before + Normalize(tokens)
  {
    assert Normalize(tokens) == [NormalToken(tokens[0])] + Normalize(tokens[1..]);
  }

  lemma {:induction false} RunKeeps(state: State, tokens: seq<Token>)
    requires Consistent(state) && Run(state, tokens).Ok?
    ensures Consistent(Run(state, tokens).value)
    ensures Unfinished(Run(state, tokens).value) == Unfinished(state) + Normalize(tokens)
    decreases |tokens|
  {
    if tokens == [] {
      assert Unfinished(state) + [] == Unfinished(state);
    } else {
      var next := Step(state, tokens[0]).value;
      StepKeeps(state, tokens[0]);
      RunKeeps(next, tokens[1..]);
      NormalizeHead(tokens, Unfinished(state));
    }
  }

  /** What a successful parse returns: a well-nested forest whose tokens are the
      command's, up to the optional hash in a closer. */
  lemma ParseSound(command: string)
    requires Parse(command).Ok?
    ensures WellNested(Parse(command).value, {})
    ensures TokensOf(Parse(command).value) == Normalize(Lex(command))
  {
    assert OpenFields([]) == {};
    assert Consistent(EMPTY) && Unfinished(EMPTY) == [];
    RunKeeps(EMPTY, Lex(command));
    var state := Run(EMPTY, Lex(command)).value;
    assert Unfinished(state) == TokensOf(state.root) + [];
    assert [] + Normalize(Lex(command)) == Normalize(Lex(command));
  }

  /** Every command whose tokens spell a well-nested forest parses to it. */
  lemma ParseComplete(command: string, nodes: seq<Node>)
    requires WellNested(nodes, {}) && TokensOf(nodes) == Normalize(Lex(command))
    ensures Parse(command) == Ok(nodes)
  {
    assert OpenFields([]) == {};
    RunForest(EMPTY, nodes);
    AddChildrenToRoot([], nodes);
    assert [] + nodes == nodes;
    RunNormalize(EMPTY, Lex(command));
  }

  /** The parser succeeds exactly on the commands whose tags are all known and
      whose section tags are the printed form of a forest without self-nesting. */
  lemma ParseAccepts(command: string)
    ensures Parse(command).Ok? <==> exists nodes :: WellNested(nodes, {}) && TokensOf(nodes) == Normalize(Lex(command))
  {
    if Parse(command).Ok? {
      ParseSound(command);
    }
    if nodes :| WellNested(nodes, {}) && TokensOf(nodes) == Normalize(Lex(command)) {
      ParseComplete(command, nodes);
    }
  }

  // ---------- Round trips ----------

  /** The tag pattern reads this tag back. */
  predicate Printable(tag: Tag) {
    ReadTag(TagBody(tag)) == tag && forall i | 0 <= i < |TagBody(tag)| :: !IsBrace(TagBody(tag)[i])
  }

  predicate TokenPrintable(token: Token) {
    match token
    case Literal(text) => text != "" && TagFree(text)
    case Mark(tag) => Printable(tag)
  }

  /** Tokens that print unambiguously. */
  predicate Separated(tokens: seq<Token>) {
    && (forall i | 0 <= i < |tokens| :: TokenPrintable(tokens[i]))
    && (forall i | 0 <= i < |tokens| - 1 :: tokens[i].Mark? || tokens[i + 1].Mark?)
  }

  lemma BracedBodyMatches(body: string, s: string, rest: string)
    requires forall i | 0 <= i < |body| :: !IsBrace(body[i])
    requires s == "{{" + body + "}}" + rest
    ensures MatchTag(s) == Some(TagMatch(ReadTag(body), |body| + 4))
  {
    var n := |body|;
    assert s[0] == '{' && s[1] == '{' && s[n + 2] == '}' && s[n + 3] == '}';
    assert s[2..n + 2] == body;
    assert s[2..] == body + s[n + 2..];
    RunStops(body, s[n + 2..], NoBrace);
  }

  lemma PrintedTagMatches(tag: Tag, rest: string)
    requires Printable(tag)
    ensures MatchTag(PrintTag(tag) + rest) == Some(TagMatch(tag, |PrintTag(tag)|))
  {
    BracedBodyMatches(TagBody(tag), PrintTag(tag) + rest, rest);
  }

  /** A tag cannot begin inside tag-free text and end in the tag after it. */
  lemma NoTagAcross(text: string, tail: string)
    requires text != "" && MatchTag(text).None?
    requires |tail| >= 2 && tail[0] == '{' && tail[1] == '{'
    ensures MatchTag(text + tail).None?
  {
    var s := text + tail;
    if |text| >= 2 && text[0] == '{' && text[1] == '{' {
      var inner := text[2..];
      var n := RunLength(inner, NoBrace);
      assert inner == inner[..n] + inner[n..];
      assert s[2..] == inner[..n] + (inner[n..] + tail);
      RunStops(inner[..n], inner[n..] + tail, NoBrace);
    } else if |text| == 1 {
      assert s[1] == '{' && s[2] == '{';
      assert s[2..][0] == '{';
    }
  }

  lemma {:induction false} FirstTagAfterText(text: string, tail: string)
    requires TagFree(text)
    requires MatchTag(tail).Some?
    ensures FirstTag(text + tail) == Some(|text|)
  {
    hide MatchTag, FirstTag;
    if text == "" {
      assert text + tail == tail;
      FirstTagHere(tail);
    } else {
      FirstTagLater(text);
      TagOpens(tail);
      NoTagAcross(text, tail);
      assert (text + tail)[1..] == text[1..] + tail;
      FirstTagAfterText(text[1..], tail);
      FirstTagLater(text + tail);
    }
  }

  lemma TagOpens(s: string)
    requires MatchTag(s).Some?
    ensures |s| >= 2 && s[0] == '{' && s[1] == '{'
  {
  }

  lemma FirstTagHere(s: string)
    requires MatchTag(s).Some?
    ensures FirstTag(s) == Some(0)
  {
  }

  lemma FirstTagLater(s: string)
    requires s != ""
    ensures FirstTag(s) == if MatchTag(s).Some? then Some(0) else match FirstTag(s[1..]) case None => None case Some(i) => Some(i + 1)
  {
    hide MatchTag;
  }

  lemma SeparatedDrop(tokens: seq<Token>, k: nat)
    requires Separated(tokens) && k <= |tokens|
    ensures Separated(tokens[k..])
  {
    var after := tokens[k..];
    forall i | 0 <= i < |after| - 1 ensures after[i].Mark? || after[i + 1].Mark? {
      assert tokens[i + k].Mark? || tokens[i + k + 1].Mark?;
    }
  }

  lemma {:induction false} LexPrint(tokens: seq<Token>)
    requires Separated(tokens)
    ensures Lex(PrintTokens(tokens)) == tokens
    decreases |tokens|
  {
    if tokens == [] {
    } else if |tokens| == 1 && tokens[0].Literal? {
      assert TokenPrintable(tokens[0]);
      assert tokens == [Literal(tokens[0].text)];
      LexOneLiteral(tokens[0].text);
    } else {
      var k := if tokens[0].Literal? then 1 else 0;
      FirstPieces(tokens, k);
      SeparatedDrop(tokens, k + 1);
      LexPrint(tokens[k + 1..]);
      LexPrintPieces(if k == 1 then tokens[0].text else "", tokens[k].tag, tokens[k + 1..], tokens);
    }
  }

  lemma FirstPieces(tokens: seq<Token>, k: nat)
    requires Separated(tokens) && tokens != []
    requires k == if tokens[0].Literal? then 1 else 0
    requires tokens[0].Literal? ==> |tokens| > 1
    ensures tokens[k].Mark? && Printable(tokens[k].tag)
    ensures var text := if k == 1 then tokens[0].text else "";
      TagFree(text) && tokens == LiteralIfAny(text) + [Mark(tokens[k].tag)] + tokens[k + 1..]
  {
    assert TokenPrintable(tokens[k]) && TokenPrintable(tokens[0]);
    if k == 1 {
      assert tokens[0].Mark? || tokens[0 + 1].Mark?;
      assert tokens == [tokens[0]] + [tokens[1]] + tokens[2..];
    } else {
      assert tokens == [] + [tokens[0]] + tokens[1..];
    }
  }

  lemma LexOneLiteral(text: string)
    requires text != "" && TagFree(text)
    ensures Lex(PrintTokens([Literal(text)])) == [Literal(text)]
  {
    assert PrintTokens([Literal(text)]) == text + "" == text;
  }

  lemma LexPrintPieces(text: string, tag: Tag, after: seq<Token>, all: seq<Token>)
    requires TagFree(text) && Printable(tag)
    requires Lex(PrintTokens(after)) == after
    requires all == LiteralIfAny(text) + [Mark(tag)] + after
    ensures Lex(PrintTokens(all)) == all
  {
    PrintTextTag(text, tag, after);
    LexTextTag(text, tag, PrintTokens(after));
  }

  lemma LexTextTag(text: string, tag: Tag, rest: string)
    requires TagFree(text) && Printable(tag)
    ensures Lex(text + (PrintTag(tag) + rest)) == LiteralIfAny(text) + [Mark(tag)] + Lex(rest)
  {
    var tail := PrintTag(tag) + rest;
    var s := text + tail;
    PrintedTagMatches(tag, rest);
    FirstTagAfterText(text, tail);
    assert s[|text|..] == tail;
    assert s[..|text|] == text;
    assert tail[|PrintTag(tag)|..] == rest;
  }

  /** Trees as the parser builds them: text nodes are non-empty, tag-free and
      never adjacent. */
  predicate TextSeparated(nodes: seq<Node>)
    decreases nodes, 0
  {
    && (forall i | 0 <= i < |nodes| :: NodeTextSeparated(nodes[i]))
    && (forall i | 0 <= i < |nodes| - 1 :: !nodes[i].Text? || !nodes[i + 1].Text?)
  }

  predicate NodeTextSeparated(node: Node)
    decreases node, 0
  {
    match node
    case Text(text) => text != "" && TagFree(text)
    case Value(_) => true
    case Section(_, children) => TextSeparated(children)
  }

  lemma SeparatedConcat(a: seq<Token>, b: seq<Token>)
    requires Separated(a) && Separated(b)
    requires a != [] && b != [] ==> a[|a| - 1].Mark? || b[0].Mark?
    ensures Separated(a + b)
  {
    var c := a + b;
    forall i | 0 <= i < |c| - 1 ensures c[i].Mark? || c[i + 1].Mark? {
      if i + 1 < |a| {
        assert a[i].Mark? || a[i + 1].Mark?;
      } else if |a| <= i {
        assert b[i - |a|].Mark? || b[i - |a| + 1].Mark?;
      }
    }
  }

  predicate PlainField(field: string) {
    field != "" && field[0] != '/' && field[0] != '#' && forall i | 0 <= i < |field| :: !IsBrace(field[i])
  }

  lemma KnownFieldIsPlain(field: string)
    requires KnownField(field)
    ensures PlainField(field)
  {
  }

  lemma PlainTagPrintable(closing: bool, hash: bool, field: string)
    requires PlainField(field)
    ensures Printable(Tag(closing, hash, field))
  {
    var body := TagBody(Tag(closing, hash, field));
    if closing && hash {
      assert body[1..] == "#" + field;
      assert body[1..][1..] == field;
    } else if closing {
      assert body[1..] == field;
    } else if hash {
      assert body == "#" + field;
    } else {
      assert body == field;
    }
  }

  lemma {:induction false} TreeTokensSeparated(nodes: seq<Node>, open: set<string>)
    requires WellNested(nodes, open) && TextSeparated(nodes)
    ensures Separated(TokensOf(nodes))
    ensures nodes != [] && !nodes[0].Text? ==> TokensOf(nodes) != [] && TokensOf(nodes)[0].Mark?
    decreases nodes, 1
  {
    if nodes != [] {
      var node, rest := nodes[0], nodes[1..];
      assert NodeWellNested(node, open) && NodeTextSeparated(node);
      assert TextSeparated(rest) by {
        forall i | 0 <= i < |rest| - 1 ensures !rest[i].Text? || !rest[i + 1].Text? {
          assert !nodes[i + 1].Text? || !nodes[i + 1 + 1].Text?;
        }
      }
      TreeTokensSeparated(rest, open);
      NodeTokensSeparated(node, open);
      assert rest != [] ==> !nodes[0].Text? || !nodes[0 + 1].Text?;
      SeparatedConcat(NodeTokens(node), TokensOf(rest));
    }
  }

  lemma {:induction false} NodeTokensSeparated(node: Node, open: set<string>)
    requires NodeWellNested(node, open) && NodeTextSeparated(node)
    ensures Separated(NodeTokens(node)) && NodeTokens(node) != []
    ensures !node.Text? ==> NodeTokens(node)[0].Mark? && NodeTokens(node)[|NodeTokens(node)| - 1].Mark?
    decreases node, 1
  {
    match node
    case Text(_) =>
    case Value(field) =>
      KnownFieldIsPlain(field);
      PlainTagPrintable(false, false, field);
    case Section(field, children) =>
      TreeTokensSeparated(children, open + {field});
      KnownFieldIsPlain(field);
      PlainTagPrintable(false, true, field);
      PlainTagPrintable(true, false, field);
      SeparatedConcat([Open(field)], TokensOf(children));
      SeparatedConcat([Open(field)] + TokensOf(children), [Close(field)]);
  }

  /** Printing a tree and parsing the text returns the tree. */
  lemma ParsePrint(nodes: seq<Node>)
    requires WellNested(nodes, {}) && TextSeparated(nodes)
    ensures Parse(PrintNodes(nodes)) == Ok(nodes)
  {
    TreeTokensSeparated(nodes, {});
    LexPrint(TokensOf(nodes));
    TokensOfNormal(nodes);
    ParseComplete(PrintNodes(nodes), nodes);
  }

  lemma {:induction false} TokensOfNormal(nodes: seq<Node>)
    ensures Normalize(TokensOf(nodes)) == TokensOf(nodes)
    decreases nodes, 1
  {
    if nodes != [] {
      NodeTokensNormal(nodes[0]);
      TokensOfNormal(nodes[1..]);
      NormalizeConcat(NodeTokens(nodes[0]), TokensOf(nodes[1..]));
    }
  }

  lemma {:induction false} NodeTokensNormal(node: Node)
    ensures Normalize(NodeTokens(node)) == NodeTokens(node)
    decreases node, 1
  {
    if node.Section? {
      TokensOfNormal(node.children);
      var open, inner, close := [Open(node.field)], TokensOf(node.children), [Close(node.field)];
      NormalizeConcat(open, inner);
      NormalizeConcat(open + inner, close);
      assert Normalize(open) == open && Normalize(close) == close;
    }
  }

  lemma NormalizeConcat(a: seq<Token>, b: seq<Token>)
    ensures Normalize(a + b) == Normalize(a) + Normalize(b)
  {
  }

  /** Printing a parsed command returns it, with every closer spelled without
      its optional hash; a command without hashed closers is returned as it is. */
  lemma PrintParse(command: string)
    requires Parse(command).Ok?
    ensures PrintNodes(Parse(command).value) == PrintTokens(Normalize(Lex(command)))
    ensures (forall token | token in Lex(command) && token.Mark? && token.tag.closing :: !token.tag.hash) ==>
              PrintNodes(Parse(command).value) == command
  {
    ParseSound(command);
    LexLossless(command);
    if forall token | token in Lex(command) && token.Mark? && token.tag.closing :: !token.tag.hash {
      var tokens := Lex(command);
      forall i | 0 <= i < |tokens| ensures NormalToken(tokens[i]) == tokens[i] {
        assert tokens[i] in tokens;
      }
      assert Normalize(tokens) == tokens;
    }
  }

  // ---------- Rendering ----------

  datatype Values = Values(model: Option<string>, effort: Option<string>, permissionMode: Option<string>)

  function FieldValue(values: Values, field: string): Option<string> {
    if field == "model" then values.model
    else if field == "effort" then values.effort
    else if field == "permission_mode" then values.permissionMode
    else None
  }

  function OrEmpty(value: Option<string>): string {
    match value case None => "" case Some(text) => text
  }

  function Render(nodes: seq<Node>, values: Values): string
    decreases nodes, 0
  {
    if nodes == [] then "" else RenderNode(nodes[0], values) + Render(nodes[1..], values)
  }

  function RenderNode(node: Node, values: Values): string
    decreases node, 0
  {
    match node
    case Text(text) => text
    case Value(field) => OrEmpty(FieldValue(values, field))
    case Section(field, children) => if FieldValue(values, field).Some? then Render(children, values) else ""
  }

  function Referenced(nodes: seq<Node>): set<string>
    decreases nodes, 0
  {
    if nodes == [] then {} else NodeReferenced(nodes[0]) + Referenced(nodes[1..])
  }

  function NodeReferenced(node: Node): set<string>
    decreases node, 0
  {
    match node
    case Text(_) => {}
    case Value(field) => {field}
    case Section(field, children) => {field} + Referenced(children)
  }

  /** Whether text is shown under the given open sections. */
  predicate Shown(open: seq<string>, values: Values) {
    forall i | 0 <= i < |open| :: FieldValue(values, open[i]).Some?
  }

  /** One pass over the tokens, without a tree: text and values are emitted
      unless some open section's field is undefined. */
  function Interpret(tokens: seq<Token>, open: seq<string>, values: Values): string {
    if tokens == [] then ""
    else
      match tokens[0]
      case Literal(text) => (if Shown(open, values) then text else "") + Interpret(tokens[1..], open, values)
      case Mark(tag) =>
        if !IsSection(tag) then
          (if Shown(open, values) then OrEmpty(FieldValue(values, tag.field)) else "") + Interpret(tokens[1..], open, values)
        else if tag.closing then Interpret(tokens[1..], if open == [] then [] else open[..|open| - 1], values)
        else Interpret(tokens[1..], open + [tag.field], values)
  }

  lemma {:induction false} InterpretForest(nodes: seq<Node>, rest: seq<Token>, open: seq<string>, bound: set<string>, values: Values)
    requires WellNested(nodes, bound)
    ensures Interpret(TokensOf(nodes) + rest, open, values)
         == (if Shown(open, values) then Render(nodes, values) else "") + Interpret(rest, open, values)
    decreases nodes, 1
  {
    if nodes == [] {
      assert TokensOf(nodes) + rest == rest;
    } else {
      var head, tail := NodeTokens(nodes[0]), TokensOf(nodes[1..]);
      assert TokensOf(nodes) + rest == head + (tail + rest);
      assert NodeWellNested(nodes[0], bound);
      InterpretNode(nodes[0], tail + rest, open, bound, values);
      InterpretForest(nodes[1..], rest, open, bound, values);
      var a, b, c := RenderNode(nodes[0], values), Render(nodes[1..], values), Interpret(rest, open, values);
      assert a + (b + c) == a + b + c;
    }
  }

  lemma {:induction false} InterpretNode(node: Node, rest: seq<Token>, open: seq<string>, bound: set<string>, values: Values)
    requires NodeWellNested(node, bound)
    ensures Interpret(NodeTokens(node) + rest, open, values)
         == (if Shown(open, values) then RenderNode(node, values) else "") + Interpret(rest, open, values)
    decreases node, 1
  {
    var tokens := NodeTokens(node) + rest;
    match node
    case Text(_) =>
      assert tokens[1..] == rest;
    case Value(field) =>
      assert tokens[1..] == rest;
      PlainTagHasNoHash(field);
    case Section(field, children) =>
      var inside := open + [field];
      SectionTagShape(Open(field).tag);
      assert tokens[1..] == TokensOf(children) + ([Close(field)] + rest);
      InterpretForest(children, [Close(field)] + rest, inside, bound + {field}, values);
      assert ([Close(field)] + rest)[1..] == rest;
      assert inside[..|inside| - 1] == open;
      ShownInside(open, field, values);
  }

  lemma ShownInside(open: seq<string>, field: string, values: Values)
    ensures Shown(open + [field], values) <==> Shown(open, values) && FieldValue(values, field).Some?
  {
    var inside := open + [field];
    assert inside[|open|] == field;
    assert forall i | 0 <= i < |open| :: inside[i] == open[i];
  }

  lemma {:induction false} InterpretNormalize(tokens: seq<Token>, open: seq<string>, values: Values)
    ensures Interpret(Normalize(tokens), open, values) == Interpret(tokens, open, values)
    decreases |tokens|
  {
    if tokens != [] {
      assert Normalize(tokens)[1..] == Normalize(tokens[1..]);
      InterpretNormalize(tokens[1..], open, values);
      InterpretNormalize(tokens[1..], if open == [] then [] else open[..|open| - 1], values);
      match tokens[0]
      case Literal(_) =>
      case Mark(tag) => InterpretNormalize(tokens[1..], open + [tag.field], values);
    }
  }

  /** Rendering the parsed tree is the one-pass interpretation of the command. */
  lemma RenderIsInterpretation(command: string, values: Values)
    requires Parse(command).Ok?
    ensures Render(Parse(command).value, values) == Interpret(Lex(command), [], values)
  {
    var nodes := Parse(command).value;
    ParseSound(command);
    InterpretForest(nodes, [], [], {}, values);
    assert TokensOf(nodes) + [] == Normalize(Lex(command));
    InterpretNormalize(Lex(command), [], values);
  }

  predicate AgreeOn(fields: set<string>, left: Values, right: Values) {
    forall field | field in fields :: FieldValue(left, field) == FieldValue(right, field)
  }

  /** Rendering reads nothing but the referenced fields. */
  lemma {:induction false} RenderReadsReferenced(nodes: seq<Node>, left: Values, right: Values)
    requires AgreeOn(Referenced(nodes), left, right)
    ensures Render(nodes, left) == Render(nodes, right)
    decreases nodes, 1
  {
    if nodes != [] {
      RenderNodeReadsReferenced(nodes[0], left, right);
      RenderReadsReferenced(nodes[1..], left, right);
    }
  }

  lemma {:induction false} RenderNodeReadsReferenced(node: Node, left: Values, right: Values)
    requires AgreeOn(NodeReferenced(node), left, right)
    ensures RenderNode(node, left) == RenderNode(node, right)
    decreases node, 1
  {
    match node
    case Text(_) =>
    case Value(_) =>
    case Section(_, children) => RenderReadsReferenced(children, left, right);
  }

  /** Provided `model` and `effort` values the command never mentions. */
  function UnreferencedFields(referenced: set<string>, values: Values): seq<string> {
    (if values.model.Some? && "model" !in referenced then ["model"] else []) +
    (if values.effort.Some? && "effort" !in referenced then ["effort"] else [])
  }

  datatype Rendering = Rendering(rendered: string, unreferencedFields: seq<string>)

  method RenderProviderCommandTemplate(command: string, values: Values) returns (r: Result<Rendering, TemplateError>)
    ensures r.Ok? <==> Parse(command).Ok?
    ensures r.Err? ==> r.error == Parse(command).error
    ensures r.Ok? ==> r.value.rendered == Interpret(Lex(command), [], values)
    ensures r.Ok? ==> r.value.unreferencedFields == UnreferencedFields(Referenced(Parse(command).value), values)
  {
    var nodes := ParseTemplate(command);
    if nodes.Err? {
      return Err(nodes.error);
    }
    RenderIsInterpretation(command, values);
    return Ok(Rendering(Render(nodes.value, values), UnreferencedFields(Referenced(nodes.value), values)));
  }

  function Changed(values: Values, field: string, value: Option<string>): Values {
    if field == "model" then values.(model := value)
    else if field == "effort" then values.(effort := value)
    else values
  }

  /** A field is reported exactly when it is a provided model or effort that the
      command never mentions, and then its value cannot influence the command. */
  lemma UnreferencedHasNoEffect(command: string, values: Values, field: string, value: Option<string>)
    requires Parse(command).Ok?
    ensures var nodes := Parse(command).value;
      && (field in UnreferencedFields(Referenced(nodes), values) <==>
            field in {"model", "effort"} && FieldValue(values, field).Some? && field !in Referenced(nodes))
      && (field in UnreferencedFields(Referenced(nodes), values) ==>
            Render(nodes, Changed(values, field, value)) == Render(nodes, values))
  {
    var nodes := Parse(command).value;
    if field in UnreferencedFields(Referenced(nodes), values) {
      RenderReadsReferenced(nodes, Changed(values, field, value), values);
    }
  }

  /** A field counts as referenced exactly when some tag of the tree names it;
      literal text does not count. */
  lemma {:induction false} ReferencedAreTags(nodes: seq<Node>, field: string)
    ensures field in Referenced(nodes) <==> exists token :: token in TokensOf(nodes) && token.Mark? && token.tag.field == field
    decreases nodes, 1
  {
    if nodes != [] {
      NodeReferencedAreTags(nodes[0], field);
      ReferencedAreTags(nodes[1..], field);
      assert forall token :: token in TokensOf(nodes) <==> token in NodeTokens(nodes[0]) || token in TokensOf(nodes[1..]);
    }
  }

  lemma {:induction false} NodeReferencedAreTags(node: Node, field: string)
    ensures field in NodeReferenced(node) <==> exists token :: token in NodeTokens(node) && token.Mark? && token.tag.field == field
    decreases node, 1
  {
    match node
    case Text(_) =>
    case Value(f) => assert NodeTokens(node)[0] in NodeTokens(node);
    case Section(f, children) =>
      ReferencedAreTags(children, field);
      assert Open(f) in NodeTokens(node);
      assert forall token :: token in NodeTokens(node) <==> token == Open(f) || token == Close(f) || token in TokensOf(children);
  }
}
