/** What particular provider commands render to: `src/provider-command-template.ts`. */
module TemplateCommands {
  import opened Wrappers
  import opened ProviderTemplate

  /** The value given for a field. */
  function Given(values: Values, field: string): Option<string>
    requires KnownField(field)
  {
    match field
    case "model" => values.model
    case "effort" => values.effort
    case "permission_mode" => values.permissionMode
  }

  function TextNode(text: string): seq<Node> { if text == "" then [] else [Text(text)] }

  lemma {:induction false} RenderConcat(a: seq<Node>, b: seq<Node>, values: Values)
    ensures Render(a + b, values) == Render(a, values) + Render(b, values)
  {
    if a == [] {
      assert a + b == b;
    } else {
      assert (a + b)[1..] == a[1..] + b;
      RenderConcat(a[1..], b, values);
    }
  }

  lemma TextRenders(text: string, values: Values)
    ensures Render(TextNode(text), values) == text && PrintNodes(TextNode(text)) == text
  {
    if text != "" {
      assert [Text(text)][1..] == [];
      assert TokensOf([Text(text)]) == [Literal(text)] + TokensOf([]) == [Literal(text)];
      assert PrintTokens([Literal(text)]) == text + PrintTokens([Literal(text)][1..]);
    }
  }

  lemma PrintConcat(a: seq<Node>, b: seq<Node>)
    ensures PrintNodes(a + b) == PrintNodes(a) + PrintNodes(b)
  {
    TokensOfConcat(a, b);
    PrintTokensConcat(TokensOf(a), TokensOf(b));
  }

  lemma ValueRenders(field: string, values: Values)
    requires KnownField(field)
    ensures PrintNodes([Value(field)]) == "{{" + field + "}}"
    ensures Render([Value(field)], values) == match Given(values, field) case Some(text) => text case None => ""
  {
    var tag := Tag(false, false, field);
    assert [Value(field)][1..] == [];
    assert TokensOf([Value(field)]) == [Mark(tag)];
    assert PrintTokens([Mark(tag)]) == PrintTag(tag) + PrintTokens([Mark(tag)][1..]);
    assert TagBody(tag) == field;
  }

  lemma SectionRenders(field: string, children: seq<Node>, values: Values)
    requires KnownField(field)
    ensures PrintNodes([Section(field, children)]) == "{{#" + field + "}}" + PrintNodes(children) + "{{/" + field + "}}"
    ensures Render([Section(field, children)], values) == if Given(values, field).Some? then Render(children, values) else ""
  {
    SectionPrints(field, children);
    var node := Section(field, children);
    assert [node][1..] == [];
    assert Render([node], values) == RenderNode(node, values) + "";
    hide PrintNodes, Render;
  }

  lemma SectionPrints(field: string, children: seq<Node>)
    ensures PrintNodes([Section(field, children)]) == "{{#" + field + "}}" + PrintNodes(children) + "{{/" + field + "}}"
  {
    var node := Section(field, children);
    assert [node][1..] == [];
    assert TokensOf([node]) == NodeTokens(node) + [] == NodeTokens(node);
    assert NodeTokens(node) == [Open(field)] + TokensOf(children) + [Close(field)];
    assert PrintNodes([node]) == PrintTokens([Open(field)] + TokensOf(children) + [Close(field)]);
    hide PrintToken, TokensOf, NodeTokens, PrintTokens, Open, Close;
    TagsPrint(field);
    PrintTokensConcat([Open(field)] + TokensOf(children), [Close(field)]);
    PrintTokensConcat([Open(field)], TokensOf(children));
    OneTokenPrints(Open(field));
    OneTokenPrints(Close(field));
  }

  lemma OneTokenPrints(token: Token)
    ensures PrintTokens([token]) == PrintToken(token)
  {
    assert [token][1..] == [];
  }

  lemma TagsPrint(field: string)
    ensures PrintToken(Open(field)) == "{{#" + field + "}}" && PrintToken(Close(field)) == "{{/" + field + "}}"
  {
    assert "{{" + ("#" + field) + "}}" == "{{#" + field + "}}";
    assert "{{" + ("/" + field) + "}}" == "{{/" + field + "}}";
  }

  /** A printed tree renders as the tree does. */
  lemma PrintedRenders(nodes: seq<Node>, values: Values)
    requires WellNested(nodes, {}) && TextSeparated(nodes)
    ensures Parse(PrintNodes(nodes)) == Ok(nodes)
    ensures Interpret(Lex(PrintNodes(nodes)), [], values) == Render(nodes, values)
  {
    ParsePrint(nodes);
    RenderIsInterpretation(PrintNodes(nodes), values);
  }

  lemma Around(before: string, node: Node, after: string, open: set<string>)
    requires !node.Text? && NodeWellNested(node, open) && NodeTextSeparated(node) && TagFree(before) && TagFree(after)
    ensures var nodes := TextNode(before) + [node] + TextNode(after); WellNested(nodes, open) && TextSeparated(nodes)
  {
    var nodes := TextNode(before) + [node] + TextNode(after);
    hide TagFree;
    forall i | 0 <= i < |nodes| ensures NodeWellNested(nodes[i], open) && NodeTextSeparated(nodes[i]) {
      if nodes[i] != node {
        assert (nodes[i] == Text(before) && before != "") || (nodes[i] == Text(after) && after != "");
      }
    }
  }

  /** A tag shows the given value between the texts around it, or nothing. */
  lemma TagShowsValue(before: string, field: string, after: string, values: Values)
    requires KnownField(field) && TagFree(before) && TagFree(after)
    ensures var command := before + ("{{" + field + "}}") + after;
      && Parse(command).Ok?
      && Interpret(Lex(command), [], values) == before + (match Given(values, field) case Some(text) => text case None => "") + after
  {
    var nodes := TextNode(before) + [Value(field)] + TextNode(after);
    assert NodeWellNested(Value(field), {}) && NodeTextSeparated(Value(field));
    hide *;
    Around(before, Value(field), after, {});
    PrintedRenders(nodes, values);
    PrintConcat(TextNode(before) + [Value(field)], TextNode(after));
    PrintConcat(TextNode(before), [Value(field)]);
    RenderConcat(TextNode(before) + [Value(field)], TextNode(after), values);
    RenderConcat(TextNode(before), [Value(field)], values);
    TextRenders(before, values);
    TextRenders(after, values);
    ValueRenders(field, values);
  }

  /** A section shows its text, with the value in it, exactly if its field is given. */
  lemma SectionShowsText(before: string, field: string, lead: string, inner: string, tail: string, after: string, values: Values)
    requires KnownField(field) && KnownField(inner)
    requires TagFree(before) && TagFree(lead) && TagFree(tail) && TagFree(after)
    ensures var command := before + ("{{#" + field + "}}" + (lead + ("{{" + inner + "}}") + tail) + "{{/" + field + "}}") + after;
      && Parse(command).Ok?
      && Interpret(Lex(command), [], values) ==
         before
         + (if Given(values, field).None? then "" else lead + (match Given(values, inner) case Some(text) => text case None => "") + tail)
         + after
  {
    var children := TextNode(lead) + [Value(inner)] + TextNode(tail);
    var nodes := TextNode(before) + [Section(field, children)] + TextNode(after);
    SectionShape(before, field, lead, inner, tail, after);
    hide *;
    PrintedRenders(nodes, values);
    PrintConcat(TextNode(before) + [Section(field, children)], TextNode(after));
    PrintConcat(TextNode(before), [Section(field, children)]);
    RenderConcat(TextNode(before) + [Section(field, children)], TextNode(after), values);
    RenderConcat(TextNode(before), [Section(field, children)], values);
    TextRenders(before, values);
    TextRenders(after, values);
    SectionRenders(field, children, values);
    PrintConcat(TextNode(lead) + [Value(inner)], TextNode(tail));
    PrintConcat(TextNode(lead), [Value(inner)]);
    RenderConcat(TextNode(lead) + [Value(inner)], TextNode(tail), values);
    RenderConcat(TextNode(lead), [Value(inner)], values);
    TextRenders(lead, values);
    TextRenders(tail, values);
    ValueRenders(inner, values);
  }

  lemma SectionShape(before: string, field: string, lead: string, inner: string, tail: string, after: string)
    requires KnownField(field) && KnownField(inner)
    requires TagFree(before) && TagFree(lead) && TagFree(tail) && TagFree(after)
    ensures var children := TextNode(lead) + [Value(inner)] + TextNode(tail);
      var nodes := TextNode(before) + [Section(field, children)] + TextNode(after);
      WellNested(nodes, {}) && TextSeparated(nodes)
  {
    var children := TextNode(lead) + [Value(inner)] + TextNode(tail);
    assert {} + {field} == {field};
    assert NodeWellNested(Value(inner), {field}) && NodeTextSeparated(Value(inner));
    Around(lead, Value(inner), tail, {field});
    assert NodeWellNested(Section(field, children), {}) && NodeTextSeparated(Section(field, children));
    hide *;
    Around(before, Section(field, children), after, {});
  }

  /** Which provided fields are reported: `model` and `effort` without a tag of their
      name in the command, in that order. */
  lemma ReportedExactly(command: string, values: Values)
    requires Parse(command).Ok?
    ensures UnreferencedFields(Referenced(Parse(command).value), values) ==
            (if values.model.Some? && !Mentions(command, "model") then ["model"] else []) +
            (if values.effort.Some? && !Mentions(command, "effort") then ["effort"] else [])
  {
    MentionedExactly(command, "model");
    MentionedExactly(command, "effort");
  }

  /** Some tag of the command names the field. */
  ghost predicate Mentions(command: string, field: string) {
    exists token :: token in Lex(command) && token.Mark? && token.tag.field == field
  }

  lemma MentionedExactly(command: string, field: string)
    requires Parse(command).Ok?
    ensures field in Referenced(Parse(command).value) <==> Mentions(command, field)
  {
    var nodes, tokens := Parse(command).value, Lex(command);
    ParseSound(command);
    ReferencedAreTags(nodes, field);
    NormalTags(tokens, field);
    hide Lex, Parse, Referenced, Normalize;
  }

  lemma NormalTags(tokens: seq<Token>, field: string)
    ensures (exists token :: token in Normalize(tokens) && token.Mark? && token.tag.field == field) <==>
            (exists token :: token in tokens && token.Mark? && token.tag.field == field)
  {
    var normal := Normalize(tokens);
    if token :| token in normal && token.Mark? && token.tag.field == field {
      var i :| 0 <= i < |normal| && normal[i] == token;
      assert tokens[i] in tokens && tokens[i].Mark? && tokens[i].tag.field == field;
    }
    if token :| token in tokens && token.Mark? && token.tag.field == field {
      var i :| 0 <= i < |tokens| && tokens[i] == token;
      assert normal[i] in normal && normal[i].Mark? && normal[i].tag.field == field;
    }
  }
}
