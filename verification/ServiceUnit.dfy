/** The text of the generated unit: `renderServiceUnit` of `src/service.ts`
    joined and read back by `src/doctor.ts` and
    `src/doctor-execution-environment.ts`. */
module ServiceUnit {
  import opened Wrappers
  import opened SystemdQuoting

  // ---------- Lines ----------

  function JoinLines(lines: seq<string>): string {
    if lines == [] then "" else if |lines| == 1 then lines[0] else lines[0] + "\n" + JoinLines(lines[1..])
  }

  function DropReturn(line: string): string {
    if line != "" && line[|line| - 1] == '\r' then line[..|line| - 1] else line
  }

  /** Splits at every newline, with or without a carriage return before it;
      `line` is what was read of the current line. */
  function SplitLines(text: string, line: string): seq<string>
    decreases |text|
  {
    if text == "" then [line]
    else if text[0] == '\n' then [DropReturn(line)] + SplitLines(text[1..], "")
    else SplitLines(text[1..], line + [text[0]])
  }

  lemma {:induction false} SplitWithinLine(text: string, rest: string, line: string)
    requires OneLine(text)
    ensures SplitLines(text + rest, line) == SplitLines(rest, line + text)
    decreases |text|
  {
    if text == "" {
      assert text + rest == rest && line + text == line;
    } else {
      assert (text + rest)[1..] == text[1..] + rest;
      SplitWithinLine(text[1..], rest, line + [text[0]]);
      assert line + [text[0]] + text[1..] == line + text;
    }
  }

  /** Lines without terminators survive joining and splitting. */
  lemma {:induction false} SplitJoin(lines: seq<string>)
    requires lines != [] && forall line | line in lines :: OneLine(line)
    ensures SplitLines(JoinLines(lines), "") == lines
  {
    var first := lines[0];
    assert "" + first == first;
    if |lines| == 1 {
      SplitWithinLine(first, "", "");
      assert first + "" == first;
    } else {
      var rest := "\n" + JoinLines(lines[1..]);
      SplitWithinLine(first, rest, "");
      assert JoinLines(lines) == first + rest;
      assert rest[1..] == JoinLines(lines[1..]);
      SplitJoin(lines[1..]);
    }
  }

  // ---------- The unit ----------

  /** A line that says nothing about the two directives: blank, a comment, or a
      directive of another name. */
  ghost predicate Harmless(line: string) {
    || line == ""
    || line[0] == '#'
    || exists name, value :: line == name + "=" + value && LettersOnly(name) && name != EXEC_START && name != "Environment"
  }

  ghost predicate Header(line: string) {
    exists name :: line == "[" + name + "]" && LettersOnly(name)
  }

  /** The lines around the two directives: anything up to the `[Service]` header,
      then harmless lines, and sections after the last directive. */
  datatype Template = Template(prefix: seq<string>, preamble: seq<string>, between: seq<string>, after: seq<string>)

  datatype Install = Install(path: string, execPath: string, scriptPath: string, configPath: Option<string>)

  ghost predicate WellFormed(t: Template) {
    && (forall line | line in t.prefix :: OneLine(line))
    && (forall line | line in t.preamble || line in t.between :: OneLine(line) && Harmless(line))
    && (forall line | line in t.after :: OneLine(line) && (Harmless(line) || Header(line)))
  }

  ghost predicate OneLinePaths(i: Install) {
    OneLine(i.path) && OneLine(i.execPath) && OneLine(i.scriptPath) && (i.configPath.Some? ==> OneLine(i.configPath.value))
  }

  function EnvironmentDirective(i: Install): string { "Environment=" + SystemdEnvAssignment("PATH", i.path) }

  function ExecStartDirective(i: Install): string {
    EXEC_START + "=" + ExecStartValue(ShellBody(i.configPath), i.execPath, i.scriptPath, i.configPath)
  }

  function Head(t: Template): seq<string> { t.prefix + ["[Service]"] + t.preamble }

  function UnitLines(t: Template, i: Install): seq<string> {
    Head(t) + [EnvironmentDirective(i)] + t.between + [ExecStartDirective(i)] + t.after
  }

  lemma HarmlessScan(state: Scan, line: string, wanted: string)
    requires Harmless(line) && (wanted == EXEC_START)
    ensures ScanLine(state, line, wanted) == state
  {
    if line == "" {
    } else if line[0] == '#' {
      TrimEndKeeps("#", line[1..]);
      assert line == "#" + line[1..] && TrimStart(line) == line;
    } else {
      var name, value :| line == name + "=" + value && LettersOnly(name) && name != EXEC_START && name != "Environment";
      if state.inService {
        ScanDirective(state, name, value, wanted);
      } else {
        assert line[0] == name[0] && TrimStart(line) == line;
        TrimEndKeeps(name + "=", value);
        assert Trim(line)[0] == name[0];
      }
    }
  }

  lemma HeaderScan(state: Scan, name: string, wanted: string)
    requires LettersOnly(name)
    ensures ScanLine(state, "[" + name + "]", wanted) == state.(inService := name == "Service")
  {
    var line := "[" + name + "]";
    assert TrimStart(line) == line && TrimEnd(line) == line;
    assert line[1..|line| - 1] == name;
  }

  lemma {:induction false} HarmlessLines(state: Scan, lines: seq<string>)
    requires forall line | line in lines :: Harmless(line)
    ensures ScanLines(state, lines, EXEC_START) == state
    decreases |lines|
  {
    if lines != [] {
      HarmlessScan(state, lines[0], EXEC_START);
      HarmlessLines(state, lines[1..]);
    }
  }

  lemma {:induction false} AfterLines(state: Scan, lines: seq<string>)
    requires forall line | line in lines :: Harmless(line) || Header(line)
    ensures ScanLines(state, lines, EXEC_START).winner == state.winner
    decreases |lines|
  {
    if lines != [] {
      if Harmless(lines[0]) {
        HarmlessScan(state, lines[0], EXEC_START);
      } else {
        var name :| lines[0] == "[" + name + "]" && LettersOnly(name);
        HeaderScan(state, name, EXEC_START);
      }
      AfterLines(ScanLine(state, lines[0], EXEC_START), lines[1..]);
    }
  }

  lemma ServiceOpens(t: Template)
    requires WellFormed(t)
    ensures ScanLines(Scan(false, None), Head(t), EXEC_START).inService
  {
    var start := Scan(false, None);
    var header := t.prefix + ["[Service]"];
    assert "[" + "Service" + "]" == "[Service]";
    HeaderScan(ScanLines(start, t.prefix, EXEC_START), "Service", EXEC_START);
    ScanConcat(start, t.prefix, ["[Service]"], EXEC_START);
    assert ["[Service]"][1..] == [];
    ScanConcat(start, header, t.preamble, EXEC_START);
    HarmlessLines(ScanLines(start, header, EXEC_START), t.preamble);
  }

  lemma EnvironmentScan(state: Scan, i: Install)
    requires state.inService
    ensures ScanLines(state, [EnvironmentDirective(i)], EXEC_START) == state
  {
    var line, value := EnvironmentDirective(i), SystemdEnvAssignment("PATH", i.path);
    assert line == "Environment" + "=" + value && [line][1..] == [];
    ScanDirective(state, "Environment", value, EXEC_START);
    hide ScanLine, SystemdEnvAssignment;
  }

  lemma UnitBefore(t: Template, i: Install)
    requires WellFormed(t)
    ensures ScanLines(Scan(false, None), Head(t) + [EnvironmentDirective(i)] + t.between, EXEC_START).inService
  {
    ServiceOpens(t);
    assert forall line | line in t.between :: Harmless(line);
    hide *;
    var start := Scan(false, None);
    var state := ScanLines(start, Head(t), EXEC_START);
    ScanConcat(start, Head(t), [EnvironmentDirective(i)], EXEC_START);
    ScanConcat(start, Head(t) + [EnvironmentDirective(i)], t.between, EXEC_START);
    EnvironmentScan(state, i);
    HarmlessLines(state, t.between);
  }

  const ENVIRONMENT := "Environment"

  lemma ShortName(name: string, value: string)
    requires LettersOnly(name) && |name| < |ENVIRONMENT|
    ensures !(ENVIRONMENT <= name + "=" + value)
  {
    assert (name + "=" + value)[|name|] == '=';
    assert LettersOnly(ENVIRONMENT);
  }

  lemma OtherName(name: string, value: string)
    requires |name| == |ENVIRONMENT| && name != ENVIRONMENT
    ensures !(ENVIRONMENT <= name + "=" + value)
  {
    assert (name + "=" + value)[..|name|] == name;
  }

  lemma LongName(name: string, value: string)
    requires LettersOnly(name) && |name| > |ENVIRONMENT|
    ensures ENVIRONMENT <= name + "=" + value ==> AfterPrefix(SkipBlanks((name + "=" + value)[|ENVIRONMENT|..]), "=").None?
  {
    var rest := (name + "=" + value)[|ENVIRONMENT|..];
    assert rest[0] == name[|ENVIRONMENT|];
  }

  lemma HarmlessEnvironment(line: string)
    requires Harmless(line) || Header(line)
    ensures EnvironmentValue(line).None?
  {
    if line != "" && line[0] != '#' && line[0] != '[' {
      var name, value :| line == name + "=" + value && LettersOnly(name) && name != EXEC_START && name != ENVIRONMENT;
      assert line[0] == name[0] && SkipBlanks(line) == line;
      if |name| < |ENVIRONMENT| {
        ShortName(name, value);
      } else if |name| == |ENVIRONMENT| {
        OtherName(name, value);
      } else {
        LongName(name, value);
      }
    }
  }

  lemma ExecStartEnvironment(i: Install)
    ensures EnvironmentValue(ExecStartDirective(i)).None?
  {
    hide ExecStartValue, ShellBody;
    var line := ExecStartDirective(i);
    assert line[1] == 'x' && ENVIRONMENT[1] == 'n' && SkipBlanks(line) == line;
  }

  lemma BodyOneLine(configPath: Option<string>)
    ensures OneLine(ShellBody(configPath))
  {
    ShellBodyQuotable(configPath);
    assert OneLine(BODY_TOKEN) && OneLine(BODY_TEST) && OneLine(BODY_ERROR) && OneLine(BODY_EMPTY);
    assert OneLine(BODY_EXPORT) && OneLine(BODY_VARIABLE) && OneLine(BODY_EXEC) && OneLine(BODY_CONFIG);
    hide BODY_TOKEN, BODY_TEST, BODY_ERROR, BODY_EMPTY, BODY_EXPORT, BODY_VARIABLE, BODY_EXEC, BODY_CONFIG;
  }

  lemma ArgOneLine(value: string)
    requires OneLine(value)
    ensures OneLine(SystemdArg(value))
  {
    ReplaceKeepsOneLine(value, '\\', "\\\\");
    var a := ReplaceChar(value, '\\', "\\\\");
    ReplaceKeepsOneLine(a, '"', "\\\"");
    var b := ReplaceChar(a, '"', "\\\"");
    ReplaceKeepsOneLine(b, '$', "$$");
    ReplaceKeepsOneLine(ReplaceChar(b, '$', "$$"), '%', "%%");
  }

  lemma {:induction false} ArgumentsOneLine(values: seq<string>)
    requires forall value | value in values :: OneLine(value)
    ensures OneLine(Arguments(values))
  {
    if values != [] {
      ArgOneLine(values[0]);
      ArgumentsOneLine(values[1..]);
    }
  }

  lemma ValueOneLine(body: string, execPath: string, scriptPath: string, configPath: Option<string>)
    requires OneLine(body) && OneLine(execPath) && OneLine(scriptPath) && (configPath.Some? ==> OneLine(configPath.value))
    ensures OneLine(ExecStartValue(body, execPath, scriptPath, configPath))
  {
    ArgumentsOneLine(Operands(execPath, scriptPath, configPath));
    hide Arguments, Operands;
  }

  lemma DirectivesOneLine(i: Install)
    requires OneLinePaths(i)
    ensures OneLine(EnvironmentDirective(i)) && OneLine(ExecStartDirective(i))
  {
    assert OneLine("PATH" + "=" + i.path);
    EnvEscapedOneLine("PATH" + "=" + i.path);
    BodyOneLine(i.configPath);
    ValueOneLine(ShellBody(i.configPath), i.execPath, i.scriptPath, i.configPath);
    hide ShellBody, ExecStartValue, EnvEscaped;
  }

  lemma UnitReadsBack(t: Template, i: Install)
    requires WellFormed(t) && OneLinePaths(i)
    ensures SplitLines(JoinLines(UnitLines(t, i)), "") == UnitLines(t, i)
  {
    DirectivesOneLine(i);
    assert OneLine("[Service]");
    hide EnvironmentDirective, ExecStartDirective, OneLine, Harmless, Header;
    SplitJoin(UnitLines(t, i));
  }

  lemma QuietTail(t: Template, i: Install)
    requires WellFormed(t)
    ensures forall k | 0 <= k < |t.between + [ExecStartDirective(i)] + t.after| ::
              EnvironmentValue((t.between + [ExecStartDirective(i)] + t.after)[k]).None?
  {
    ExecStartEnvironment(i);
    var tail := t.between + [ExecStartDirective(i)] + t.after;
    hide ExecStartDirective, EnvironmentValue, OneLine, Harmless, Header;
    forall k | 0 <= k < |tail| ensures EnvironmentValue(tail[k]).None? {
      if tail[k] in t.between || tail[k] in t.after { HarmlessEnvironment(tail[k]); }
    }
  }

  /** The whole way from the install's paths to the unit's text and back: split
      into lines and read by the two scanners, the text yields exactly the
      runtime and script paths and exactly the PATH, whatever they contain besides
      line terminators and wherever the home directory is. */
  lemma GeneratedUnitRoundTrip(t: Template, i: Install, homeDir: string)
    requires WellFormed(t) && OneLinePaths(i) && i.execPath != "" && i.scriptPath != ""
    ensures var lines := SplitLines(JoinLines(UnitLines(t, i)), "");
      var winner := ScanLines(Scan(false, None), lines, EXEC_START).winner;
      && winner.Some? && ParseGeneratedExecStart(winner.value, homeDir) == Some(ExecPaths(i.execPath, i.scriptPath))
      && EnvironmentLines(None, lines, homeDir) == Some(i.path)
  {
    UnitReadsBack(t, i);
    UnitBefore(t, i);
    QuietTail(t, i);
    forall state: Scan ensures ScanLines(state, t.after, EXEC_START).winner == state.winner {
      AfterLines(state, t.after);
    }
    assert Silent(t.after, EXEC_START);
    assert OneLine(i.path);
    Assembled(t, i);
    var before := Head(t) + [EnvironmentDirective(i)] + t.between;
    var tail := t.between + [ExecStartDirective(i)] + t.after;
    assert EnvironmentDirective(i) == "Environment=" + SystemdEnvAssignment("PATH", i.path);
    assert ExecStartDirective(i) == EXEC_START + "=" + ExecStartValue(ShellBody(i.configPath), i.execPath, i.scriptPath, i.configPath);
    hide *;
    UnitRoundTrip(before, t.after, i.execPath, i.scriptPath, i.configPath, homeDir);
    EnvironmentUnitRoundTrip(Head(t), tail, i.path, homeDir);
  }

  lemma Assembled(t: Template, i: Install)
    ensures UnitLines(t, i) == Head(t) + [EnvironmentDirective(i)] + t.between + [ExecStartDirective(i)] + t.after
    ensures UnitLines(t, i) == Head(t) + [EnvironmentDirective(i)] + (t.between + [ExecStartDirective(i)] + t.after)
  {
  }
}
