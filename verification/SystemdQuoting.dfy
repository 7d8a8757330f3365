/** systemd quoting: the printers of `src/service.ts` and the parsers of
    `src/doctor-execution-environment.ts` and `src/doctor.ts`. */
module SystemdQuoting {
  import opened Wrappers
  import opened Strings

  // ---------- Characters ----------

  /** The whitespace and line-terminator class of the runtime's patterns. */
  predicate IsSpace(c: char) {
    || '\t' <= c <= '\r' || c == ' ' || c == '\U{A0}' || c == '\U{1680}' || '\U{2000}' <= c <= '\U{200A}'
    || c == '\U{2028}' || c == '\U{2029}' || c == '\U{202F}' || c == '\U{205F}' || c == '\U{3000}' || c == '\U{FEFF}'
  }

  predicate IsLineTerminator(c: char) { c == '\n' || c == '\r' || c == '\U{2028}' || c == '\U{2029}' }

  predicate OneLine(s: string) { forall i | 0 <= i < |s| :: !IsLineTerminator(s[i]) }

  /** Replaces every `c` in `s`. */
  function ReplaceChar(s: string, c: char, sub: string): string {
    if s == "" then "" else (if s[0] == c then sub else [s[0]]) + ReplaceChar(s[1..], c, sub)
  }

  lemma {:induction false} ReplaceConcat(a: string, b: string, c: char, sub: string)
    ensures ReplaceChar(a + b, c, sub) == ReplaceChar(a, c, sub) + ReplaceChar(b, c, sub)
  {
    if a == "" {
      assert a + b == b;
    } else {
      assert (a + b)[1..] == a[1..] + b;
      ReplaceConcat(a[1..], b, c, sub);
    }
  }

  // ---------- Printers ----------

  function QuoteEscaped(value: string): string {
    ReplaceChar(ReplaceChar(value, '\\', "\\\\"), '"', "\\\"")
  }

  function ArgEscaped(value: string): string {
    ReplaceChar(ReplaceChar(QuoteEscaped(value), '$', "$$"), '%', "%%")
  }

  /** One quoted command-line argument. */
  function SystemdArg(value: string): string { "\"" + ArgEscaped(value) + "\"" }

  function EnvEscaped(value: string): string { ReplaceChar(QuoteEscaped(value), '%', "%%") }

  /** One quoted `NAME=value` pair; `$` is left alone here. */
  function SystemdEnvAssignment(name: string, value: string): string {
    "\"" + EnvEscaped(name + "=" + value) + "\""
  }

  // ---------- The word splitter ----------

  datatype Lexer = Lexer(words: seq<string>, current: string, quote: Option<char>, escaping: bool)

  const START := Lexer([], "", None, false)

  function Flush(s: Lexer): Lexer {
    if s.current == "" then s else s.(words := s.words + [s.current], current := "")
  }

  function Feed(s: Lexer, c: char): Lexer {
    if s.escaping then s.(current := s.current + [c], escaping := false)
    else if c == '\\' then s.(escaping := true)
    else if s.quote.Some? then
      if s.quote == Some(c) then s.(quote := None) else s.(current := s.current + [c])
    else if c == '\'' || c == '"' then s.(quote := Some(c))
    else if IsSpace(c) then Flush(s)
    else s.(current := s.current + [c])
  }

  function FeedAll(s: Lexer, input: string): Lexer
    decreases |input|
  {
    if input == "" then s else FeedAll(Feed(s, input[0]), input[1..])
  }

  /** A trailing backslash stands for itself; the last word may lack a space. */
  function Words(s: Lexer): seq<string> {
    Flush(if s.escaping then s.(current := s.current + "\\") else s).words
  }

  function SplitWords(input: string): seq<string> { Words(FeedAll(START, input)) }

  lemma {:induction false} FeedConcat(s: Lexer, a: string, b: string)
    ensures FeedAll(s, a + b) == FeedAll(FeedAll(s, a), b)
    decreases |a|
  {
    if a == "" {
      assert a + b == b;
    } else {
      assert (a + b)[1..] == a[1..] + b;
      FeedConcat(Feed(s, a[0]), a[1..], b);
    }
  }

  method SplitSystemdWords(input: string) returns (words: seq<string>)
    ensures words == SplitWords(input)
  {
    words := [];
    var current := "";
    var quote: Option<char> := None;
    var escaping := false;
    for i := 0 to |input|
      invariant FeedAll(Lexer(words, current, quote, escaping), input[i..]) == FeedAll(START, input)
    {
      var character := input[i];
      assert input[i..][1..] == input[i + 1..];
      if escaping {
        current := current + [character];
        escaping := false;
        continue;
      }
      if character == '\\' {
        escaping := true;
        continue;
      }
      if quote.Some? {
        if quote.value == character {
          quote := None;
        } else {
          current := current + [character];
        }
        continue;
      }
      if character == '\'' || character == '"' {
        quote := Some(character);
        continue;
      }
      if IsSpace(character) {
        if |current| > 0 {
          words := words + [current];
          current := "";
        }
        continue;
      }
      current := current + [character];
    }
    assert input[|input|..] == "";
    if escaping {
      current := current + "\\";
    }
    if |current| > 0 {
      words := words + [current];
    }
  }

  // ---------- Quoted text comes back ----------

  /** Inside double quotes, and not after a backslash. */
  predicate InQuotes(s: Lexer) { s.quote == Some('"') && !s.escaping }

  lemma {:induction false} FeedQuoteEscaped(s: Lexer, value: string)
    requires InQuotes(s)
    ensures FeedAll(s, QuoteEscaped(value)) == s.(current := s.current + value)
    decreases |value|
  {
    assert QuoteEscaped("") == "" && FeedAll(s, "") == s;
    hide QuoteEscaped, FeedAll;
    if value == "" {
      assert s.current + value == s.current;
    } else {
      var next := s.(current := s.current + [value[0]]);
      FeedQuoteFirst(s, value);
      FeedQuoteEscaped(next, value[1..]);
      assert next.current + value[1..] == s.current + value;
    }
  }

  lemma FeedQuoteFirst(s: Lexer, value: string)
    requires InQuotes(s) && value != ""
    ensures FeedAll(s, QuoteEscaped(value)) == FeedAll(s.(current := s.current + [value[0]]), QuoteEscaped(value[1..]))
  {
    hide QuoteChar, QuoteEscaped, FeedAll;
    QuoteEscapedCons(value);
    FeedChar(s, value[0]);
    FeedConcat(s, QuoteChar(value[0]), QuoteEscaped(value[1..]));
  }

  function QuoteChar(c: char): string {
    if c == '\\' then "\\\\" else if c == '"' then "\\\"" else [c]
  }

  lemma QuoteEscapedCons(value: string)
    requires value != ""
    ensures QuoteEscaped(value) == QuoteChar(value[0]) + QuoteEscaped(value[1..])
  {
    var inner := if value[0] == '\\' then "\\\\" else [value[0]];
    var rest := ReplaceChar(value[1..], '\\', "\\\\");
    ReplaceConcat(inner, rest, '"', "\\\"");
    assert ReplaceChar(inner, '"', "\\\"") == QuoteChar(value[0]) by {
      ReplaceShort(inner);
    }
  }

  lemma ReplaceShort(s: string)
    requires 1 <= |s| <= 2
    ensures ReplaceChar(s, '"', "\\\"") == (if s[0] == '"' then "\\\"" else [s[0]]) + (if |s| == 1 then "" else if s[1] == '"' then "\\\"" else [s[1]])
  {
    if |s| == 2 {
      assert s[1..] == [s[1]];
      assert s[1..][1..] == "";
    } else {
      assert s[1..] == "";
    }
  }

  lemma FeedChar(s: Lexer, c: char)
    requires InQuotes(s)
    ensures FeedAll(s, QuoteChar(c)) == s.(current := s.current + [c])
  {
    FeedOne(s, '\\');
    FeedOne(s, c);
    FeedOne(s.(escaping := true), c);
    if |QuoteChar(c)| == 2 {
      assert QuoteChar(c) == ['\\'] + [c];
      FeedConcat(s, ['\\'], [c]);
    }
  }

  lemma FeedOne(s: Lexer, c: char)
    ensures FeedAll(s, [c]) == Feed(s, c)
  {
    assert [c][1..] == "";
  }

  /** Doubling `$` and `%` does not disturb the quoting: it is the quoting of the
      doubled value. */
  lemma {:induction false} DoublingCommutes(value: string, c: char)
    requires c == '$' || c == '%'
    ensures ReplaceChar(QuoteEscaped(value), c, [c, c]) == QuoteEscaped(ReplaceChar(value, c, [c, c]))
    decreases |value|
  {
    if value != "" {
      var head, rest := value[0], value[1..];
      QuoteEscapedCons(value);
      ReplaceConcat(QuoteChar(head), QuoteEscaped(rest), c, [c, c]);
      DoublingCommutes(rest, c);
      if head == c {
        assert ReplaceChar([c], c, [c, c]) == [c, c] + "" by { assert [c][1..] == ""; }
        QuoteEscapedPair(c, ReplaceChar(rest, c, [c, c]));
      } else {
        DoublingSkips(head, c);
        QuoteEscapedCons([head] + ReplaceChar(rest, c, [c, c]));
        assert ([head] + ReplaceChar(rest, c, [c, c]))[1..] == ReplaceChar(rest, c, [c, c]);
      }
    }
  }

  lemma DoublingSkips(head: char, c: char)
    requires head != c && (c == '$' || c == '%')
    ensures ReplaceChar(QuoteChar(head), c, [c, c]) == QuoteChar(head)
  {
    NothingToReplace(QuoteChar(head), c, [c, c]);
  }

  lemma QuoteEscapedPair(c: char, rest: string)
    requires c == '$' || c == '%'
    ensures QuoteEscaped([c, c] + rest) == [c, c] + QuoteEscaped(rest)
  {
    var s := [c, c] + rest;
    QuoteEscapedCons(s);
    QuoteEscapedCons(s[1..]);
    assert s[1..][1..] == rest;
    assert QuoteChar(c) == [c];
  }

  function DoubleDollar(value: string): string { ReplaceChar(value, '$', "$$") }
  function DoublePercent(value: string): string { ReplaceChar(value, '%', "%%") }

  lemma ArgEscapedMeaning(value: string)
    ensures ArgEscaped(value) == QuoteEscaped(DoublePercent(DoubleDollar(value)))
    ensures EnvEscaped(value) == QuoteEscaped(DoublePercent(value))
  {
    assert "$$" == ['$', '$'] && "%%" == ['%', '%'];
    DoublingCommutes(value, '$');
    DoublingCommutes(DoubleDollar(value), '%');
    DoublingCommutes(value, '%');
  }

  // ---------- Undoing the doublings ----------

  /** Leftmost non-overlapping `$$` becomes `$`. */
  function UndoDollar(s: string): string {
    if |s| >= 2 && s[0] == '$' && s[1] == '$' then "$" + UndoDollar(s[2..])
    else if s == "" then ""
    else [s[0]] + UndoDollar(s[1..])
  }

  /** Leftmost non-overlapping `%%` becomes `%`, and `%h` the home directory. */
  function ExpandPercent(s: string, homeDir: string): string {
    if |s| >= 2 && s[0] == '%' && s[1] == '%' then "%" + ExpandPercent(s[2..], homeDir)
    else if |s| >= 2 && s[0] == '%' && s[1] == 'h' then homeDir + ExpandPercent(s[2..], homeDir)
    else if s == "" then ""
    else [s[0]] + ExpandPercent(s[1..], homeDir)
  }

  function UnescapeWord(word: string, homeDir: string): string { ExpandPercent(UndoDollar(word), homeDir) }

  lemma {:induction false} UndoDoubleDollar(s: string)
    ensures UndoDollar(DoubleDollar(s)) == s
  {
    if s != "" {
      UndoDoubleDollar(s[1..]);
      var d := DoubleDollar(s);
      if s[0] == '$' { assert d[2..] == DoubleDollar(s[1..]); } else { assert d[1..] == DoubleDollar(s[1..]); }
      assert s == [s[0]] + s[1..];
    }
  }

  lemma {:induction false} ExpandDoublePercent(s: string, homeDir: string)
    ensures ExpandPercent(DoublePercent(s), homeDir) == s
  {
    if s != "" {
      ExpandDoublePercent(s[1..], homeDir);
      var d := DoublePercent(s);
      if s[0] == '%' { assert d[2..] == DoublePercent(s[1..]); } else { assert d[1..] == DoublePercent(s[1..]); }
      assert s == [s[0]] + s[1..];
    }
  }

  /** Undoing `$$` looks past doubled percents. */
  lemma {:induction false} DollarsPastPercents(s: string)
    ensures DoublePercent(DoubleDollar(s)) == DoubleDollar(DoublePercent(s))
  {
    if s != "" {
      DollarsPastPercents(s[1..]);
      var d, p := DoubleDollar(s[1..]), DoublePercent(s[1..]);
      var one := [s[0]];
      if s[0] == '$' {
        PercentsOf("$$", d);
        DollarsOf("$", p);
      } else if s[0] == '%' {
        PercentsOf("%", d);
        DollarsOf("%%", p);
      } else {
        PercentsOf(one, d);
        DollarsOf(one, p);
      }
    }
  }

  lemma PercentsOf(head: string, rest: string)
    requires 1 <= |head| <= 2
    ensures DoublePercent(head + rest) == DoublePercent(head) + DoublePercent(rest)
    ensures head == "$$" ==> DoublePercent(head) == "$$"
    ensures head == "%" ==> DoublePercent(head) == "%%"
    ensures |head| == 1 && head[0] != '%' ==> DoublePercent(head) == head
  {
    ReplaceConcat(head, rest, '%', "%%");
    if |head| == 1 { assert head[1..] == ""; } else { assert head[1..] == [head[1]] && head[1..][1..] == ""; }
  }

  lemma DollarsOf(head: string, rest: string)
    requires 1 <= |head| <= 2
    ensures DoubleDollar(head + rest) == DoubleDollar(head) + DoubleDollar(rest)
    ensures head == "%%" ==> DoubleDollar(head) == "%%"
    ensures head == "$" ==> DoubleDollar(head) == "$$"
    ensures |head| == 1 && head[0] != '$' ==> DoubleDollar(head) == head
  {
    ReplaceConcat(head, rest, '$', "$$");
    if |head| == 1 { assert head[1..] == ""; } else { assert head[1..] == [head[1]] && head[1..][1..] == ""; }
  }

  /** The doctor's unescaping undoes the printer's doublings, whatever the home
      directory is. */
  lemma UnescapeDoubled(value: string, homeDir: string)
    ensures UnescapeWord(DoublePercent(DoubleDollar(value)), homeDir) == value
  {
    DollarsPastPercents(value);
    UndoDoubleDollar(DoublePercent(value));
    ExpandDoublePercent(value, homeDir);
  }

  // ---------- Whole command lines ----------

  /** Between words: nothing quoted, nothing pending. */
  function Between(words: seq<string>): Lexer { Lexer(words, "", None, false) }

  function AddWord(words: seq<string>, word: string): seq<string> {
    if word == "" then words else words + [word]
  }

  /** A quoted argument followed by a space or the end is one word, and an empty
      one is no word at all. */
  lemma FeedQuoted(words: seq<string>, value: string)
    ensures FeedAll(Between(words), "\"" + QuoteEscaped(value) + "\"") == Lexer(words, value, None, false)
  {
    var open := Lexer(words, "", Some('"'), false);
    var text := QuoteEscaped(value) + "\"";
    assert "\"" + QuoteEscaped(value) + "\"" == "\"" + text;
    assert ("\"" + text)[1..] == text;
    FeedConcat(open, QuoteEscaped(value), "\"");
    FeedQuoteEscaped(open, value);
    assert "" + value == value;
    assert "\""[1..] == "";
  }

  /** Text without special characters is appended to the current word. */
  predicate Plain(s: string) {
    forall i | 0 <= i < |s| :: s[i] != '\\' && s[i] != '\'' && s[i] != '"' && !IsSpace(s[i])
  }

  lemma {:induction false} FeedPlain(s: Lexer, text: string)
    requires s.quote.None? && !s.escaping && Plain(text)
    ensures FeedAll(s, text) == s.(current := s.current + text)
    decreases |text|
  {
    if text == "" {
      assert s.current + text == s.current;
    } else {
      FeedPlain(s.(current := s.current + [text[0]]), text[1..]);
      assert s.current + [text[0]] + text[1..] == s.current + text;
    }
  }

  /** Text that single quotes keep together. */
  predicate SingleQuotable(s: string) {
    forall i | 0 <= i < |s| :: s[i] != '\\' && s[i] != '\''
  }

  lemma {:induction false} FeedSingleQuoted(s: Lexer, text: string)
    requires s.quote == Some('\'') && !s.escaping && SingleQuotable(text)
    ensures FeedAll(s, text) == s.(current := s.current + text)
    decreases |text|
  {
    if text == "" {
      assert s.current + text == s.current;
    } else {
      FeedSingleQuoted(s.(current := s.current + [text[0]]), text[1..]);
      assert s.current + [text[0]] + text[1..] == s.current + text;
    }
  }

  lemma FeedSpace(words: seq<string>, word: string)
    ensures FeedAll(Lexer(words, word, None, false), " ") == Between(AddWord(words, word))
  {
    assert " "[1..] == "";
  }

  function Arguments(values: seq<string>): string {
    if values == [] then "" else " " + SystemdArg(values[0]) + Arguments(values[1..])
  }

  function NonEmptyDoubled(values: seq<string>): seq<string> {
    if values == [] then []
    else AddWord([], DoublePercent(DoubleDollar(values[0]))) + NonEmptyDoubled(values[1..])
  }

  lemma FeedArgument(words: seq<string>, word: string, values: seq<string>)
    requires values != []
    ensures FeedAll(Lexer(words, word, None, false), Arguments(values))
         == FeedAll(Lexer(AddWord(words, word), DoublePercent(DoubleDollar(values[0])), None, false), Arguments(values[1..]))
  {
    ArgEscapedMeaning(values[0]);
    FeedQuoted(AddWord(words, word), DoublePercent(DoubleDollar(values[0])));
    assert Arguments(values) == " " + (SystemdArg(values[0]) + Arguments(values[1..]));
    hide FeedAll, Arguments, DoublePercent, DoubleDollar, QuoteEscaped;
    FeedConcat(Lexer(words, word, None, false), " ", SystemdArg(values[0]) + Arguments(values[1..]));
    FeedSpace(words, word);
    FeedConcat(Between(AddWord(words, word)), SystemdArg(values[0]), Arguments(values[1..]));
  }

  /** A list of quoted arguments splits into its non-empty members. */
  lemma {:induction false} SplitArguments(words: seq<string>, word: string, values: seq<string>)
    ensures Words(FeedAll(Lexer(words, word, None, false), Arguments(values))) == AddWord(words, word) + NonEmptyDoubled(values)
    decreases |values|
  {
    if values == [] {
      assert AddWord(words, word) + [] == AddWord(words, word);
    } else {
      FeedArgument(words, word, values);
      var value := DoublePercent(DoubleDollar(values[0]));
      SplitArguments(AddWord(words, word), value, values[1..]);
      JoinWords(AddWord(words, word), value, NonEmptyDoubled(values[1..]));
    }
  }

  lemma JoinWords(words: seq<string>, word: string, rest: seq<string>)
    ensures AddWord(words, word) + rest == words + (AddWord([], word) + rest)
  {
  }

  // ---------- ExecStart ----------

  // The fixed shell text, in pieces.
  const BODY_TOKEN := "t=$(gh auth token); "
  const BODY_TEST := "[ -n \"$t\" ] || { "
  const BODY_ERROR := "echo \"ERROR: gh auth "
  const BODY_EMPTY := "token returned empty\"; "
  const BODY_EXPORT := "exit 1; }; export "
  const BODY_VARIABLE := "GITHUB_TOKEN=\"$t\"; "
  const BODY_EXEC := "exec \"$1\" \"$2\" daemon"
  const BODY_CONFIG := " --config \"$3\""

  function ShellBody(configPath: Option<string>): string {
    BODY_TOKEN + (BODY_TEST + (BODY_ERROR + (BODY_EMPTY + (BODY_EXPORT + (BODY_VARIABLE + (BODY_EXEC
    + (if configPath.None? then "" else BODY_CONFIG)))))))
  }

  lemma ShellBodyQuotable(configPath: Option<string>)
    ensures SingleQuotable(ShellBody(configPath)) && ShellBody(configPath) != ""
  {
    assert SingleQuotable(BODY_TOKEN) && SingleQuotable(BODY_TEST) && SingleQuotable(BODY_ERROR);
    assert SingleQuotable(BODY_EMPTY) && SingleQuotable(BODY_EXPORT) && SingleQuotable(BODY_VARIABLE);
    assert SingleQuotable(BODY_EXEC) && SingleQuotable(BODY_CONFIG) && SingleQuotable("") && BODY_TOKEN != "";
    hide BODY_TOKEN, BODY_TEST, BODY_ERROR, BODY_EMPTY, BODY_EXPORT, BODY_VARIABLE, BODY_EXEC, BODY_CONFIG;
  }

  /** The generated `ExecStart=` value around a shell text. */
  function ExecStartValue(body: string, execPath: string, scriptPath: string, configPath: Option<string>): string {
    "/bin/sh" + (" " + ("-c" + (" " + ("'" + (body + ("'" + (" " + ("symphonika" +
    Arguments(Operands(execPath, scriptPath, configPath))))))))))
  }

  function Operands(execPath: string, scriptPath: string, configPath: Option<string>): seq<string> {
    [execPath, scriptPath] + (match configPath case None => [] case Some(path) => [path])
  }

  datatype ExecPaths = ExecPaths(runtimePath: string, scriptPath: string)

  function UnescapeAll(words: seq<string>, homeDir: string): (r: seq<string>)
    ensures |r| == |words|
    ensures forall i | 0 <= i < |words| :: r[i] == UnescapeWord(words[i], homeDir)
  {
    if words == [] then [] else [UnescapeWord(words[0], homeDir)] + UnescapeAll(words[1..], homeDir)
  }

  /** Accepts only the generated shape. */
  function ParseGeneratedExecStart(rawValue: string, homeDir: string): Option<ExecPaths> {
    var words := UnescapeAll(SplitWords(rawValue), homeDir);
    if |words| < 6 || Basename(words[0]) != "sh" || words[1] != "-c" || words[3] != "symphonika" then None
    else Some(ExecPaths(words[4], words[5]))
  }

  lemma FeedWordThenSpace(words: seq<string>, word: string, rest: string)
    requires Plain(word) && word != ""
    ensures FeedAll(Between(words), word + (" " + rest)) == FeedAll(Between(words + [word]), rest)
  {
    FeedConcat(Between(words), word, " " + rest);
    FeedPlain(Between(words), word);
    assert "" + word == word;
    FeedConcat(Lexer(words, word, None, false), " ", rest);
    FeedSpace(words, word);
  }

  lemma FeedSingleQuotedThenSpace(words: seq<string>, text: string, rest: string)
    requires SingleQuotable(text) && text != ""
    ensures FeedAll(Between(words), "'" + (text + ("'" + (" " + rest)))) == FeedAll(Between(words + [text]), rest)
  {
    var open := Lexer(words, "", Some('\''), false);
    var full := open.(current := text);
    FeedConcat(Between(words), "'", text + ("'" + (" " + rest)));
    FeedOne(Between(words), '\'');
    FeedConcat(open, text, "'" + (" " + rest));
    FeedSingleQuoted(open, text);
    assert "" + text == text;
    FeedConcat(full, "'", " " + rest);
    FeedOne(full, '\'');
    FeedConcat(Lexer(words, text, None, false), " ", rest);
    FeedSpace(words, text);
  }

  /** The words of the generated value. */
  lemma ExecStartWords(body: string, execPath: string, scriptPath: string, configPath: Option<string>)
    requires SingleQuotable(body) && body != ""
    ensures SplitWords(ExecStartValue(body, execPath, scriptPath, configPath))
         == ["/bin/sh", "-c", body, "symphonika"] + NonEmptyDoubled(Operands(execPath, scriptPath, configPath))
  {
    hide FeedAll, Words, Arguments, Operands, NonEmptyDoubled;
    var tail := "symphonika" + Arguments(Operands(execPath, scriptPath, configPath));
    var quoted := "'" + (body + ("'" + (" " + tail)));
    FeedWordThenSpace([], "/bin/sh", "-c" + (" " + quoted));
    FeedWordThenSpace(["/bin/sh"], "-c", quoted);
    FeedSingleQuotedThenSpace(["/bin/sh", "-c"], body, tail);
    CommandTail(["/bin/sh", "-c", body], "symphonika", Operands(execPath, scriptPath, configPath));
    assert [] + ["/bin/sh"] == ["/bin/sh"];
    assert ["/bin/sh"] + ["-c"] == ["/bin/sh", "-c"];
    assert ["/bin/sh", "-c"] + [body] == ["/bin/sh", "-c", body];
    assert ["/bin/sh", "-c", body] + ["symphonika"] == ["/bin/sh", "-c", body, "symphonika"];
  }

  lemma CommandTail(words: seq<string>, name: string, values: seq<string>)
    requires Plain(name) && name != ""
    ensures Words(FeedAll(Between(words), name + Arguments(values))) == words + [name] + NonEmptyDoubled(values)
  {
    FeedConcat(Between(words), name, Arguments(values));
    FeedPlain(Between(words), name);
    assert "" + name == name;
    SplitArguments(words, name, values);
  }

  lemma FixedWordsUnescape(homeDir: string)
    ensures UnescapeWord("/bin/sh", homeDir) == "/bin/sh"
    ensures UnescapeWord("-c", homeDir) == "-c"
    ensures UnescapeWord("symphonika", homeDir) == "symphonika"
  {
    NoEscapes("/bin/sh", homeDir);
    NoEscapes("-c", homeDir);
    NoEscapes("symphonika", homeDir);
  }

  lemma ShellBaseName()
    ensures Basename("/bin/sh") == "sh"
  {
    assert "/bin/sh"[..6] == "/bin/s";
    assert "/bin/s"[..5] == "/bin/";
    assert AfterLastSlash("/bin/s") == AfterLastSlash("/bin/") + "s";
  }

  lemma {:induction false} NoEscapes(s: string, homeDir: string)
    requires forall i | 0 <= i < |s| :: s[i] != '$' && s[i] != '%'
    ensures UndoDollar(s) == s && ExpandPercent(s, homeDir) == s
  {
    if s != "" {
      NoEscapes(s[1..], homeDir);
      assert s == [s[0]] + s[1..];
    }
  }

  lemma {:induction false} DoubledNonEmpty(value: string)
    ensures DoublePercent(DoubleDollar(value)) == "" <==> value == ""
  {
    if value != "" {
      assert DoubleDollar(value) != "";
    }
  }

  lemma NonEmptyOfPair(a: string, b: string, rest: seq<string>)
    ensures NonEmptyDoubled([a, b] + rest)
         == AddWord([], DoublePercent(DoubleDollar(a))) + (AddWord([], DoublePercent(DoubleDollar(b))) + NonEmptyDoubled(rest))
  {
    assert ([a, b] + rest)[1..] == [b] + rest;
    assert ([b] + rest)[1..] == rest;
  }

  /** The doctor recovers exactly the paths the unit was generated from, if and
      only if both are non-empty; the home directory never enters. */
  lemma ExecStartRoundTrip(body: string, execPath: string, scriptPath: string, configPath: Option<string>, homeDir: string)
    requires SingleQuotable(body) && body != ""
    ensures ParseGeneratedExecStart(ExecStartValue(body, execPath, scriptPath, configPath), homeDir) == Some(ExecPaths(execPath, scriptPath))
            <==> execPath != "" && scriptPath != ""
  {
    var value := ExecStartValue(body, execPath, scriptPath, configPath);
    var raw := SplitWords(value);
    ExecStartWords(body, execPath, scriptPath, configPath);
    ParseFromWords(value, raw, homeDir);
    OperandWords(execPath, scriptPath, configPath, raw, body, homeDir);
  }

  lemma ParseFromWords(value: string, raw: seq<string>, homeDir: string)
    requires raw == SplitWords(value) && |raw| >= 4
    requires raw[0] == "/bin/sh" && raw[1] == "-c" && raw[3] == "symphonika"
    ensures ParseGeneratedExecStart(value, homeDir)
         == if |raw| < 6 then None else Some(ExecPaths(UnescapeWord(raw[4], homeDir), UnescapeWord(raw[5], homeDir)))
  {
    hide UnescapeWord, SplitWords, Basename;
    FixedWordsUnescape(homeDir);
    ShellBaseName();
    var words := UnescapeAll(raw, homeDir);
    assert words[0] == UnescapeWord(raw[0], homeDir) && words[1] == UnescapeWord(raw[1], homeDir);
    assert words[3] == UnescapeWord(raw[3], homeDir);
  }

  lemma LastArgument(path: string, homeDir: string)
    ensures NonEmptyDoubled([path]) == if path == "" then [] else [DoublePercent(DoubleDollar(path))]
    ensures UnescapeWord(DoublePercent(DoubleDollar(path)), homeDir) == path
  {
    DoubledNonEmpty(path);
    UnescapeDoubled(path, homeDir);
    assert [path][1..] == [];
  }

  /** Positions 4 and 5 hold the two paths exactly when neither is empty. */
  lemma OperandWords(a: string, b: string, configPath: Option<string>, raw: seq<string>, body: string, homeDir: string)
    requires raw == ["/bin/sh", "-c", body, "symphonika"] + NonEmptyDoubled(Operands(a, b, configPath))
    ensures a != "" && b != "" <==> |raw| >= 6 && UnescapeWord(raw[4], homeDir) == a && UnescapeWord(raw[5], homeDir) == b
  {
    var rest := match configPath case None => [] case Some(path) => [path];
    hide UnescapeWord, DoublePercent, DoubleDollar, NonEmptyDoubled;
    NonEmptyOfPair(a, b, rest);
    DoubledNonEmpty(a);
    DoubledNonEmpty(b);
    UnescapeDoubled(a, homeDir);
    UnescapeDoubled(b, homeDir);
    if configPath.Some? {
      LastArgument(configPath.value, homeDir);
    } else {
      NoArguments();
    }
  }

  lemma NoArguments()
    ensures NonEmptyDoubled([]) == []
  {
  }

  // ---------- Unit text ----------

  function TrimStart(s: string): string {
    if s != "" && IsSpace(s[0]) then TrimStart(s[1..]) else s
  }

  function TrimEnd(s: string): string {
    if s != "" && IsSpace(s[|s| - 1]) then TrimEnd(s[..|s| - 1]) else s
  }

  function Trim(s: string): string { TrimEnd(TrimStart(s)) }

  /** The text before and after the first `=`, if there is one. */
  function SplitAtEquals(s: string): Option<(string, string)> {
    if s == "" then None
    else if s[0] == '=' then Some(("", s[1..]))
    else
      match SplitAtEquals(s[1..])
      case None => None
      case Some(pair) => Some(([s[0]] + pair.0, pair.1))
  }

  /** The name inside `[...]` when the whole text is a section header. */
  function SectionName(s: string): Option<string> {
    if |s| >= 3 && s[0] == '[' && s[|s| - 1] == ']' && ']' !in s[1..|s| - 1] then Some(s[1..|s| - 1]) else None
  }

  datatype Scan = Scan(inService: bool, winner: Option<string>)

  function ScanLine(state: Scan, line: string, name: string): Scan {
    var trimmed := Trim(line);
    match SectionName(trimmed)
    case Some(section) => state.(inService := section == "Service")
    case None =>
      if !state.inService || trimmed == "" || trimmed[0] == '#' || trimmed[0] == ';' then state
      else
        match SplitAtEquals(trimmed)
        case None => state
        case Some((left, right)) => if left == "" || Trim(left) != name then state else state.(winner := Some(Trim(right)))
  }

  function ScanLines(state: Scan, lines: seq<string>, name: string): Scan
    decreases |lines|
  {
    if lines == [] then state else ScanLines(ScanLine(state, lines[0], name), lines[1..], name)
  }

  /** The last assignment of `name` in a `[Service]` section. */
  method WinningServiceAssignment(lines: seq<string>, name: string) returns (winner: Option<string>)
    ensures winner == ScanLines(Scan(false, None), lines, name).winner
  {
    var inServiceSection := false;
    winner := None;
    for i := 0 to |lines|
      invariant ScanLines(Scan(inServiceSection, winner), lines[i..], name) == ScanLines(Scan(false, None), lines, name)
    {
      assert lines[i..][1..] == lines[i + 1..];
      var trimmed := Trim(lines[i]);
      var section := SectionName(trimmed);
      if section.Some? {
        inServiceSection := section.value == "Service";
        continue;
      }
      if !inServiceSection || trimmed == "" || trimmed[0] == '#' || trimmed[0] == ';' {
        continue;
      }
      var pair := SplitAtEquals(trimmed);
      if pair.None? || pair.value.0 == "" || Trim(pair.value.0) != name {
        continue;
      }
      winner := Some(Trim(pair.value.1));
    }
    assert lines[|lines|..] == [];
  }

  lemma {:induction false} ScanConcat(state: Scan, a: seq<string>, b: seq<string>, name: string)
    ensures ScanLines(state, a + b, name) == ScanLines(ScanLines(state, a, name), b, name)
    decreases |a|
  {
    if a == [] {
      assert a + b == b;
    } else {
      assert (a + b)[1..] == a[1..] + b;
      ScanConcat(ScanLine(state, a[0], name), a[1..], b, name);
    }
  }

  predicate LettersOnly(s: string) { s != "" && forall i | 0 <= i < |s| :: 'A' <= s[i] <= 'Z' || 'a' <= s[i] <= 'z' }

  lemma {:induction false} TrimEndKeeps(head: string, s: string)
    requires head != "" && !IsSpace(head[|head| - 1])
    ensures TrimEnd(head + s) == head + TrimEnd(s)
    decreases |s|
  {
    if s == "" {
      assert head + s == head;
      assert head + TrimEnd(s) == head;
    } else if IsSpace(s[|s| - 1]) {
      assert (head + s)[..|head + s| - 1] == head + s[..|s| - 1];
      TrimEndKeeps(head, s[..|s| - 1]);
    }
  }

  lemma {:induction false} SplitDirective(name: string, value: string)
    requires forall i | 0 <= i < |name| :: name[i] != '='
    ensures SplitAtEquals(name + "=" + value) == Some((name, value))
  {
    var s := name + "=" + value;
    if name == "" {
      assert s[1..] == value;
    } else {
      assert s[1..] == name[1..] + "=" + value;
      SplitDirective(name[1..], value);
      assert [s[0]] + name[1..] == name;
    }
  }

  lemma {:induction false} TrimLetters(name: string)
    requires LettersOnly(name)
    ensures Trim(name) == name
  {
  }

  /** A line that spells a directive, as the scanner sees it. */
  lemma ScanDirective(state: Scan, name: string, value: string, wanted: string)
    requires LettersOnly(name) && state.inService
    ensures ScanLine(state, name + "=" + value, wanted)
         == if name == wanted then state.(winner := Some(Trim(TrimEnd(value)))) else state
  {
    var line := name + "=" + value;
    var head := name + "=";
    assert line == head + value;
    assert line[0] == name[0];
    assert TrimStart(line) == line;
    TrimEndKeeps(head, value);
    SplitDirective(name, TrimEnd(value));
    TrimLetters(name);
    assert Trim(line)[0] == name[0];
  }

  /** The lines assign `name` in no `[Service]` section. */
  ghost predicate Silent(lines: seq<string>, name: string) {
    forall state: Scan :: ScanLines(state, lines, name).winner == state.winner
  }

  /** From the generated unit back to the paths: whatever the other lines are, as
      long as the `[Service]` section is open and no later one assigns
      `ExecStart=` again, the paths come back exactly. */
  lemma UnitRoundTrip(before: seq<string>, after: seq<string>, execPath: string, scriptPath: string,
                      configPath: Option<string>, homeDir: string)
    requires execPath != "" && scriptPath != ""
    requires ScanLines(Scan(false, None), before, EXEC_START).inService
    requires Silent(after, EXEC_START)
    ensures var value := ExecStartValue(ShellBody(configPath), execPath, scriptPath, configPath);
      var unit := before + [EXEC_START + "=" + value] + after;
      && ScanLines(Scan(false, None), unit, EXEC_START).winner == Some(value)
      && ParseGeneratedExecStart(value, homeDir) == Some(ExecPaths(execPath, scriptPath))
  {
    hide *;
    var body := ShellBody(configPath);
    ShellBodyQuotable(configPath);
    ExecStartRoundTrip(body, execPath, scriptPath, configPath, homeDir);
    ValueTrimmed(body, execPath, scriptPath, configPath);
    ExecStartIsLetters();
    WinnerIs(before, after, EXEC_START, ExecStartValue(body, execPath, scriptPath, configPath));
  }

  const EXEC_START := "ExecStart"

  lemma ExecStartIsLetters()
    ensures LettersOnly(EXEC_START)
  {
  }

  /** The one assignment after which nothing speaks of `name` wins. */
  lemma WinnerIs(before: seq<string>, after: seq<string>, name: string, value: string)
    requires LettersOnly(name)
    requires ScanLines(Scan(false, None), before, name).inService
    requires Silent(after, name)
    ensures ScanLines(Scan(false, None), before + [name + "=" + value] + after, name).winner == Some(Trim(TrimEnd(value)))
  {
    hide ScanLine, Trim, TrimEnd;
    var start := Scan(false, None);
    var line := name + "=" + value;
    ScanConcat(start, before + [line], after, name);
    ScanConcat(start, before, [line], name);
    ScanDirective(ScanLines(start, before, name), name, value, name);
    assert [line][1..] == [];
  }

  lemma {:induction false} ArgumentsEnd(values: seq<string>)
    requires values != []
    ensures Arguments(values) != "" && Arguments(values)[|Arguments(values)| - 1] == '"'
  {
    if |values| > 1 {
      ArgumentsEnd(values[1..]);
    } else {
      assert Arguments(values[1..]) == "";
    }
  }

  lemma ValueTrimmed(body: string, execPath: string, scriptPath: string, configPath: Option<string>)
    ensures var value := ExecStartValue(body, execPath, scriptPath, configPath);
      TrimEnd(value) == value && Trim(value) == value
  {
    ArgumentsEnd(Operands(execPath, scriptPath, configPath));
    var value := ExecStartValue(body, execPath, scriptPath, configPath);
    var arguments := Arguments(Operands(execPath, scriptPath, configPath));
    assert value[|value| - 1] == arguments[|arguments| - 1];
    assert value[0] == '/';
  }

  // ---------- Environment ----------

  function SkipBlanks(s: string): string {
    if s != "" && (s[0] == ' ' || s[0] == '\t') then SkipBlanks(s[1..]) else s
  }

  function AfterPrefix(s: string, prefix: string): Option<string> {
    if prefix <= s then Some(s[|prefix|..]) else None
  }

  /** The value of an `Environment=` line; the pattern's dot excludes line
      terminators. */
  function EnvironmentValue(line: string): Option<string> {
    match AfterPrefix(SkipBlanks(line), "Environment")
    case None => None
    case Some(rest) =>
      match AfterPrefix(SkipBlanks(rest), "=")
      case None => None
      case Some(tail) => if OneLine(SkipBlanks(tail)) then Some(SkipBlanks(tail)) else None
  }

  function PathOf(assignment: string, homeDir: string): Option<string> {
    match AfterPrefix(assignment, "PATH=")
    case None => None
    case Some(value) => Some(ExpandPercent(value, homeDir))
  }

  function LastPath(words: seq<string>, path: Option<string>, homeDir: string): Option<string> {
    if words == [] then path
    else LastPath(words[1..], if PathOf(words[0], homeDir).Some? then PathOf(words[0], homeDir) else path, homeDir)
  }

  function EnvironmentLine(path: Option<string>, line: string, homeDir: string): Option<string> {
    match EnvironmentValue(line)
    case None => path
    case Some(raw) => if Trim(raw) == "" then None else LastPath(SplitWords(raw), path, homeDir)
  }

  function EnvironmentLines(path: Option<string>, lines: seq<string>, homeDir: string): Option<string>
    decreases |lines|
  {
    if lines == [] then path else EnvironmentLines(EnvironmentLine(path, lines[0], homeDir), lines[1..], homeDir)
  }

  /** The last `PATH` assigned by the unit's lines; an empty value resets it. */
  method SystemdEnvironmentPath(lines: seq<string>, homeDir: string) returns (environmentPath: Option<string>)
    ensures environmentPath == EnvironmentLines(None, lines, homeDir)
  {
    environmentPath := None;
    for i := 0 to |lines|
      invariant EnvironmentLines(environmentPath, lines[i..], homeDir) == EnvironmentLines(None, lines, homeDir)
    {
      assert lines[i..][1..] == lines[i + 1..];
      var rawValue := EnvironmentValue(lines[i]);
      if rawValue.None? {
        continue;
      }
      if Trim(rawValue.value) == "" {
        environmentPath := None;
        continue;
      }
      var words := SplitSystemdWords(rawValue.value);
      ghost var before := environmentPath;
      for k := 0 to |words|
        invariant LastPath(words[k..], environmentPath, homeDir) == LastPath(words, before, homeDir)
      {
        assert words[k..][1..] == words[k + 1..];
        var path := PathOf(words[k], homeDir);
        if path.Some? {
          environmentPath := path;
        }
      }
      assert words[|words|..] == [];
    }
    assert lines[|lines|..] == [];
  }

  lemma {:induction false} ReplaceKeepsOneLine(s: string, c: char, sub: string)
    requires OneLine(s) && OneLine(sub)
    ensures OneLine(ReplaceChar(s, c, sub))
  {
    if s != "" { ReplaceKeepsOneLine(s[1..], c, sub); }
  }

  lemma EnvEscapedOneLine(s: string)
    requires OneLine(s)
    ensures OneLine(EnvEscaped(s))
  {
    ReplaceKeepsOneLine(s, '\\', "\\\\");
    ReplaceKeepsOneLine(ReplaceChar(s, '\\', "\\\\"), '"', "\\\"");
    ReplaceKeepsOneLine(QuoteEscaped(s), '%', "%%");
  }

  /** The generated line assigns exactly the PATH it was generated from, whatever
      was assigned before it. */
  lemma EnvironmentRoundTrip(path: string, homeDir: string, earlier: Option<string>)
    requires OneLine(path)
    ensures EnvironmentLine(earlier, "Environment=" + SystemdEnvAssignment("PATH", path), homeDir) == Some(path)
  {
    var pair := "PATH" + "=" + path;
    var quoted := SystemdEnvAssignment("PATH", path);
    var word := DoublePercent(pair);
    EnvEscapedOneLine(pair);
    EnvironmentValueOf(quoted);
    QuotedNotBlank(quoted);
    ArgEscapedMeaning(pair);
    FeedQuoted([], word);
    DoublePath(path);
    PathWord(word, path, homeDir);
    assert word != "" && [] + [word] == [word];
    assert SplitWords(quoted) == [word];
    OnePathWord(word, earlier, homeDir);
  }

  lemma OnePathWord(word: string, earlier: Option<string>, homeDir: string)
    requires PathOf(word, homeDir).Some?
    ensures LastPath([word], earlier, homeDir) == PathOf(word, homeDir)
  {
    assert [word][1..] == [];
  }

  lemma PathWord(word: string, path: string, homeDir: string)
    requires word == "PATH=" + DoublePercent(path)
    ensures PathOf(word, homeDir) == Some(path)
  {
    assert word[5..] == DoublePercent(path);
    ExpandDoublePercent(path, homeDir);
  }

  lemma EnvironmentValueOf(quoted: string)
    requires quoted != "" && quoted[0] == '"' && OneLine(quoted)
    ensures EnvironmentValue("Environment=" + quoted) == Some(quoted)
  {
    var line := "Environment=" + quoted;
    assert line[|"Environment"|..] == "=" + quoted;
    assert ("=" + quoted)[1..] == quoted;
  }

  lemma QuotedNotBlank(quoted: string)
    requires |quoted| >= 2 && quoted[0] == '"' && quoted[|quoted| - 1] == '"'
    ensures Trim(quoted) == quoted
  {
  }

  lemma DoublePath(path: string)
    ensures DoublePercent("PATH" + "=" + path) == "PATH=" + DoublePercent(path)
  {
    assert "PATH" + "=" + path == "PATH=" + path;
    ReplaceConcat("PATH=", path, '%', "%%");
    NothingToReplace("PATH=", '%', "%%");
  }

  lemma {:induction false} NothingToReplace(s: string, c: char, sub: string)
    requires c !in s
    ensures ReplaceChar(s, c, sub) == s
  {
    if s != "" {
      NothingToReplace(s[1..], c, sub);
      assert s == [s[0]] + s[1..];
    }
  }

  /** A later line that is no `Environment=` line leaves the path alone. */
  lemma {:induction false} EnvironmentUnitRoundTrip(before: seq<string>, after: seq<string>, path: string, homeDir: string)
    requires OneLine(path)
    requires forall i | 0 <= i < |after| :: EnvironmentValue(after[i]).None?
    ensures EnvironmentLines(None, before + ["Environment=" + SystemdEnvAssignment("PATH", path)] + after, homeDir) == Some(path)
  {
    var line := "Environment=" + SystemdEnvAssignment("PATH", path);
    EnvironmentConcat(None, before + [line], after, homeDir);
    EnvironmentConcat(None, before, [line], homeDir);
    var earlier := EnvironmentLines(None, before, homeDir);
    EnvironmentRoundTrip(path, homeDir, earlier);
    assert [line][1..] == [];
    EnvironmentSilent(Some(path), after, homeDir);
  }

  lemma {:induction false} EnvironmentConcat(path: Option<string>, a: seq<string>, b: seq<string>, homeDir: string)
    ensures EnvironmentLines(path, a + b, homeDir) == EnvironmentLines(EnvironmentLines(path, a, homeDir), b, homeDir)
    decreases |a|
  {
    if a == [] {
      assert a + b == b;
    } else {
      assert (a + b)[1..] == a[1..] + b;
      EnvironmentConcat(EnvironmentLine(path, a[0], homeDir), a[1..], b, homeDir);
    }
  }

  lemma {:induction false} EnvironmentSilent(path: Option<string>, lines: seq<string>, homeDir: string)
    requires forall i | 0 <= i < |lines| :: EnvironmentValue(lines[i]).None?
    ensures EnvironmentLines(path, lines, homeDir) == path
    decreases |lines|
  {
    if lines != [] { EnvironmentSilent(path, lines[1..], homeDir); }
  }
}
