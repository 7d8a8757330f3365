/** What the readers of a systemd unit make of text that was not generated: the
    doctor's `parseGeneratedExecStart` and the two line scanners. */
module UnitReaders {
  import opened Wrappers
  import opened Strings
  import opened SystemdQuoting

  // ---------- Specifiers ----------

  /** A piece of a unit value: text without `%`, `%%`, `%h`, or another specifier. */
  datatype Part = Verbatim(text: string) | Percent | Home | Other(c: char)

  predicate Legal(part: Part) {
    match part
    case Verbatim(text) => '%' !in text
    case Other(c) => c != '%' && c != 'h'
    case _ => true
  }

  function Spelled(parts: seq<Part>): string {
    if parts == [] then ""
    else
      (match parts[0]
       case Verbatim(text) => text
       case Percent => "%%"
       case Home => "%h"
       case Other(c) => ['%', c]) + Spelled(parts[1..])
  }

  function Expanded(parts: seq<Part>, homeDir: string): string {
    if parts == [] then ""
    else
      (match parts[0]
       case Verbatim(text) => text
       case Percent => "%"
       case Home => homeDir
       case Other(c) => ['%', c]) + Expanded(parts[1..], homeDir)
  }

  lemma {:induction false} ExpandPast(text: string, rest: string, homeDir: string)
    requires '%' !in text
    ensures ExpandPercent(text + rest, homeDir) == text + ExpandPercent(rest, homeDir)
  {
    if text == "" {
      assert text + rest == rest;
    } else {
      assert (text + rest)[1..] == text[1..] + rest;
      ExpandPast(text[1..], rest, homeDir);
      assert text == [text[0]] + text[1..];
    }
  }

  /** `%%` becomes a percent sign, `%h` the home directory, and nothing else changes,
      a last single `%` included. */
  lemma {:induction false} SpecifiersExact(parts: seq<Part>, homeDir: string)
    requires forall i | 0 <= i < |parts| :: Legal(parts[i])
    ensures ExpandPercent(Spelled(parts), homeDir) == Expanded(parts, homeDir)
    ensures ExpandPercent(Spelled(parts) + "%", homeDir) == Expanded(parts, homeDir) + "%"
  {
    if parts == [] {
      assert "" + "%" == "%" && "%"[1..] == "" && ['%'] == "%";
    } else {
      SpecifiersExact(parts[1..], homeDir);
      SpecifierFirst(parts[0], Spelled(parts[1..]), homeDir);
      SpecifierFirst(parts[0], Spelled(parts[1..]) + "%", homeDir);
      hide ExpandPercent;
      assert Spelled(parts) + "%" == One(parts[0]) + (Spelled(parts[1..]) + "%");
    }
  }

  function One(part: Part): string {
    match part
    case Verbatim(text) => text
    case Percent => "%%"
    case Home => "%h"
    case Other(c) => ['%', c]
  }

  lemma SpecifierFirst(part: Part, rest: string, homeDir: string)
    requires Legal(part)
    ensures ExpandPercent(One(part) + rest, homeDir) ==
            (match part case Verbatim(text) => text case Percent => "%" case Home => homeDir case Other(c) => ['%', c]) + ExpandPercent(rest, homeDir)
  {
    match part
    case Verbatim(text) => ExpandPast(text, rest, homeDir);
    case Percent => assert ("%%" + rest)[2..] == rest;
    case Home => assert ("%h" + rest)[2..] == rest;
    case Other(c) =>
      var s := ['%', c] + rest;
      assert s[1..] == [c] + rest;
      ExpandPast([c], rest, homeDir);
      assert ['%'] + ([c] + ExpandPercent(rest, homeDir)) == ['%', c] + ExpandPercent(rest, homeDir);
  }

  lemma {:induction false} UndoPast(text: string, rest: string)
    requires '$' !in text
    ensures UndoDollar(text + rest) == text + UndoDollar(rest)
  {
    if text == "" {
      assert text + rest == rest;
    } else {
      assert (text + rest)[1..] == text[1..] + rest;
      UndoPast(text[1..], rest);
      assert text == [text[0]] + text[1..];
    }
  }

  /** `$$` becomes a dollar sign; a single one before another character stays. */
  lemma DollarsExact(text: string, c: char, rest: string)
    requires '$' !in text && c != '$'
    ensures UndoDollar(text) == text && UndoDollar(text + "$") == text + "$"
    ensures UndoDollar(text + "$$" + rest) == text + "$" + UndoDollar(rest)
    ensures UndoDollar(text + ['$', c] + rest) == text + ['$', c] + UndoDollar(rest)
  {
    hide UndoDollar;
    UndoPast(text, "");
    assert text + "" == text;
    UndoPast(text, "$");
    assert text + "$$" + rest == text + ("$$" + rest);
    UndoPast(text, "$$" + rest);
    assert text + ['$', c] + rest == text + (['$', c] + rest);
    UndoPast(text, ['$', c] + rest);
    DollarFirst(c, rest);
  }

  lemma DollarFirst(c: char, rest: string)
    requires c != '$'
    ensures UndoDollar("") == "" && UndoDollar("$") == "$"
    ensures UndoDollar("$$" + rest) == "$" + UndoDollar(rest)
    ensures UndoDollar(['$', c] + rest) == ['$', c] + UndoDollar(rest)
  {
    assert "$"[1..] == "" && ['$'] == "$";
    DoubleFirst(rest);
    SingleFirst(c, rest);
  }

  lemma DoubleFirst(rest: string)
    ensures UndoDollar("$$" + rest) == "$" + UndoDollar(rest)
  {
    assert ("$$" + rest)[2..] == rest;
  }

  lemma SingleFirst(c: char, rest: string)
    requires c != '$'
    ensures UndoDollar(['$', c] + rest) == ['$', c] + UndoDollar(rest)
  {
    var s := ['$', c] + rest;
    assert s[1..] == [c] + rest;
    assert UndoDollar(s) == ['$'] + UndoDollar([c] + rest);
    hide UndoDollar;
    UndoPast([c], rest);
  }

  // ---------- Command lines ----------

  function NonEmpty(values: seq<string>): seq<string> {
    if values == [] then [] else (if values[0] == "" then [] else [values[0]]) + NonEmpty(values[1..])
  }

  /** `sh` in some directory, or alone. */
  ghost predicate IsShell(path: string) {
    exists directory, slashes :: IsLastSegment(path, directory, "sh", slashes)
  }

  /** A quoted command line, whatever its arguments, is taken for a generated one
      exactly when its first word is a shell, the second `-c`, the fourth the marker
      and there are two more, which are then the paths. */
  lemma CommandsExact(values: seq<string>, homeDir: string)
    ensures var words := NonEmpty(values);
      var recognized := |words| >= 6 && IsShell(words[0]) && words[1] == "-c" && words[3] == "symphonika";
      ParseGeneratedExecStart(Arguments(values), homeDir) == if recognized then Some(ExecPaths(words[4], words[5])) else None
  {
    SplitArguments([], "", values);
    assert [] + NonEmptyDoubled(values) == NonEmptyDoubled(values);
    Unescaped(values, homeDir);
    var words := NonEmpty(values);
    if |words| >= 6 { BasenameExact(words[0], "sh"); }
    assert UnescapeAll(SplitWords(Arguments(values)), homeDir) == words;
    hide SplitWords, UnescapeAll, Arguments, NonEmpty, NonEmptyDoubled, Basename, IsLastSegment;
  }

  lemma {:induction false} Unescaped(values: seq<string>, homeDir: string)
    ensures UnescapeAll(NonEmptyDoubled(values), homeDir) == NonEmpty(values)
  {
    if values != [] {
      Unescaped(values[1..], homeDir);
      var word := DoublePercent(DoubleDollar(values[0]));
      DoubledNonEmpty(values[0]);
      UnescapeDoubled(values[0], homeDir);
      hide DoublePercent, DoubleDollar, UnescapeWord;
      var rest := NonEmptyDoubled(values[1..]);
      assert values[0] != "" ==> ([word] + rest)[1..] == rest;
      assert values[0] == "" ==> [] + rest == rest;
    }
  }

  // ---------- Words ----------

  /** A stretch of a word: plain text, quoted text, or one escaped character. */
  datatype Segment = Bare(text: string) | Quoted(text: string) | Single(text: string) | Escaped(c: char)

  predicate Writable(segment: Segment) {
    match segment
    case Bare(text) => Plain(text)
    case Single(text) => SingleQuotable(text)
    case _ => true
  }

  function Written(segments: seq<Segment>): string {
    if segments == [] then "" else WrittenOne(segments[0]) + Written(segments[1..])
  }

  function WrittenOne(segment: Segment): string {
    match segment
    case Bare(text) => text
    case Quoted(text) => "\"" + QuoteEscaped(text) + "\""
    case Single(text) => "'" + text + "'"
    case Escaped(c) => ['\\', c]
  }

  function Meant(segments: seq<Segment>): string {
    if segments == [] then ""
    else
      (match segments[0] case Bare(text) => text case Quoted(text) => text case Single(text) => text case Escaped(c) => [c])
      + Meant(segments[1..])
  }

  lemma SegmentRead(words: seq<string>, current: string, segment: Segment)
    requires Writable(segment)
    ensures FeedAll(Lexer(words, current, None, false), WrittenOne(segment)) == Lexer(words, current + Meant([segment]), None, false)
  {
    assert [segment][1..] == [];
    var start := Lexer(words, current, None, false);
    match segment
    case Bare(text) =>
      FeedPlain(start, text);
      assert text + "" == text;
    case Quoted(text) =>
      QuotedRead(words, current, text);
      assert text + "" == text;
    case Single(text) =>
      SingleRead(words, current, text);
      assert text + "" == text;
    case Escaped(c) =>
      assert ['\\', c] == ['\\'] + [c];
      FeedConcat(start, ['\\'], [c]);
      FeedOne(start, '\\');
      FeedOne(start.(escaping := true), c);
      assert [c] + "" == [c];
  }

  lemma QuotedRead(words: seq<string>, current: string, text: string)
    ensures FeedAll(Lexer(words, current, None, false), "\"" + QuoteEscaped(text) + "\"") == Lexer(words, current + text, None, false)
  {
    var start, open := Lexer(words, current, None, false), Lexer(words, current, Some('"'), false);
    assert "\"" + QuoteEscaped(text) + "\"" == ['"'] + (QuoteEscaped(text) + ['"']);
    hide QuoteEscaped;
    FeedConcat(start, ['"'], QuoteEscaped(text) + ['"']);
    FeedOne(start, '"');
    FeedConcat(open, QuoteEscaped(text), ['"']);
    FeedQuoteEscaped(open, text);
    FeedOne(open.(current := current + text), '"');
  }

  lemma SingleRead(words: seq<string>, current: string, text: string)
    requires SingleQuotable(text)
    ensures FeedAll(Lexer(words, current, None, false), "'" + text + "'") == Lexer(words, current + text, None, false)
  {
    var start, open := Lexer(words, current, None, false), Lexer(words, current, Some('\''), false);
    assert "'" + text + "'" == ['\''] + (text + ['\'']);
    FeedConcat(start, ['\''], text + ['\'']);
    FeedOne(start, '\'');
    FeedConcat(open, text, ['\'']);
    FeedSingleQuoted(open, text);
    FeedOne(open.(current := current + text), '\'');
  }

  lemma {:induction false} WordRead(words: seq<string>, current: string, segments: seq<Segment>)
    requires forall i | 0 <= i < |segments| :: Writable(segments[i])
    ensures FeedAll(Lexer(words, current, None, false), Written(segments)) == Lexer(words, current + Meant(segments), None, false)
    decreases |segments|
  {
    if segments == [] {
      assert current + "" == current && FeedAll(Lexer(words, current, None, false), "") == Lexer(words, current, None, false);
    } else {
      hide FeedAll, WrittenOne, Writable, Meant;
      SegmentRead(words, current, segments[0]);
      FeedConcat(Lexer(words, current, None, false), WrittenOne(segments[0]), Written(segments[1..]));
      WordRead(words, current + Meant([segments[0]]), segments[1..]);
      MeantFirst(segments);
      Regrouped(current, Meant([segments[0]]), Meant(segments[1..]));
    }
  }

  lemma MeantFirst(segments: seq<Segment>)
    requires segments != []
    ensures Meant(segments) == Meant([segments[0]]) + Meant(segments[1..])
    ensures Meant([]) == ""
  {
    assert [segments[0]][1..] == [];
  }

  lemma Regrouped(a: string, b: string, c: string)
    ensures a + b + c == a + (b + c)
  {
  }

  function WrittenLine(line: seq<seq<Segment>>, space: char): string {
    if line == [] then "" else Written(line[0]) + [space] + WrittenLine(line[1..], space)
  }

  function MeantWords(line: seq<seq<Segment>>): seq<string> {
    if line == [] then [] else AddWord([], Meant(line[0])) + MeantWords(line[1..])
  }

  /** The splitter on all such lines: segments that touch make one word, whatever
      their quoting; whitespace outside quotes ends a word; and a word that comes
      out empty is none. */
  lemma {:induction false} WordsExact(words: seq<string>, line: seq<seq<Segment>>, space: char)
    requires IsSpace(space) && forall i, k | 0 <= i < |line| && 0 <= k < |line[i]| :: Writable(line[i][k])
    ensures FeedAll(Between(words), WrittenLine(line, space)) == Between(words + MeantWords(line))
    ensures words == [] ==> SplitWords(WrittenLine(line, space)) == MeantWords(line)
    decreases |line|
  {
    if line == [] {
      assert words + [] == words;
    } else {
      var word, rest := Meant(line[0]), WrittenLine(line[1..], space);
      hide FeedAll, Meant, Written, Writable, IsSpace;
      WordRead(words, "", line[0]);
      assert "" + word == word;
      FeedConcat(Between(words), Written(line[0]), [space] + rest);
      assert WrittenLine(line, space) == Written(line[0]) + ([space] + rest);
      FeedConcat(Lexer(words, word, None, false), [space], rest);
      SpaceEnds(words, word, space);
      WordsExact(AddWord(words, word), line[1..], space);
      JoinWords(words, word, MeantWords(line[1..]));
    }
    assert words == [] ==> words + MeantWords(line) == MeantWords(line);
  }

  lemma SpaceEnds(words: seq<string>, word: string, space: char)
    requires IsSpace(space)
    ensures FeedAll(Lexer(words, word, None, false), [space]) == Between(AddWord(words, word))
  {
    FeedOne(Lexer(words, word, None, false), space);
  }

  /** A backslash at the very end stands for itself. */
  lemma LastBackslash(text: string)
    requires Plain(text)
    ensures SplitWords(text + "\\") == [text + "\\"]
  {
    FeedConcat(START, text, ['\\']);
    FeedPlain(START, text);
    assert "" + text == text;
    FeedOne(START.(current := text), '\\');
    assert text + "\\" == text + ['\\'];
  }

  // ---------- Lines ----------

  predicate Blank(s: string) { forall i | 0 <= i < |s| :: IsSpace(s[i]) }

  /** Empty, or starting and ending with something that is no whitespace. */
  predicate Tight(s: string) { s == "" || (!IsSpace(s[0]) && !IsSpace(s[|s| - 1])) }

  lemma {:induction false} TrimStartExact(before: string, core: string)
    requires Blank(before) && (core == "" || !IsSpace(core[0]))
    ensures TrimStart(before + core) == core
  {
    if before == "" {
      assert before + core == core;
    } else {
      assert (before + core)[1..] == before[1..] + core;
      TrimStartExact(before[1..], core);
    }
  }

  lemma {:induction false} TrimEndExact(core: string, after: string)
    requires Blank(after) && (core == "" || !IsSpace(core[|core| - 1]))
    ensures TrimEnd(core + after) == core
    decreases |after|
  {
    if after == "" {
      assert core + after == core;
    } else {
      assert (core + after)[..|core + after| - 1] == core + after[..|after| - 1];
      TrimEndExact(core, after[..|after| - 1]);
    }
  }

  /** Trimming removes the whitespace at both ends and nothing else. */
  lemma TrimExact(before: string, core: string, after: string)
    requires Blank(before) && Blank(after) && Tight(core)
    ensures Trim(before + core + after) == core
  {
    if core == "" {
      assert before + core + after == (before + after) + "";
      TrimStartExact(before + after, "");
    } else {
      assert before + core + after == before + (core + after);
      TrimStartExact(before, core + after);
      TrimEndExact(core, after);
    }
  }

  lemma BlankLine(state: Scan, blanks: string, wanted: string)
    requires Blank(blanks)
    ensures ScanLine(state, blanks, wanted) == state
  {
    TrimExact(blanks, "", "");
    assert blanks + "" + "" == blanks;
    hide Trim;
  }

  /** A comment changes nothing. */
  lemma CommentLine(state: Scan, blanks: string, mark: char, text: string, wanted: string)
    requires Blank(blanks) && (mark == '#' || mark == ';')
    ensures ScanLine(state, blanks + [mark] + text, wanted) == state
  {
    var line := [mark] + text;
    assert blanks + [mark] + text == blanks + line;
    TrimStartExact(blanks, line);
    TrimEndKeeps([mark], text);
    assert TrimEnd(line)[0] == mark;
    hide IsSpace, TrimStart, TrimEnd;
  }

  /** A header opens the section it names and closes any other. */
  lemma HeaderLine(state: Scan, before: string, title: string, after: string, wanted: string)
    requires Blank(before) && Blank(after) && title != "" && ']' !in title
    ensures ScanLine(state, before + ("[" + title + "]") + after, wanted) == Scan(title == "Service", state.winner)
  {
    var core := "[" + title + "]";
    TrimExact(before, core, after);
    assert core[1..|core| - 1] == title;
    hide IsSpace, Trim;
  }

  /** An assignment: recorded, without the whitespace around name and value, exactly
      when it is in the section and has the wanted name. */
  lemma AssignmentLine(state: Scan, before: string, name: string, gap: string, lead: string, value: string, after: string, wanted: string)
    requires Blank(before) && Blank(gap) && Blank(lead) && Blank(after) && LettersOnly(name) && Tight(value) && '=' !in gap
    ensures ScanLine(state, before + (name + gap + "=") + (lead + value + after), wanted) ==
            if state.inService && name == wanted then Scan(true, Some(value)) else state
  {
    var head, tail := name + gap + "=", lead + value + after;
    var line := head + tail;
    assert before + head + tail == before + line;
    TrimStartExact(before, line);
    TrimEndKeeps(head, tail);
    SplitDirective(name + gap, TrimEnd(tail));
    TrimExact("", name, gap);
    assert "" + name + gap == name + gap;
    TrimmedTail(lead, value, after);
    var trimmed := TrimEnd(line);
    assert trimmed == head + TrimEnd(tail) && trimmed[0] == name[0];
    assert SectionName(trimmed).None?;
    hide IsSpace, TrimStart, TrimEnd, SplitAtEquals, SectionName;
  }

  lemma TrimmedTail(lead: string, value: string, after: string)
    requires Blank(lead) && Blank(after) && Tight(value)
    ensures Trim(TrimEnd(lead + value + after)) == value
  {
    if value == "" {
      assert lead + value + after == "" + (lead + after);
      TrimEndExact("", lead + after);
    } else {
      assert lead + value + after == (lead + value) + after;
      TrimEndExact(lead + value, after);
      TrimExact(lead, value, "");
      assert lead + value + "" == lead + value;
    }
  }

  // ---------- Environment ----------

  /** An empty assignment forgets the path; one of another variable keeps it. */
  lemma OtherEnvironment(earlier: Option<string>, name: string, value: string, homeDir: string)
    requires OneLine(name + "=" + value) && '=' !in name && name != "PATH"
    ensures EnvironmentLine(earlier, "Environment=", homeDir) == None
    ensures EnvironmentLine(earlier, "Environment=" + SystemdEnvAssignment(name, value), homeDir) == earlier
  {
    EmptyEnvironment(earlier, homeDir);
    var pair := name + "=" + value;
    var quoted, word := SystemdEnvAssignment(name, value), DoublePercent(pair);
    EnvEscapedOneLine(pair);
    EnvironmentValueOf(quoted);
    QuotedNotBlank(quoted);
    ArgEscapedMeaning(pair);
    FeedQuoted([], word);
    NotPath(name, value, homeDir);
    assert word != "" && [] + [word] == [word];
    assert SplitWords(quoted) == [word];
    assert [word][1..] == [];
    assert LastPath([word], earlier, homeDir) == earlier;
    assert quoted != "";
    hide SplitWords, DoublePercent, LastPath, EnvironmentValue, Trim;
  }

  lemma EmptyEnvironment(earlier: Option<string>, homeDir: string)
    ensures EnvironmentLine(earlier, "Environment=", homeDir) == None
  {
    assert "Environment="[|"Environment"|..] == "=";
    assert "="[1..] == "";
  }

  lemma NotPath(name: string, value: string, homeDir: string)
    requires '=' !in name && name != "PATH"
    ensures DoublePercent(name + "=" + value) != "" && PathOf(DoublePercent(name + "=" + value), homeDir).None?
  {
    var rest, doubled := DoublePercent(value), DoublePercent(name);
    assert name + "=" + value == name + ("=" + value);
    ReplaceConcat(name, "=" + value, '%', "%%");
    assert ("=" + value)[1..] == value;
    assert DoublePercent("=" + value) == "=" + rest;
    assert DoublePercent(name + "=" + value) == doubled + ("=" + rest);
    DoubledKeeps(name);
    hide ReplaceChar;
    FirstEquals(doubled, rest);
    if doubled == "PATH" { NoPercent(name); }
    assert !("PATH=" <= doubled + ("=" + rest));
  }

  lemma FirstEquals(name: string, rest: string)
    requires '=' !in name
    ensures "PATH=" <= name + ("=" + rest) ==> name == "PATH"
  {
    var s := name + ("=" + rest);
    if "PATH=" <= s {
      assert s[0] == 'P' && s[1] == 'A' && s[2] == 'T' && s[3] == 'H' && s[4] == '=';
      assert s[|name|] == '=' && forall i | 0 <= i < |name| :: s[i] == name[i] && s[i] in name;
      assert |name| == 4;
      assert name == s[..4];
    }
  }

  lemma {:induction false} DoubledKeeps(name: string)
    requires '=' !in name
    ensures '=' !in DoublePercent(name)
  {
    if name != "" { DoubledKeeps(name[1..]); }
  }

  lemma {:induction false} NoPercent(name: string)
    requires '%' !in DoublePercent(name)
    ensures name == DoublePercent(name)
  {
    if name != "" {
      assert name[0] != '%';
      NoPercent(name[1..]);
    }
  }
}
