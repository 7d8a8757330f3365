/** Branch naming and adoption: `src/workspace-paths.ts` and the branch check of
    `adoptPullRequest` in `src/daemon.ts`.

    Unicode's NFKD normalization is a parameter; all that is used of it is that
    it leaves ASCII text alone. */
module WorkspacePaths {
  import opened Wrappers
  import opened Strings

  // ---------- Slugs ----------

  predicate IsAscii(s: string) { forall i | 0 <= i < |s| :: s[i] as int <= 127 }

  ghost predicate KeepsAscii(nfkd: string -> string) { forall s | IsAscii(s) :: nfkd(s) == s }

  predicate Alnum(c: char) { 'a' <= c <= 'z' || '0' <= c <= '9' }

  function AsciiOnly(s: string): string {
    if s == "" then "" else (if s[0] as int <= 127 then [s[0]] else "") + AsciiOnly(s[1..])
  }

  /** Every maximal run of other characters becomes one hyphen; `inRun` says that
      the current run has its hyphen already. */
  function Collapse(s: string, inRun: bool): string {
    if s == "" then ""
    else if Alnum(s[0]) then [s[0]] + Collapse(s[1..], false)
    else (if inRun then "" else "-") + Collapse(s[1..], true)
  }

  function TrimLeft(s: string): string {
    if s != "" && s[0] == '-' then TrimLeft(s[1..]) else s
  }

  function TrimRight(s: string): string {
    if s != "" && s[|s| - 1] == '-' then TrimRight(s[..|s| - 1]) else s
  }

  function Simplified(nfkd: string -> string, input: string): string { Lower(AsciiOnly(nfkd(input))) }

  function Slugify(nfkd: string -> string, input: string, fallback: string): string {
    var slug := TrimRight(TrimLeft(Collapse(Simplified(nfkd, input), false)));
    if |slug| == 0 then fallback else slug
  }

  // ---------- Well-formedness ----------

  predicate SlugChars(s: string) { forall i | 0 <= i < |s| :: Alnum(s[i]) || s[i] == '-' }

  predicate NoDouble(s: string) { forall i | 0 < i < |s| :: s[i - 1] != '-' || s[i] != '-' }

  /** Words of lower-case letters and digits, joined by single hyphens. */
  predicate WellFormed(s: string) {
    SlugChars(s) && NoDouble(s) && s != "" && s[0] != '-' && s[|s| - 1] != '-'
  }

  lemma {:induction false} CollapseShape(s: string, inRun: bool)
    ensures SlugChars(Collapse(s, inRun)) && NoDouble(Collapse(s, inRun))
    ensures inRun && Collapse(s, inRun) != "" ==> Collapse(s, inRun)[0] != '-'
  {
    if s != "" {
      CollapseShape(s[1..], !Alnum(s[0]));
    }
  }

  lemma {:induction false} TrimLeftShape(s: string)
    requires SlugChars(s) && NoDouble(s)
    ensures SlugChars(TrimLeft(s)) && NoDouble(TrimLeft(s))
    ensures TrimLeft(s) != "" ==> TrimLeft(s)[0] != '-'
  {
    if s != "" && s[0] == '-' { TrimLeftShape(s[1..]); }
  }

  lemma {:induction false} TrimRightShape(s: string)
    requires SlugChars(s) && NoDouble(s) && (s != "" ==> s[0] != '-')
    ensures TrimRight(s) == "" || WellFormed(TrimRight(s))
  {
    if s != "" && s[|s| - 1] == '-' { TrimRightShape(s[..|s| - 1]); }
  }

  /** A slug is well-formed whatever the input, ... */
  lemma SlugWellFormed(nfkd: string -> string, input: string, fallback: string)
    requires WellFormed(fallback)
    ensures WellFormed(Slugify(nfkd, input, fallback))
  {
    var collapsed := Collapse(Simplified(nfkd, input), false);
    CollapseShape(Simplified(nfkd, input), false);
    TrimLeftShape(collapsed);
    TrimRightShape(TrimLeft(collapsed));
  }

  lemma {:induction false} PlainAscii(s: string)
    requires SlugChars(s)
    ensures AsciiOnly(s) == s && Lower(s) == s
  {
    if s != "" { PlainAscii(s[1..]); }
  }

  lemma {:induction false} CollapsedAlready(s: string, inRun: bool)
    requires SlugChars(s) && NoDouble(s) && (inRun && s != "" ==> s[0] != '-')
    ensures Collapse(s, inRun) == s
  {
    if s != "" { CollapsedAlready(s[1..], !Alnum(s[0])); }
  }

  /** ... and exactly the well-formed strings are their own slugs. */
  lemma SlugFixedPoints(nfkd: string -> string, s: string, fallback: string)
    requires KeepsAscii(nfkd) && WellFormed(fallback)
    ensures Slugify(nfkd, s, fallback) == s <==> WellFormed(s)
  {
    SlugWellFormed(nfkd, s, fallback);
    if WellFormed(s) {
      assert IsAscii(s);
      PlainAscii(s);
      CollapsedAlready(s, false);
    }
  }

  lemma SlugIdempotent(nfkd: string -> string, input: string, fallback: string, again: string)
    requires KeepsAscii(nfkd) && WellFormed(fallback) && WellFormed(again)
    ensures Slugify(nfkd, Slugify(nfkd, input, fallback), again) == Slugify(nfkd, input, fallback)
  {
    SlugWellFormed(nfkd, input, fallback);
    SlugFixedPoints(nfkd, Slugify(nfkd, input, fallback), again);
  }

  // ---------- Which slug ----------

  function Flush(word: string): seq<string> { if word == "" then [] else [word] }

  /** The maximal runs of lower-case letters and digits; `word` is the current one. */
  function Words(s: string, word: string): seq<string>
    decreases |s|
  {
    if s == "" then Flush(word)
    else if Alnum(s[0]) then Words(s[1..], word + [s[0]])
    else Flush(word) + Words(s[1..], "")
  }

  lemma {:induction false} CollapseKeepsWords(s: string, inRun: bool, word: string)
    requires inRun ==> word == ""
    ensures Words(Collapse(s, inRun), word) == Words(s, word)
    decreases |s|
  {
    if s != "" {
      var c := Collapse(s, inRun);
      if Alnum(s[0]) {
        CollapseKeepsWords(s[1..], false, word + [s[0]]);
        assert c[1..] == Collapse(s[1..], false);
      } else {
        CollapseKeepsWords(s[1..], true, "");
        if inRun {
          assert c == Collapse(s[1..], true);
        } else {
          assert c[1..] == Collapse(s[1..], true);
        }
      }
    }
  }

  lemma {:induction false} HyphenEndsWord(s: string, word: string)
    ensures Words(s + "-", word) == Words(s, word)
    decreases |s|
  {
    if s == "" {
      assert Words("-", word) == Flush(word) + Words("-"[1..], "");
    } else {
      assert (s + "-")[1..] == s[1..] + "-";
      HyphenEndsWord(s[1..], if Alnum(s[0]) then word + [s[0]] else "");
    }
  }

  lemma {:induction false} TrimLeftKeepsWords(s: string)
    ensures Words(TrimLeft(s), "") == Words(s, "")
  {
    if s != "" && s[0] == '-' { TrimLeftKeepsWords(s[1..]); }
  }

  lemma {:induction false} TrimRightKeepsWords(s: string)
    ensures Words(TrimRight(s), "") == Words(s, "")
  {
    if s != "" && s[|s| - 1] == '-' {
      TrimRightKeepsWords(s[..|s| - 1]);
      HyphenEndsWord(s[..|s| - 1], "");
      assert s == s[..|s| - 1] + "-";
    }
  }

  lemma {:induction false} SomeWords(s: string, word: string)
    requires word != "" || (s != "" && Alnum(s[0]))
    ensures Words(s, word) != []
    decreases |s|
  {
    if s != "" && Alnum(s[0]) { SomeWords(s[1..], word + [s[0]]); }
  }

  /** The slug has the words of the simplified input, in order; the fallback
      stands exactly for an input without any. */
  lemma SlugKeepsWords(nfkd: string -> string, input: string, fallback: string)
    ensures var words := Words(Simplified(nfkd, input), "");
      if words == [] then Slugify(nfkd, input, fallback) == fallback
      else Words(Slugify(nfkd, input, fallback), "") == words
  {
    var simple := Simplified(nfkd, input);
    var collapsed := Collapse(simple, false);
    var slug := TrimRight(TrimLeft(collapsed));
    CollapseKeepsWords(simple, false, "");
    TrimLeftKeepsWords(collapsed);
    TrimRightKeepsWords(TrimLeft(collapsed));
    CollapseShape(simple, false);
    TrimLeftShape(collapsed);
    TrimRightShape(TrimLeft(collapsed));
    if slug != "" { SomeWords(slug, ""); }
  }

  // ---------- The slug from the input ----------

  predicate LetterOrDigit(c: char) { 'a' <= c <= 'z' || 'A' <= c <= 'Z' || '0' <= c <= '9' }

  /** The maximal runs of ASCII letters and digits, as they are. */
  function RawWords(s: string, word: string): seq<string>
    decreases |s|
  {
    if s == "" then Flush(word)
    else if LetterOrDigit(s[0]) then RawWords(s[1..], word + [s[0]])
    else Flush(word) + RawWords(s[1..], "")
  }

  function LowerAll(words: seq<string>): seq<string> {
    if words == [] then [] else [Lower(words[0])] + LowerAll(words[1..])
  }

  function Hyphenated(words: seq<string>): string {
    if words == [] then "" else if |words| == 1 then words[0] else words[0] + "-" + Hyphenated(words[1..])
  }

  lemma {:induction false} LowerConcat(a: string, b: string)
    ensures Lower(a + b) == Lower(a) + Lower(b)
  {
    if a == "" {
      assert a + b == b;
    } else {
      assert (a + b)[1..] == a[1..] + b;
      LowerConcat(a[1..], b);
    }
  }

  lemma LowerOne(c: char)
    ensures Lower([c]) == [LowerChar(c)] && (Alnum(LowerChar(c)) <==> LetterOrDigit(c))
  {
    assert [c][1..] == "";
  }

  lemma FlushLower(word: string)
    ensures Flush(Lower(word)) == LowerAll(Flush(word))
  {
    if word != "" { assert [word][1..] == []; }
  }

  lemma FlushThen(word: string, rest: seq<string>)
    ensures LowerAll(Flush(word) + rest) == LowerAll(Flush(word)) + LowerAll(rest)
  {
    if word == "" {
      assert Flush(word) + rest == rest;
    } else {
      assert (Flush(word) + rest)[1..] == rest && [word][1..] == [];
    }
  }

  lemma {:induction false} LowerWords(s: string, word: string)
    ensures Words(Lower(s), Lower(word)) == LowerAll(RawWords(s, word))
    decreases |s|
  {
    FlushLower(word);
    if s != "" {
      LowerOne(s[0]);
      assert Lower(s)[1..] == Lower(s[1..]);
      if LetterOrDigit(s[0]) {
        LowerWords(s[1..], word + [s[0]]);
        LowerConcat(word, [s[0]]);
      } else {
        LowerWords(s[1..], "");
        FlushThen(word, RawWords(s[1..], ""));
      }
    }
  }

  lemma {:induction false} WordsRejoin(s: string, word: string)
    requires SlugChars(s) && NoDouble(s) && (s != "" ==> s[|s| - 1] != '-')
    requires word != "" || s == "" || s[0] != '-'
    ensures Hyphenated(Words(s, word)) == word + s
    decreases |s|
  {
    if s == "" {
      assert word + s == word;
    } else if Alnum(s[0]) {
      WordsRejoin(s[1..], word + [s[0]]);
      assert word + [s[0]] + s[1..] == word + s;
    } else {
      var rest := Words(s[1..], "");
      WordsRejoin(s[1..], "");
      SomeWords(s[1..], "");
      assert "" + s[1..] == s[1..];
      assert ([word] + rest)[1..] == rest;
      assert word + "-" + s[1..] == word + s;
    }
  }

  /** The slug, from the input: its runs of ASCII letters and digits, in lower case,
      joined by hyphens; the fallback stands exactly for an input without any. */
  lemma SlugExact(nfkd: string -> string, input: string, fallback: string)
    ensures var words := RawWords(AsciiOnly(nfkd(input)), "");
      Slugify(nfkd, input, fallback) == if words == [] then fallback else Hyphenated(LowerAll(words))
  {
    var text := AsciiOnly(nfkd(input));
    LowerWords(text, "");
    SlugKeepsWords(nfkd, input, fallback);
    var words := Words(Simplified(nfkd, input), "");
    assert Lower("") == "" && words == LowerAll(RawWords(text, ""));
    if words != [] {
      UsualSlug(nfkd, input, fallback);
      var slug := Slugify(nfkd, input, fallback);
      WordsRejoin(slug, "");
      assert "" + slug == slug;
    }
  }

  lemma UsualSlug(nfkd: string -> string, input: string, fallback: string)
    requires Words(Simplified(nfkd, input), "") != []
    ensures WellFormed(Slugify(nfkd, input, fallback))
  {
    var simple := Simplified(nfkd, input);
    var collapsed := Collapse(simple, false);
    CollapseShape(simple, false);
    TrimLeftShape(collapsed);
    TrimRightShape(TrimLeft(collapsed));
    CollapseKeepsWords(simple, false, "");
    TrimLeftKeepsWords(collapsed);
    TrimRightKeepsWords(TrimLeft(collapsed));
  }

  /** An ASCII input is its own text; other characters are dropped one by one. */
  lemma {:induction false} AsciiExact(s: string, c: char, rest: string)
    ensures IsAscii(s) ==> AsciiOnly(s) == s && AsciiOnly(s + [c] + rest) == s + (if c as int <= 127 then [c] else "") + AsciiOnly(rest)
  {
    if IsAscii(s) {
      var all := s + [c] + rest;
      if s == "" {
        assert all[1..] == rest;
      } else {
        assert all[1..] == s[1..] + [c] + rest;
        AsciiExact(s[1..], c, rest);
        assert s == [s[0]] + s[1..];
      }
    }
  }

  // ---------- Numbers ----------

  function Digit(d: nat): char
    requires d < 10
  {
    ('0' as int + d) as char
  }

  function Decimal(n: nat): string {
    if n < 10 then [Digit(n)] else Decimal(n / 10) + [Digit(n % 10)]
  }

  predicate AllDigits(s: string) { forall i | 0 <= i < |s| :: '0' <= s[i] <= '9' }

  lemma {:induction false} DecimalDigits(n: nat)
    ensures AllDigits(Decimal(n)) && Decimal(n) != ""
  {
    if n >= 10 { DecimalDigits(n / 10); }
  }

  function ReadDecimal(s: string): int {
    if s == "" then 0 else 10 * ReadDecimal(s[..|s| - 1]) + (s[|s| - 1] as int - '0' as int)
  }

  /** The digits of an issue number are read back as the number. */
  lemma {:induction false} DecimalExact(n: nat)
    ensures ReadDecimal(Decimal(n)) == n
    ensures n > 0 ==> Decimal(n)[0] != '0'
  {
    var s := Decimal(n);
    if n < 10 {
      assert s[..|s| - 1] == "";
    } else {
      DecimalExact(n / 10);
      assert s[..|s| - 1] == Decimal(n / 10);
      DecimalDigits(n / 10);
    }
  }

  lemma {:induction false} DecimalInjective(m: nat, n: nat)
    requires Decimal(m) == Decimal(n)
    ensures m == n
  {
    var a, b := Decimal(m), Decimal(n);
    assert a[|a| - 1] == Digit(m % 10) && b[|b| - 1] == Digit(n % 10);
    DecimalDigits(m / 10);
    DecimalDigits(n / 10);
    if m >= 10 && n >= 10 {
      assert a[..|a| - 1] == Decimal(m / 10) && b[..|b| - 1] == Decimal(n / 10);
      DecimalInjective(m / 10, n / 10);
    }
  }

  // ---------- Plans ----------

  datatype Existing = Existing(branchName: string, workspacePath: string)

  datatype Plan = Plan(branchName: string, branchRef: string, cachePath: string, issueDirectoryName: string, workspacePath: string)

  function Under(dir: string, segment: string): string {
    if dir != "" && dir[|dir| - 1] == '/' then dir + segment else dir + "/" + segment
  }

  function IssueDirectory(number: nat, issueSlug: string): string { Decimal(number) + "-" + issueSlug }

  function Branch(projectSlug: string, directory: string): string { "sym/" + projectSlug + "/" + directory }

  function PlanPaths(nfkd: string -> string, root: string, project: string, number: nat, title: string,
                     existing: Option<Existing>): Plan {
    var cachePath := Under(Under(root, ".cache"), "repo.git");
    match existing
    case Some(e) => Plan(e.branchName, "refs/heads/" + e.branchName, cachePath, Basename(e.workspacePath), e.workspacePath)
    case None =>
      var directory := IssueDirectory(number, Slugify(nfkd, title, "issue"));
      var branchName := Branch(Slugify(nfkd, project, "project"), directory);
      Plan(branchName, "refs/heads/" + branchName, cachePath, directory, Under(Under(root, "issues"), directory))
  }

  /** A fresh plan, spelled out, for a root without a trailing slash. */
  lemma PlanSpelled(nfkd: string -> string, root: string, project: string, number: nat, title: string)
    requires root != "" && root[|root| - 1] != '/'
    ensures var plan := PlanPaths(nfkd, root, project, number, title, None);
      var directory := Decimal(number) + "-" + Slugify(nfkd, title, "issue");
      && plan.branchName == "sym/" + Slugify(nfkd, project, "project") + "/" + directory
      && plan.branchRef == "refs/heads/" + plan.branchName && plan.issueDirectoryName == directory
      && plan.workspacePath == root + "/issues/" + directory && plan.cachePath == root + "/.cache/repo.git"
  {
    hide Slugify, Decimal;
    assert (root + "/" + "issues") + "/" == root + "/issues/";
    assert (root + "/" + ".cache") + "/" + "repo.git" == root + "/.cache/repo.git";
  }

  lemma NotEarlier(a: string, b: string, c: string, d: string, sep: char)
    requires sep !in c && |a| < |c|
    ensures a + [sep] + b != c + [sep] + d
  {
    assert (a + [sep] + b)[|a|] == sep && (c + [sep] + d)[|a|] == c[|a|];
  }

  lemma SplitAt(a: string, b: string, c: string, d: string, sep: char)
    requires sep !in a && sep !in c
    requires a + [sep] + b == c + [sep] + d
    ensures a == c && b == d
  {
    var whole := a + [sep] + b;
    if |a| < |c| {
      NotEarlier(a, b, c, d, sep);
    } else if |c| < |a| {
      NotEarlier(c, d, a, b, sep);
    } else {
      assert a == whole[..|a|] && c == (c + [sep] + d)[..|c|];
      assert b == whole[|a| + 1..] && d == (c + [sep] + d)[|c| + 1..];
    }
  }

  /** A branch determines its project slug, its issue number and its issue slug;
      so different issue numbers never share a branch. */
  lemma BranchIdentity(nfkd: string -> string, rootA: string, projectA: string, m: nat, titleA: string,
                       rootB: string, projectB: string, n: nat, titleB: string)
    ensures PlanPaths(nfkd, rootA, projectA, m, titleA, None).branchName == PlanPaths(nfkd, rootB, projectB, n, titleB, None).branchName <==>
            (Slugify(nfkd, projectA, "project") == Slugify(nfkd, projectB, "project") && m == n &&
             Slugify(nfkd, titleA, "issue") == Slugify(nfkd, titleB, "issue"))
  {
    var a, b := Slugify(nfkd, projectA, "project"), Slugify(nfkd, projectB, "project");
    var s, t := Slugify(nfkd, titleA, "issue"), Slugify(nfkd, titleB, "issue");
    SlugWellFormed(nfkd, projectA, "project");
    SlugWellFormed(nfkd, projectB, "project");
    DecimalDigits(m);
    DecimalDigits(n);
    hide Slugify, WellFormed, Decimal, AllDigits;
    if Branch(a, IssueDirectory(m, s)) == Branch(b, IssueDirectory(n, t)) {
      BranchParts(a, IssueDirectory(m, s), b, IssueDirectory(n, t));
      DirectoryParts(m, s, n, t);
    }
  }

  lemma BranchParts(a: string, x: string, b: string, y: string)
    requires WellFormed(a) && WellFormed(b) && Branch(a, x) == Branch(b, y)
    ensures a == b && x == y
  {
    assert Branch(a, x)[4..] == a + "/" + x && Branch(b, y)[4..] == b + "/" + y;
    SplitAt(a, x, b, y, '/');
  }

  lemma DirectoryParts(m: nat, s: string, n: nat, t: string)
    requires IssueDirectory(m, s) == IssueDirectory(n, t)
    ensures m == n && s == t
  {
    DecimalDigits(m);
    DecimalDigits(n);
    SplitAt(Decimal(m), s, Decimal(n), t, '-');
    DecimalInjective(m, n);
  }

  // ---------- Adoption ----------

  /** The branch check: the slug of an accepted head ref. */
  function AdoptableSlug(nfkd: string -> string, project: string, number: nat, headRef: Option<string>): Option<string> {
    var prefix := "sym/" + Slugify(nfkd, project, "project") + "/" + Decimal(number) + "-";
    if headRef.None? || !(prefix <= headRef.value) then None
    else
      var slug := headRef.value[|prefix|..];
      if Slugify(nfkd, slug, "issue") != slug then None else Some(slug)
  }

  /** The check accepts a head ref exactly when it is the branch planned for that
      project and issue number under some title. */
  lemma AdoptsPlannedBranches(nfkd: string -> string, root: string, project: string, number: nat, headRef: string)
    requires KeepsAscii(nfkd)
    ensures AdoptableSlug(nfkd, project, number, Some(headRef)).Some? <==>
            exists title :: PlanPaths(nfkd, root, project, number, title, None).branchName == headRef
  {
    hide *;
    if AdoptableSlug(nfkd, project, number, Some(headRef)).Some? {
      ReplanReproduces(nfkd, root, project, number, headRef);
    }
    if title :| PlanPaths(nfkd, root, project, number, title, None).branchName == headRef {
      PlannedIsAdopted(nfkd, root, project, number, title);
    }
  }

  lemma PlannedIsAdopted(nfkd: string -> string, root: string, project: string, number: nat, title: string)
    requires KeepsAscii(nfkd)
    ensures AdoptableSlug(nfkd, project, number, Some(PlanPaths(nfkd, root, project, number, title, None).branchName))
            == Some(Slugify(nfkd, title, "issue"))
  {
    var p, slug := Slugify(nfkd, project, "project"), Slugify(nfkd, title, "issue");
    var prefix := "sym/" + p + "/" + Decimal(number) + "-";
    assert WellFormed("issue");
    SlugIdempotent(nfkd, title, "issue", "issue");
    hide Slugify, Decimal, WellFormed, KeepsAscii;
    BranchShape(p, number, slug);
    assert (prefix + slug)[|prefix|..] == slug;
  }

  lemma BranchShape(p: string, number: nat, slug: string)
    ensures var prefix := "sym/" + p + "/" + Decimal(number) + "-";
      Branch(p, IssueDirectory(number, slug)) == prefix + slug
  {
    assert "sym/" + p + "/" + (Decimal(number) + "-" + slug) == "sym/" + p + "/" + Decimal(number) + "-" + slug;
  }

  /** Planning again with the extracted slug as the title gives back the branch, ... */
  lemma ReplanReproduces(nfkd: string -> string, root: string, project: string, number: nat, headRef: string)
    requires AdoptableSlug(nfkd, project, number, Some(headRef)).Some?
    ensures var slug := AdoptableSlug(nfkd, project, number, Some(headRef)).value;
      PlanPaths(nfkd, root, project, number, slug, None).branchName == headRef
  {
    var slug := AdoptableSlug(nfkd, project, number, Some(headRef)).value;
    BranchShape(Slugify(nfkd, project, "project"), number, slug);
  }

  /** ... and the very plan the branch was made with, whatever its title was. */
  lemma ReplanIsOriginalPlan(nfkd: string -> string, root: string, project: string, number: nat, title: string)
    requires KeepsAscii(nfkd)
    ensures var plan := PlanPaths(nfkd, root, project, number, title, None);
      var slug := AdoptableSlug(nfkd, project, number, Some(plan.branchName));
      slug.Some? && PlanPaths(nfkd, root, project, number, slug.value, None) == plan
  {
    var plan := PlanPaths(nfkd, root, project, number, title, None);
    AdoptsPlannedBranches(nfkd, root, project, number, plan.branchName);
    var slug := AdoptableSlug(nfkd, project, number, Some(plan.branchName)).value;
    ReplanReproduces(nfkd, root, project, number, plan.branchName);
    BranchIdentity(nfkd, root, project, number, title, root, project, number, slug);
  }

  lemma BasenameOfSegment(dir: string, segment: string)
    requires segment != "" && '/' !in segment
    ensures Basename(dir + "/" + segment) == segment
  {
    LastSlash(dir, segment);
    assert (dir + "/" + segment)[|dir| + |segment|] == segment[|segment| - 1];
  }

  lemma {:induction false} LastSlash(dir: string, segment: string)
    requires '/' !in segment
    ensures AfterLastSlash(dir + "/" + segment) == segment
  {
    var path := dir + "/" + segment;
    if segment == "" {
      assert path[|path| - 1] == '/';
    } else {
      var shorter := segment[..|segment| - 1];
      assert path[..|path| - 1] == dir + "/" + shorter;
      assert segment == shorter + [segment[|segment| - 1]];
      LastSlash(dir, shorter);
    }
  }

  /** Any persisted plan wins over project, number and title, whatever they are now;
      what it does not persist comes from the workspace root and its own path. */
  lemma ExistingPlanWins(nfkd: string -> string, root: string, existing: Existing, projectA: string, m: nat, titleA: string,
                         projectB: string, n: nat, titleB: string)
    ensures var plan := PlanPaths(nfkd, root, projectA, m, titleA, Some(existing));
      && plan == PlanPaths(nfkd, root, projectB, n, titleB, Some(existing))
      && plan.branchName == existing.branchName && plan.workspacePath == existing.workspacePath
      && plan.cachePath == PlanPaths(nfkd, root, projectA, m, titleA, None).cachePath
  {
  }

  /** So a continuation gets the very plan its run began with, however the title was
      edited since. */
  lemma PersistedPlanReproduced(nfkd: string -> string, root: string, project: string, number: nat, title: string, edited: string)
    ensures var plan := PlanPaths(nfkd, root, project, number, title, None);
      PlanPaths(nfkd, root, project, number, edited, Some(Existing(plan.branchName, plan.workspacePath))) == plan
  {
    var slug := Slugify(nfkd, title, "issue");
    SlugWellFormed(nfkd, title, "issue");
    DecimalDigits(number);
    var directory := IssueDirectory(number, slug);
    assert '/' !in directory;
    var issues := Under(root, "issues");
    assert issues[|issues| - 1] == 's';
    BasenameOfSegment(issues, directory);
  }
}
