/** Secret redaction: `src/redaction.ts`.

    Every occurrence of every secret is found in the original text, the found
    spans are sorted, strictly overlapping ones are merged, and each merged span
    is replaced by one marker.  The reference definition is `Mask`: it looks at
    one position of the text at a time and knows nothing about sorting, merging
    or the order of the secrets. */
module Redaction {

  const MARKER: string := "[REDACTED]"

  datatype Span = Span(start: nat, end: nat)

  // ---------- Reference definitions ----------

  /** `s` is one occurrence, in `text`, of a non-empty member of `secrets`. */
  predicate Occurrence(text: string, secrets: set<string>, s: Span) {
    s.start < s.end <= |text| && text[s.start..s.end] in secrets
  }

  ghost predicate Covered(text: string, secrets: set<string>, p: nat) {
    exists s :: Occurrence(text, secrets, s) && s.start <= p < s.end
  }

  /** Some occurrence lies on both sides of the boundary before position `b`. */
  ghost predicate Straddled(text: string, secrets: set<string>, b: nat) {
    exists s :: Occurrence(text, secrets, s) && s.start < b < s.end
  }

  /** What position `p` contributes to the redacted text. */
  ghost function Piece(text: string, secrets: set<string>, p: nat): string
    requires p < |text|
  {
    if !Covered(text, secrets, p) then [text[p]]
    else if !Straddled(text, secrets, p) then MARKER
    else ""
  }

  /** The redaction of `text[from..]`, position by position. */
  ghost function Mask(text: string, secrets: set<string>, from: nat): string
    requires from <= |text|
    decreases |text| - from
  {
    if from == |text| then ""
    else Piece(text, secrets, from) + Mask(text, secrets, from + 1)
  }

  /** Which characters of `Mask(text, secrets, from)` belong to a marker. */
  ghost function MarkerFlags(text: string, secrets: set<string>, from: nat): (flags: seq<bool>)
    requires from <= |text|
    ensures |flags| == |Mask(text, secrets, from)|
    decreases |text| - from
  {
    if from == |text| then []
    else
      var piece := Piece(text, secrets, from);
      seq(|piece|, _ => Covered(text, secrets, from)) + MarkerFlags(text, secrets, from + 1)
  }

  /** The characters of `text[from..]` that no occurrence covers, in order. */
  ghost function Uncovered(text: string, secrets: set<string>, from: nat): string
    requires from <= |text|
    decreases |text| - from
  {
    if from == |text| then ""
    else (if Covered(text, secrets, from) then "" else [text[from]]) + Uncovered(text, secrets, from + 1)
  }

  ghost predicate Contains(text: string, secrets: set<string>) {
    exists s :: Occurrence(text, secrets, s)
  }

  /** Laid over the marker at offset `d`, the secret agrees with it wherever the two
      meet. */
  predicate Agrees(secret: string, d: int) {
    forall i | 0 <= i < |secret| && 0 <= i + d < |MARKER| :: secret[i] == MARKER[i + d]
  }

  /** At no offset where they meet does the secret agree with the marker. */
  predicate Apart(secret: string) {
    forall d | -|secret| < d < |MARKER| :: !Agrees(secret, d)
  }

  /** No non-empty secret can overlap a marker. */
  predicate MarkerApart(secrets: set<string>) {
    forall secret | secret in secrets && secret != "" :: Apart(secret)
  }

  function SetOf<T>(xs: seq<T>): set<T> {
    set x | x in xs
  }

  // ---------- Span lists ----------

  ghost predicate InSome(spans: seq<Span>, p: nat) {
    exists s :: s in spans && s.start <= p < s.end
  }

  ghost predicate StraddledBy(spans: seq<Span>, b: nat) {
    exists s :: s in spans && s.start < b < s.end
  }

  /** Non-empty, ascending and pairwise disjoint. */
  predicate Ascending(spans: seq<Span>) {
    && (forall i | 0 <= i < |spans| :: spans[i].start < spans[i].end)
    && (forall i, j | 0 <= i < j < |spans| :: spans[i].end <= spans[j].start)
  }

  /** The characterization of the merged spans: they cover exactly the positions
      inside an occurrence, and two neighbouring positions share a span exactly
      when some occurrence contains both. */
  ghost predicate MergedSpans(text: string, secrets: set<string>, spans: seq<Span>) {
    && Ascending(spans)
    && (forall p: nat :: InSome(spans, p) <==> Covered(text, secrets, p))
    && (forall b: nat :: StraddledBy(spans, b) <==> Straddled(text, secrets, b))
  }

  /** Cover and straddled boundaries, from position `lo` on, determine a span
      list that starts at or after `lo`. */
  lemma {:induction false} AscendingSpansDetermined(xs: seq<Span>, ys: seq<Span>, lo: nat)
    requires Ascending(xs) && Ascending(ys)
    requires forall s | s in xs || s in ys :: lo <= s.start
    requires forall p: nat | lo <= p :: InSome(xs, p) <==> InSome(ys, p)
    requires forall b: nat | lo < b :: StraddledBy(xs, b) <==> StraddledBy(ys, b)
    ensures xs == ys
  {
    if xs == [] && ys == [] {
    } else {
      assert xs != [] && ys != [] by {
        if xs == [] { assert InSome(ys, ys[0].start); }
        if ys == [] { assert InSome(xs, xs[0].start); }
      }
      FirstStartNotAfter(xs, ys);
      FirstStartNotAfter(ys, xs);
      FirstEndNotBefore(xs, ys);
      FirstEndNotBefore(ys, xs);
      var e := xs[0].end;
      DropFirst(xs);
      DropFirst(ys);
      forall p: nat | e <= p ensures InSome(xs[1..], p) <==> InSome(ys[1..], p) {
        assert InSome(xs, p) <==> InSome(ys, p);
      }
      forall b: nat | e < b ensures StraddledBy(xs[1..], b) <==> StraddledBy(ys[1..], b) {
        assert StraddledBy(xs, b) <==> StraddledBy(ys, b);
      }
      AscendingSpansDetermined(xs[1..], ys[1..], e);
    }
  }

  lemma FirstStartNotAfter(xs: seq<Span>, ys: seq<Span>)
    requires Ascending(xs) && Ascending(ys) && xs != [] && ys != []
    requires InSome(ys, ys[0].start) ==> InSome(xs, ys[0].start)
    ensures xs[0].start <= ys[0].start
  {
    assert ys[0] in ys;
    var s :| s in xs && s.start <= ys[0].start < s.end;
    var i :| 0 <= i < |xs| && xs[i] == s;
  }

  lemma FirstEndNotBefore(xs: seq<Span>, ys: seq<Span>)
    requires Ascending(xs) && Ascending(ys) && xs != [] && ys != []
    requires xs[0].start == ys[0].start
    requires StraddledBy(ys, xs[0].end) ==> StraddledBy(xs, xs[0].end)
    ensures ys[0].end <= xs[0].end
  {
    assert ys[0] in ys;
  }

  lemma DropFirst(xs: seq<Span>)
    requires Ascending(xs) && xs != []
    ensures Ascending(xs[1..])
    ensures forall s | s in xs[1..] :: xs[0].end <= s.start
    ensures forall p: nat | xs[0].end <= p :: InSome(xs[1..], p) <==> InSome(xs, p)
    ensures forall b: nat | xs[0].end < b :: StraddledBy(xs[1..], b) <==> StraddledBy(xs, b)
  {
    assert xs == [xs[0]] + xs[1..];
    forall p: nat | xs[0].end <= p ensures InSome(xs[1..], p) <==> InSome(xs, p) {
      if InSome(xs, p) {
        var s :| s in xs && s.start <= p < s.end;
        assert s in xs[1..];
      }
    }
    forall b: nat | xs[0].end < b ensures StraddledBy(xs[1..], b) <==> StraddledBy(xs, b) {
      if StraddledBy(xs, b) {
        var s :| s in xs && s.start < b < s.end;
        assert s in xs[1..];
      }
    }
  }

  /** The span list is a function of the set of secrets alone. */
  lemma MergedSpansUnique(text: string, secrets: set<string>, xs: seq<Span>, ys: seq<Span>)
    requires MergedSpans(text, secrets, xs) && MergedSpans(text, secrets, ys)
    ensures xs == ys
  {
    assert forall p: nat :: InSome(xs, p) <==> Covered(text, secrets, p);
    assert forall b: nat :: StraddledBy(xs, b) <==> Straddled(text, secrets, b);
    AscendingSpansDetermined(xs, ys, 0);
  }

  // ---------- Finding, sorting, merging ----------

  /** The distinct non-empty secrets, in first-appearance order. */
  function UniqueSecrets(secrets: seq<string>): (unique: seq<string>)
    ensures SetOf(unique) == SetOf(secrets) - {""}
    ensures forall i, j | 0 <= i < j < |unique| :: unique[i] != unique[j]
  {
    if secrets == [] then []
    else
      var last := secrets[|secrets| - 1];
      var before := UniqueSecrets(secrets[..|secrets| - 1]);
      assert secrets == secrets[..|secrets| - 1] + [last];
      assert SetOf(secrets) == SetOf(secrets[..|secrets| - 1]) + {last};
      if last == "" || last in before then
        assert last in before ==> last in SetOf(before);
        before
      else
        assert SetOf(before + [last]) == SetOf(before) + {last};
        before + [last]
  }

  lemma EmptySecretsIrrelevant(text: string, secrets: seq<string>, s: Span)
    ensures Occurrence(text, SetOf(UniqueSecrets(secrets)), s) <==> Occurrence(text, SetOf(secrets), s)
  {
  }

  predicate At(text: string, pattern: string, p: nat) {
    p + |pattern| <= |text| && text[p..p + |pattern|] == pattern
  }

  /** The least index at or after `from` where `pattern` occurs, or -1. */
  function IndexOf(text: string, pattern: string, from: nat): (index: int)
    requires pattern != ""
    ensures index == -1 || (from <= index && At(text, pattern, index))
    ensures forall p: nat | from <= p && At(text, pattern, p) :: index != -1 && index <= p
    decreases |text| - from
  {
    if |text| < from + |pattern| then -1
    else if At(text, pattern, from) then from
    else IndexOf(text, pattern, from + 1)
  }

  /** All occurrences of all secrets, overlapping ones included. */
  method FindOccurrences(message: string, secrets: seq<string>) returns (found: seq<Span>)
    requires "" !in secrets
    ensures forall s :: s in found <==> Occurrence(message, SetOf(secrets), s)
  {
    found := [];
    for k := 0 to |secrets|
      invariant forall s :: s in found <==> Occurrence(message, SetOf(secrets[..k]), s)
    {
      var secret := secrets[k];
      ghost var before := found;
      var index := IndexOf(message, secret, 0);
      ghost var from: nat := 0;
      while index != -1
        invariant index == IndexOf(message, secret, from)
        invariant forall s :: s in found <==> (s in before || (s.start < from && OccurrenceOf(message, secret, s)))
        decreases |message| - from
      {
        NextOccurrence(message, secret, from, index);
        found := found + [Span(index, index + |secret|)];
        from := index + 1;
        index := IndexOf(message, secret, index + 1);
      }
      OneMoreSecret(message, secrets, k);
      forall s ensures OccurrenceOf(message, secret, s) ==> s.start < from {
        if OccurrenceOf(message, secret, s) { assert At(message, secret, s.start); }
      }
    }
    assert secrets[..|secrets|] == secrets;
  }

  predicate OccurrenceOf(text: string, secret: string, s: Span) {
    s.start < s.end && s.end == s.start + |secret| && At(text, secret, s.start)
  }

  lemma NextOccurrence(text: string, secret: string, from: nat, index: nat)
    requires secret != "" && index == IndexOf(text, secret, from)
    ensures forall s: Span :: (s.start < index + 1 && OccurrenceOf(text, secret, s)) <==>
              ((s.start < from && OccurrenceOf(text, secret, s)) || s == Span(index, index + |secret|))
  {
    forall s: Span | s.start < index + 1 && OccurrenceOf(text, secret, s) && from <= s.start
      ensures s == Span(index, index + |secret|)
    {
      assert At(text, secret, s.start);
    }
  }

  lemma OneMoreSecret(text: string, secrets: seq<string>, k: nat)
    requires k < |secrets|
    ensures forall s :: Occurrence(text, SetOf(secrets[..k + 1]), s) <==>
              (Occurrence(text, SetOf(secrets[..k]), s) || OccurrenceOf(text, secrets[k], s))
  {
    assert SetOf(secrets[..k + 1]) == SetOf(secrets[..k]) + {secrets[k]};
    forall s: Span ensures (s.start < s.end <= |text| && text[s.start..s.end] == secrets[k]) <==> OccurrenceOf(text, secrets[k], s) {
      if s.start < s.end <= |text| && text[s.start..s.end] == secrets[k] {
        assert |text[s.start..s.end]| == s.end - s.start;
      }
    }
  }

  predicate InOrder(left: Span, right: Span) {
    left.start < right.start || (left.start == right.start && left.end <= right.end)
  }

  predicate Sorted(spans: seq<Span>) {
    forall i, j | 0 <= i < j < |spans| :: InOrder(spans[i], spans[j])
  }

  function Insert(s: Span, sorted: seq<Span>): (r: seq<Span>)
    requires Sorted(sorted)
    ensures Sorted(r)
    ensures forall x :: x in r <==> x == s || x in sorted
  {
    if sorted == [] || InOrder(s, sorted[0]) then [s] + sorted
    else
      var rest := Insert(s, sorted[1..]);
      assert sorted == [sorted[0]] + sorted[1..];
      assert forall x | x in rest :: InOrder(sorted[0], x);
      [sorted[0]] + rest
  }

  lemma {:induction false} InsertPermutes(s: Span, sorted: seq<Span>)
    requires Sorted(sorted)
    ensures multiset(Insert(s, sorted)) == multiset(sorted) + multiset{s}
  {
    if sorted != [] && !InOrder(s, sorted[0]) {
      InsertPermutes(s, sorted[1..]);
      assert sorted == [sorted[0]] + sorted[1..];
    }
  }

  /** The runtime's sort with the start-then-end comparator. */
  function SortSpans(spans: seq<Span>): (sorted: seq<Span>)
    ensures Sorted(sorted)
    ensures forall s :: s in sorted <==> s in spans
    ensures multiset(sorted) == multiset(spans)
  {
    if spans == [] then [] else
      var rest := SortSpans(spans[1..]);
      assert spans == [spans[0]] + spans[1..];
      InsertPermutes(spans[0], rest);
      Insert(spans[0], rest)
  }

  /** Appending a span that starts at or after the last end. */
  lemma AppendStep(merged: seq<Span>, s: Span)
    requires Ascending(merged) && s.start < s.end
    requires merged != [] ==> merged[|merged| - 1].end <= s.start
    ensures Ascending(merged + [s])
    ensures forall p: nat :: InSome(merged + [s], p) <==> (InSome(merged, p) || s.start <= p < s.end)
    ensures forall b: nat :: StraddledBy(merged + [s], b) <==> (StraddledBy(merged, b) || s.start < b < s.end)
  {
    AppendedCover(merged, s);
  }

  lemma AppendedCover(spans: seq<Span>, s: Span)
    ensures forall p: nat :: InSome(spans + [s], p) <==> (InSome(spans, p) || s.start <= p < s.end)
    ensures forall b: nat :: StraddledBy(spans + [s], b) <==> (StraddledBy(spans, b) || s.start < b < s.end)
  {
    var all := spans + [s];
    assert s in all && forall x | x in spans :: x in all;
    assert forall x | x in all :: x in spans || x == s;
  }

  /** Widening the last span by one that strictly overlaps it. */
  lemma WidenStep(front: seq<Span>, last: Span, s: Span)
    requires Ascending(front + [last]) && last.start <= s.start < last.end && s.start < s.end
    ensures var merged := front + [Span(last.start, Max(last.end, s.end))];
      && Ascending(merged)
      && (forall p: nat :: InSome(merged, p) <==> (InSome(front + [last], p) || s.start <= p < s.end))
      && (forall b: nat :: StraddledBy(merged, b) <==> (StraddledBy(front + [last], b) || s.start < b < s.end))
  {
    var wide := Span(last.start, Max(last.end, s.end));
    assert forall i | 0 <= i < |front| :: front[i] == (front + [last])[i];
    assert last == (front + [last])[|front|];
    AppendedCover(front, last);
    AppendedCover(front, wide);
  }

  function Max(a: nat, b: nat): nat { if a < b then b else a }

  /** Finds, sorts and merges; the widened `previous.end` of the source is the
      replaced last element of `merged`. */
  method UniqueSecretSpans(message: string, secrets: seq<string>) returns (merged: seq<Span>)
    requires "" !in secrets
    ensures MergedSpans(message, SetOf(secrets), merged)
  {
    var found := FindOccurrences(message, secrets);
    if |found| == 0 {
      return [];
    }
    found := SortSpans(found);
    merged := [];
    for k := 0 to |found|
      invariant Ascending(merged)
      invariant merged != [] ==> 0 < k && merged[|merged| - 1].start <= found[k - 1].start
      invariant forall p: nat :: InSome(merged, p) <==> InSome(found[..k], p)
      invariant forall b: nat :: StraddledBy(merged, b) <==> StraddledBy(found[..k], b)
    {
      var span := found[k];
      assert span in found;
      AppendedCover(found[..k], span);
      assert found[..k + 1] == found[..k] + [span];
      if |merged| > 0 && span.start < merged[|merged| - 1].end {
        var previous := merged[|merged| - 1];
        assert merged == merged[..|merged| - 1] + [previous];
        WidenStep(merged[..|merged| - 1], previous, span);
        merged := merged[..|merged| - 1] + [Span(previous.start, Max(previous.end, span.end))];
      } else {
        AppendStep(merged, span);
        merged := merged + [span];
      }
    }
    assert found[..|found|] == found;
    forall p: nat ensures InSome(merged, p) <==> Covered(message, SetOf(secrets), p) {
      if InSome(found, p) {
        var s :| s in found && s.start <= p < s.end;
        assert Occurrence(message, SetOf(secrets), s);
      }
      if Covered(message, SetOf(secrets), p) {
        var s :| Occurrence(message, SetOf(secrets), s) && s.start <= p < s.end;
        assert s in found;
      }
    }
    forall b: nat ensures StraddledBy(merged, b) <==> Straddled(message, SetOf(secrets), b) {
      if StraddledBy(found, b) {
        var s :| s in found && s.start < b < s.end;
        assert Occurrence(message, SetOf(secrets), s);
      }
      if Straddled(message, SetOf(secrets), b) {
        var s :| Occurrence(message, SetOf(secrets), s) && s.start < b < s.end;
        assert s in found;
      }
    }
  }

  // ---------- Splicing ----------

  lemma {:induction false} MaskPlain(text: string, secrets: set<string>, a: nat, b: nat)
    requires a <= b <= |text|
    requires forall p | a <= p < b :: !Covered(text, secrets, p)
    ensures Mask(text, secrets, a) == text[a..b] + Mask(text, secrets, b)
    decreases b - a
  {
    if a < b {
      MaskPlain(text, secrets, a + 1, b);
      var rest := Mask(text, secrets, b);
      assert Piece(text, secrets, a) == [text[a]];
      assert text[a..b] == [text[a]] + text[a + 1..b];
      assert [text[a]] + (text[a + 1..b] + rest) == text[a..b] + rest;
    }
  }

  lemma {:induction false} MaskInside(text: string, secrets: set<string>, a: nat, b: nat)
    requires a <= b <= |text|
    requires forall p | a <= p < b :: Covered(text, secrets, p) && Straddled(text, secrets, p)
    ensures Mask(text, secrets, a) == Mask(text, secrets, b)
    decreases b - a
  {
    if a < b {
      MaskInside(text, secrets, a + 1, b);
      assert Piece(text, secrets, a) == "";
      assert "" + Mask(text, secrets, a + 1) == Mask(text, secrets, a + 1);
    }
  }

  /** Nothing between one merged span's predecessor and its start is covered. */
  lemma GapUncovered(text: string, secrets: set<string>, spans: seq<Span>, k: nat, cursor: nat, p: nat)
    requires MergedSpans(text, secrets, spans) && k <= |spans|
    requires cursor == if k == 0 then 0 else spans[k - 1].end
    requires cursor <= p && (k < |spans| ==> p < spans[k].start)
    ensures !Covered(text, secrets, p)
  {
    assert InSome(spans, p) <==> Covered(text, secrets, p);
    forall i | 0 <= i < |spans| ensures !(spans[i].start <= p < spans[i].end) {
      if i < k {
        assert i < k - 1 ==> spans[i].end <= spans[k - 1].start;
      } else if k < i {
        assert spans[k].end <= spans[i].start;
      }
    }
  }

  /** A merged span starts at an unstraddled covered position, and every later
      position of it is straddled. */
  lemma SpanShape(text: string, secrets: set<string>, spans: seq<Span>, k: nat)
    requires MergedSpans(text, secrets, spans) && k < |spans|
    ensures Covered(text, secrets, spans[k].start) && !Straddled(text, secrets, spans[k].start)
    ensures forall p | spans[k].start < p < spans[k].end :: Covered(text, secrets, p) && Straddled(text, secrets, p)
  {
    var s := spans[k];
    assert s in spans;
    assert InSome(spans, s.start);
    assert StraddledBy(spans, s.start) <==> Straddled(text, secrets, s.start);
    forall i | 0 <= i < |spans| ensures !(spans[i].start < s.start < spans[i].end) {
      if i < k {
        assert spans[i].end <= s.start;
      } else if k < i {
        assert s.end <= spans[i].start;
      }
    }
    forall p | s.start < p < s.end ensures Covered(text, secrets, p) && Straddled(text, secrets, p) {
      assert InSome(spans, p) && StraddledBy(spans, p);
    }
  }

  /** What the mask says between one merged span's predecessor and its end. */
  lemma MaskNextSpan(text: string, secrets: set<string>, spans: seq<Span>, k: nat, cursor: nat)
    requires MergedSpans(text, secrets, spans) && k < |spans|
    requires cursor == if k == 0 then 0 else spans[k - 1].end
    ensures cursor <= spans[k].start < spans[k].end <= |text|
    ensures Mask(text, secrets, cursor) == text[cursor..spans[k].start] + MARKER + Mask(text, secrets, spans[k].end)
  {
    var s := spans[k];
    SpanInText(text, secrets, spans, k);
    SpanShape(text, secrets, spans, k);
    forall p | cursor <= p < s.start ensures !Covered(text, secrets, p) {
      GapUncovered(text, secrets, spans, k, cursor, p);
    }
    MaskOneSpan(text, secrets, cursor, s);
  }

  lemma MaskOneSpan(text: string, secrets: set<string>, cursor: nat, s: Span)
    requires cursor <= s.start < s.end <= |text|
    requires forall p | cursor <= p < s.start :: !Covered(text, secrets, p)
    requires Covered(text, secrets, s.start) && !Straddled(text, secrets, s.start)
    requires forall p | s.start < p < s.end :: Covered(text, secrets, p) && Straddled(text, secrets, p)
    ensures Mask(text, secrets, cursor) == text[cursor..s.start] + MARKER + Mask(text, secrets, s.end)
  {
    MaskPlain(text, secrets, cursor, s.start);
    MaskInside(text, secrets, s.start + 1, s.end);
    assert Mask(text, secrets, s.start) == MARKER + Mask(text, secrets, s.end);
  }

  lemma SpanInText(text: string, secrets: set<string>, spans: seq<Span>, k: nat)
    requires MergedSpans(text, secrets, spans) && k < |spans|
    ensures spans[k].end <= |text|
  {
    var last: nat := spans[k].end - 1;
    assert spans[k] in spans && InSome(spans, last);
    assert Covered(text, secrets, last);
  }

  /** After the last span nothing is covered. */
  lemma MaskTail(text: string, secrets: set<string>, spans: seq<Span>, cursor: nat)
    requires MergedSpans(text, secrets, spans)
    requires cursor == if spans == [] then 0 else spans[|spans| - 1].end
    ensures cursor <= |text| && Mask(text, secrets, cursor) == text[cursor..]
  {
    if spans != [] { SpanInText(text, secrets, spans, |spans| - 1); }
    forall p | cursor <= p < |text| ensures !Covered(text, secrets, p) {
      GapUncovered(text, secrets, spans, |spans|, cursor, p);
    }
    MaskPlain(text, secrets, cursor, |text|);
    assert text[cursor..|text|] == text[cursor..];
  }

  method RedactUnique(message: string, secrets: seq<string>) returns (redacted: string)
    requires "" !in secrets
    ensures redacted == Mask(message, SetOf(secrets), 0)
  {
    var spans := UniqueSecretSpans(message, secrets);
    ghost var known := SetOf(secrets);
    if |spans| == 0 {
      MaskTail(message, known, spans, 0);
      return message;
    }
    redacted := "";
    var cursor := 0;
    for k := 0 to |spans|
      invariant cursor == (if k == 0 then 0 else spans[k - 1].end) && cursor <= |message|
      invariant redacted + Mask(message, known, cursor) == Mask(message, known, 0)
    {
      MaskNextSpan(message, known, spans, k, cursor);
      var piece := message[cursor..spans[k].start] + MARKER;
      assert redacted + (piece + Mask(message, known, spans[k].end)) == redacted + piece + Mask(message, known, spans[k].end);
      redacted := redacted + piece;
      cursor := spans[k].end;
    }
    MaskTail(message, known, spans, cursor);
    redacted := redacted + message[cursor..];
  }

  lemma MaskIgnoresEmptySecret(text: string, secrets: set<string>, other: set<string>, from: nat)
    requires from <= |text|
    requires secrets - {""} == other - {""}
    ensures Mask(text, secrets, from) == Mask(text, other, from)
    decreases |text| - from
  {
    forall s ensures Occurrence(text, secrets, s) <==> Occurrence(text, other, s) {
      if s.start < s.end <= |text| {
        var w := text[s.start..s.end];
        assert w in secrets <==> w in secrets - {""};
        assert w in other <==> w in other - {""};
      }
    }
    if from < |text| {
      MaskIgnoresEmptySecret(text, secrets, other, from + 1);
      assert Covered(text, secrets, from) <==> Covered(text, other, from);
      assert Straddled(text, secrets, from) <==> Straddled(text, other, from);
    }
  }

  /** The entry point.  Its result is a function of the set of secrets: neither
      their order nor repetitions nor empty entries can be seen in it. */
  method RedactAll(message: string, redactSecrets: seq<string>) returns (redacted: string)
    ensures redacted == Mask(message, SetOf(redactSecrets), 0)
  {
    redacted := RedactUnique(message, UniqueSecrets(redactSecrets));
    MaskIgnoresEmptySecret(message, SetOf(redactSecrets), SetOf(UniqueSecrets(redactSecrets)), 0);
  }

  method SecretSpans(message: string, redactSecrets: seq<string>) returns (spans: seq<Span>)
    ensures MergedSpans(message, SetOf(redactSecrets), spans)
  {
    var unique := UniqueSecrets(redactSecrets);
    spans := UniqueSecretSpans(message, unique);
    forall s ensures Occurrence(message, SetOf(unique), s) <==> Occurrence(message, SetOf(redactSecrets), s) {
      EmptySecretsIrrelevant(message, redactSecrets, s);
    }
    forall p: nat ensures Covered(message, SetOf(unique), p) <==> Covered(message, SetOf(redactSecrets), p) {}
    forall b: nat ensures Straddled(message, SetOf(unique), b) <==> Straddled(message, SetOf(redactSecrets), b) {}
  }

  // ---------- What redaction guarantees ----------

  /** A marker-free stretch of output that begins at a boundary is a stretch of
      uncovered input. */
  lemma {:induction false} PlainOutputIsInput(text: string, secrets: set<string>, from: nat, n: nat)
    requires from <= |text| && n <= |Mask(text, secrets, from)|
    requires !Straddled(text, secrets, from)
    requires forall i | 0 <= i < n :: !MarkerFlags(text, secrets, from)[i]
    ensures from + n <= |text| && Mask(text, secrets, from)[..n] == text[from..from + n]
    ensures forall p | from <= p < from + n :: !Covered(text, secrets, p)
    decreases n
  {
    if 0 < n {
      assert !MarkerFlags(text, secrets, from)[0];
      assert !Covered(text, secrets, from);
      assert !Straddled(text, secrets, from + 1) by {
        StraddledNextIsCovered(text, secrets, from);
      }
      var rest := Mask(text, secrets, from + 1);
      assert Mask(text, secrets, from) == [text[from]] + rest;
      var later := MarkerFlags(text, secrets, from + 1);
      forall i | 0 <= i < n - 1 ensures !later[i] {
        assert MarkerFlags(text, secrets, from)[i + 1] == later[i];
      }
      PlainOutputIsInput(text, secrets, from + 1, n - 1);
      assert Mask(text, secrets, from)[..n] == [text[from]] + rest[..n - 1];
      assert text[from..from + n] == [text[from]] + text[from + 1..from + n];
    }
  }

  predicate SomeFlag(flags: seq<bool>, s: Span) {
    exists i :: s.start <= i < s.end && i < |flags| && flags[i]
  }

  /** Whatever the secrets are, an occurrence of one in the redacted text always
      touches a marker: none survives inside the text that was kept. */
  lemma {:induction false} ResidueTouchesMarker(text: string, secrets: set<string>, from: nat, s: Span)
    requires from <= |text|
    requires Occurrence(Mask(text, secrets, from), secrets, s)
    ensures SomeFlag(MarkerFlags(text, secrets, from), s)
    decreases |text| - from
  {
    var n := |Piece(text, secrets, from)|;
    if n <= s.start {
      ResidueInRest(text, secrets, from, s);
      var s' := Span(s.start - n, s.end - n);
      ResidueTouchesMarker(text, secrets, from + 1, s');
      LaterFlags(MarkerFlags(text, secrets, from)[..n], MarkerFlags(text, secrets, from + 1), s);
      assert MarkerFlags(text, secrets, from) == MarkerFlags(text, secrets, from)[..n] + MarkerFlags(text, secrets, from + 1);
    } else {
      ResidueAtHead(text, secrets, from, s);
    }
  }

  lemma LaterFlags(head: seq<bool>, tail: seq<bool>, s: Span)
    requires |head| <= s.start < s.end && SomeFlag(tail, Span(s.start - |head|, s.end - |head|))
    ensures SomeFlag(head + tail, s)
  {
    var i :| s.start - |head| <= i < s.end - |head| && i < |tail| && tail[i];
    assert (head + tail)[i + |head|];
  }

  lemma ResidueInRest(text: string, secrets: set<string>, from: nat, s: Span)
    requires from < |text|
    requires Occurrence(Mask(text, secrets, from), secrets, s)
    requires |Piece(text, secrets, from)| <= s.start
    ensures var n := |Piece(text, secrets, from)|;
      Occurrence(Mask(text, secrets, from + 1), secrets, Span(s.start - n, s.end - n))
  {
    var n := |Piece(text, secrets, from)|;
    SliceOfTail(Piece(text, secrets, from), Mask(text, secrets, from + 1), s.start, s.end);
  }

  lemma SliceOfTail(head: string, tail: string, i: nat, j: nat)
    requires |head| <= i <= j <= |head| + |tail|
    ensures (head + tail)[i..j] == tail[i - |head|..j - |head|]
  {
  }

  lemma ResidueAtHead(text: string, secrets: set<string>, from: nat, s: Span)
    requires from < |text|
    requires Occurrence(Mask(text, secrets, from), secrets, s)
    requires s.start < |Piece(text, secrets, from)|
    ensures SomeFlag(MarkerFlags(text, secrets, from), s)
  {
    var flags := MarkerFlags(text, secrets, from);
    if Covered(text, secrets, from) {
      assert flags[s.start];
    } else if !SomeFlag(flags, s) {
      assert s.start == 0;
      assert !Straddled(text, secrets, from) by { StraddledIsCovered(text, secrets, from); }
      forall i | 0 <= i < s.end ensures !flags[i] {}
      PlainOutputIsInput(text, secrets, from, s.end);
      MovedOccurrence(Mask(text, secrets, from), text, secrets, s.end, from);
    }
  }

  lemma MovedOccurrence(from: string, to: string, secrets: set<string>, n: nat, at: nat)
    requires n <= |from| && at + n <= |to| && from[..n] == to[at..at + n]
    requires Occurrence(from, secrets, Span(0, n))
    ensures Covered(to, secrets, at)
  {
    assert from[0..n] == from[..n];
    assert Occurrence(to, secrets, Span(at, at + n));
  }

  lemma StraddledNextIsCovered(text: string, secrets: set<string>, b: nat)
    ensures Straddled(text, secrets, b + 1) ==> Covered(text, secrets, b)
  {
    if Straddled(text, secrets, b + 1) {
      var s :| Occurrence(text, secrets, s) && s.start < b + 1 < s.end;
      assert s.start <= b < s.end;
    }
  }

  lemma StraddledIsCovered(text: string, secrets: set<string>, b: nat)
    ensures Straddled(text, secrets, b) ==> Covered(text, secrets, b)
  {
  }

  predicate MarkerAt(text: string, m: nat) {
    m + |MARKER| <= |text| && forall k | 0 <= k < |MARKER| :: text[m + k] == MARKER[k]
  }

  /** A flagged character lies inside a whole marker. */
  lemma {:induction false} MarkerAround(text: string, secrets: set<string>, from: nat, i: nat)
    requires from <= |text| && i < |Mask(text, secrets, from)|
    requires MarkerFlags(text, secrets, from)[i]
    ensures exists m: nat :: m <= i < m + |MARKER| && MarkerAt(Mask(text, secrets, from), m)
    decreases |text| - from
  {
    var piece, out := Piece(text, secrets, from), Mask(text, secrets, from);
    if |piece| <= i {
      var rest := Mask(text, secrets, from + 1);
      MarkerAround(text, secrets, from + 1, i - |piece|);
      var m: nat :| m <= i - |piece| < m + |MARKER| && MarkerAt(rest, m);
      LaterMarker(piece, rest, m);
      assert MarkerAt(out, m + |piece|);
    } else {
      assert Covered(text, secrets, from) && piece == MARKER;
      assert MarkerAt(out, 0);
    }
  }

  lemma LaterMarker(head: string, tail: string, m: nat)
    requires MarkerAt(tail, m)
    ensures MarkerAt(head + tail, m + |head|)
  {
    forall k | 0 <= k < |MARKER| ensures (head + tail)[m + |head| + k] == MARKER[k] {
      assert (head + tail)[m + |head| + k] == tail[m + k];
    }
  }

  /** A secret that occurs where a marker stands agrees with it there. */
  lemma OccurrenceMeetsMarker(text: string, secrets: set<string>, s: Span, m: nat, i: nat)
    requires Occurrence(text, secrets, s) && MarkerAt(text, m)
    requires s.start <= i < s.end && m <= i < m + |MARKER|
    ensures !MarkerApart(secrets)
  {
    var secret := text[s.start..s.end];
    var d := s.start - m;
    forall k | 0 <= k < |secret| && 0 <= k + d < |MARKER| ensures secret[k] == MARKER[k + d] {
      assert secret[k] == text[s.start + k] && text[m + (k + d)] == MARKER[k + d];
    }
    assert -|secret| < d < |MARKER| && Agrees(secret, d);
  }

  /** With secrets that cannot overlap the marker, the redacted text contains no
      secret at all. */
  lemma RedactedTextClean(text: string, secrets: set<string>)
    requires MarkerApart(secrets)
    ensures !Contains(Mask(text, secrets, 0), secrets)
  {
    var out := Mask(text, secrets, 0);
    if s :| Occurrence(out, secrets, s) {
      ResidueTouchesMarker(text, secrets, 0, s);
      var i :| s.start <= i < s.end && i < |out| && MarkerFlags(text, secrets, 0)[i];
      MarkerAround(text, secrets, 0, i);
      var m: nat :| m <= i < m + |MARKER| && MarkerAt(out, m);
      OccurrenceMeetsMarker(out, secrets, s, m, i);
    }
  }

  predicate OccursAt(text: string, word: string, i: nat) {
    i + |word| <= |text| && text[i..i + |word|] == word
  }

  /** The first `n` characters of `b` are the last `n` of `a`, and neither is whole. */
  predicate Dovetails(a: string, b: string, n: nat) {
    0 < n < |a| && n < |b| && a[|a| - n..] == b[..n]
  }

  /** The ways to overlap: lie inside the marker, hold the whole marker, end with
      its beginning, or begin with its end. */
  predicate InsideMarker(secret: string) { exists d: nat | d <= |MARKER| :: OccursAt(MARKER, secret, d) }

  predicate HoldsMarker(secret: string) { exists d: nat | d <= |secret| :: OccursAt(secret, MARKER, d) }

  predicate EndsWithMarkerStart(secret: string) { exists n: nat | n <= |secret| :: Dovetails(secret, MARKER, n) }

  predicate BeginsWithMarkerEnd(secret: string) { exists n: nat | n <= |secret| :: Dovetails(MARKER, secret, n) }

  /** Agreement of two words of which the second starts `d` characters later. */
  predicate Overlay(a: string, b: string, d: nat) {
    forall i: nat | d + i < |a| && i < |b| :: a[d + i] == b[i]
  }

  lemma OverlayCases(a: string, b: string, d: nat)
    requires d < |a|
    ensures Overlay(a, b, d) <==> if d + |b| <= |a| then OccursAt(a, b, d) else a[d..] == b[..|a| - d]
  {
    var n := if d + |b| <= |a| then |b| else |a| - d;
    var there, here := a[d..d + n], b[..n];
    assert d + |b| > |a| ==> there == a[d..];
    assert d + |b| <= |a| ==> here == b;
    forall i | 0 <= i < n ensures there[i] == a[d + i] && here[i] == b[i] {}
    if Overlay(a, b, d) {
      forall i | 0 <= i < n ensures there[i] == here[i] {}
    } else {
      var i: nat :| d + i < |a| && i < |b| && a[d + i] != b[i];
      assert there[i] != here[i];
    }
  }

  lemma AgreesIsOverlay(secret: string, d: int)
    ensures 0 <= d ==> (Agrees(secret, d) <==> Overlay(MARKER, secret, d))
    ensures d <= 0 ==> (Agrees(secret, d) <==> Overlay(secret, MARKER, -d))
  {
    if 0 <= d && Overlay(MARKER, secret, d) {
      forall i | 0 <= i < |secret| && 0 <= i + d < |MARKER| ensures secret[i] == MARKER[i + d] {
        assert MARKER[d + i] == secret[i];
      }
    }
    if d <= 0 && Overlay(secret, MARKER, -d) {
      forall i | 0 <= i < |secret| && 0 <= i + d < |MARKER| ensures secret[i] == MARKER[i + d] {
        assert secret[-d + (i + d)] == MARKER[i + d];
      }
    }
    if d <= 0 && Agrees(secret, d) {
      forall i: nat | -d + i < |secret| && i < |MARKER| ensures secret[-d + i] == MARKER[i] {
        assert secret[-d + i] == MARKER[-d + i + d];
      }
    }
    hide MARKER;
  }

  /** Being apart from the marker is none of these four. */
  lemma ApartExactly(secret: string)
    requires secret != ""
    ensures Apart(secret) <==>
              !InsideMarker(secret) && !HoldsMarker(secret) && !EndsWithMarkerStart(secret) && !BeginsWithMarkerEnd(secret)
  {
    assert MARKER != "";
    hide MARKER;
    if d :| -|secret| < d < |MARKER| && Agrees(secret, d) { AgreementCases(secret, d); }
    if d: nat :| d <= |MARKER| && OccursAt(MARKER, secret, d) {
      OverlayCases(MARKER, secret, d);
      AgreesIsOverlay(secret, d);
    }
    if d: nat :| d <= |secret| && OccursAt(secret, MARKER, d) {
      OverlayCases(secret, MARKER, d);
      var back: int := 0 - d;
      AgreesIsOverlay(secret, back);
    }
    if n: nat :| n <= |secret| && Dovetails(secret, MARKER, n) {
      OverlayCases(secret, MARKER, |secret| - n);
      var d := n - |secret|;
      AgreesIsOverlay(secret, d);
      assert -|secret| < d < |MARKER|;
    }
    if n: nat :| n <= |secret| && Dovetails(MARKER, secret, n) {
      OverlayCases(MARKER, secret, |MARKER| - n);
      AgreesIsOverlay(secret, |MARKER| - n);
    }
    hide Agrees, Overlay, OccursAt;
  }

  lemma AgreementCases(secret: string, d: int)
    requires -|secret| < d < |MARKER| && Agrees(secret, d)
    ensures InsideMarker(secret) || HoldsMarker(secret) || EndsWithMarkerStart(secret) || BeginsWithMarkerEnd(secret)
  {
    hide MARKER, Agrees, Overlay, OccursAt;
    AgreesIsOverlay(secret, d);
    if 0 < d || (d == 0 && |secret| <= |MARKER|) {
      OverlayCases(MARKER, secret, d);
      assert d + |secret| > |MARKER| ==> Dovetails(MARKER, secret, |MARKER| - d);
    } else {
      OverlayCases(secret, MARKER, -d);
      assert -d + |MARKER| > |secret| ==> Dovetails(secret, MARKER, |secret| + d);
    }
  }

  /** Sharing no character with the marker is more than enough. */
  lemma DisjointIsApart(secrets: set<string>)
    requires forall secret | secret in secrets :: forall c | c in secret :: c !in MARKER
    ensures MarkerApart(secrets)
  {
    forall secret, d | secret in secrets && secret != "" && -|secret| < d < |MARKER| ensures !Agrees(secret, d) {
      var i := if d < 0 then -d else 0;
      assert secret[i] in secret && MARKER[i + d] in MARKER;
    }
  }

  lemma CleanTextUnchanged(text: string, secrets: set<string>)
    requires !Contains(text, secrets)
    ensures Mask(text, secrets, 0) == text
  {
    forall p | 0 <= p < |text| ensures !Covered(text, secrets, p) {
    }
    MaskPlain(text, secrets, 0, |text|);
    assert text[0..|text|] == text;
  }

  lemma RedactionFixedPoint(text: string, secrets: set<string>)
    requires MarkerApart(secrets)
    ensures Mask(Mask(text, secrets, 0), secrets, 0) == Mask(text, secrets, 0)
  {
    RedactedTextClean(text, secrets);
    CleanTextUnchanged(Mask(text, secrets, 0), secrets);
  }

  /** Dropping the marker characters from the output leaves exactly the
      uncovered characters of the input, in order. */
  lemma {:induction false} UncoveredTextKept(text: string, secrets: set<string>, from: nat)
    requires from <= |text|
    ensures Unmarked(Mask(text, secrets, from), MarkerFlags(text, secrets, from)) == Uncovered(text, secrets, from)
    decreases |text| - from
  {
    if from < |text| {
      UncoveredTextKept(text, secrets, from + 1);
      var piece := Piece(text, secrets, from);
      var covered := Covered(text, secrets, from);
      hide Covered, Straddled, Unmarked, MARKER;
      assert MarkerFlags(text, secrets, from) == seq(|piece|, _ => covered) + MarkerFlags(text, secrets, from + 1);
      UnmarkedUniform(piece, covered, Mask(text, secrets, from + 1), MarkerFlags(text, secrets, from + 1));
    }
  }

  /** The characters whose flag is false. */
  function Unmarked(text: string, flags: seq<bool>): string
    requires |text| == |flags|
  {
    if text == "" then ""
    else (if flags[0] then "" else [text[0]]) + Unmarked(text[1..], flags[1..])
  }

  lemma {:induction false} UnmarkedUniform(piece: string, flag: bool, rest: string, flags: seq<bool>)
    requires |rest| == |flags|
    ensures Unmarked(piece + rest, seq(|piece|, _ => flag) + flags) == (if flag then "" else piece) + Unmarked(rest, flags)
    decreases |piece|
  {
    var all := seq(|piece|, _ => flag);
    if piece == "" {
      assert piece + rest == rest && all + flags == flags;
    } else {
      var tail := seq(|piece| - 1, _ => flag);
      assert (piece + rest)[1..] == piece[1..] + rest;
      assert (all + flags)[1..] == tail + flags;
      UnmarkedUniform(piece[1..], flag, rest, flags);
      assert piece == [piece[0]] + piece[1..];
    }
  }

  /** The hypothesis is needed: every secret that lies inside the marker survives
      the redaction of itself, whatever the other secrets are, ... */
  lemma FragmentSurvives(secret: string, secrets: set<string>)
    requires secret in secrets && secret != "" && InsideMarker(secret)
    ensures Contains(Mask(secret, secrets, 0), secrets)
  {
    hide MARKER, Mask;
    assert secret[0..|secret|] == secret;
    assert Occurrence(secret, secrets, Span(0, |secret|));
    WholeTextMasked(secret, secrets);
    var d: nat :| d <= |MARKER| && OccursAt(MARKER, secret, d);
    assert Occurrence(MARKER, secrets, Span(d, d + |secret|));
  }

  /** A secret that occurs once in a text is replaced there and nowhere else. */
  lemma OnceMasked(left: string, secret: string, right: string)
    requires secret != ""
    requires forall i: nat | i <= |left| + |right| && OccursAt(left + secret + right, secret, i) :: i == |left|
    ensures Mask(left + secret + right, {secret}, 0) == left + MARKER + right
  {
    var text, secrets, span := left + secret + right, {secret}, Span(|left|, |left| + |secret|);
    assert text[span.start..span.end] == secret;
    assert Occurrence(text, secrets, span);
    forall s | Occurrence(text, secrets, s) ensures s == span {
      assert text[s.start..s.end] == secret && s.end == s.start + |secret|;
      assert OccursAt(text, secret, s.start);
    }
    hide Mask, MARKER, Occurrence;
    OnlySpan(text, secrets, span);
    assert text[..|left|] == left && text[span.end..] == right;
  }

  lemma OnlySpan(text: string, secrets: set<string>, span: Span)
    requires Occurrence(text, secrets, span)
    requires forall s | Occurrence(text, secrets, s) :: s == span
    ensures Mask(text, secrets, 0) == text[..span.start] + MARKER + text[span.end..]
  {
    forall p | span.start < p < span.end ensures Covered(text, secrets, p) && Straddled(text, secrets, p) {
      assert span.start < p < span.end;
    }
    assert span.start <= span.start < span.end;
    assert span.end <= |text|;
    hide Mask, MARKER, Occurrence;
    MaskOneSpan(text, secrets, 0, span);
    MaskPlain(text, secrets, span.end, |text|);
    MaskAtEnd(text, secrets);
    assert text[0..span.start] == text[..span.start] && text[span.end..|text|] + "" == text[span.end..];
  }

  lemma MaskAtEnd(text: string, secrets: set<string>)
    ensures Mask(text, secrets, |text|) == ""
  {
  }

  /** ... and each of the other overlaps lets some secret come out again: the marker
      put in its place completes a new occurrence. */
  lemma OverlapsSurvive()
    ensures EndsWithMarkerStart("a[") && Contains(Mask("aa[", {"a["}, 0), {"a["})
    ensures BeginsWithMarkerEnd("]a") && Contains(Mask("]aa", {"]a"}, 0), {"]a"})
    ensures HoldsMarker("a[REDACTED]b") && Contains(Mask("aa[REDACTED]bb", {"a[REDACTED]b"}, 0), {"a[REDACTED]b"})
  {
    EndSurvives();
    BeginningSurvives();
    HolderSurvives();
  }

  lemma EndSurvives()
    ensures EndsWithMarkerStart("a[") && Contains(Mask("aa[", {"a["}, 0), {"a["})
  {
    assert "a["[2 - 1..] == MARKER[..1];
    assert Dovetails("a[", MARKER, 1);
    var text := "a" + "a[" + "";
    assert text == "aa[" && text[0..2][1] == 'a';
    OnceMasked("a", "a[", "");
    var out := "a" + MARKER + "";
    assert out[0..2] == "a[";
    assert Occurrence(out, {"a["}, Span(0, 2));
  }

  lemma BeginningSurvives()
    ensures BeginsWithMarkerEnd("]a") && Contains(Mask("]aa", {"]a"}, 0), {"]a"})
  {
    assert "]a"[..1] == MARKER[|MARKER| - 1..];
    assert Dovetails(MARKER, "]a", 1);
    var text := "" + "]a" + "a";
    assert text == "]aa" && text[1..3][0] == 'a';
    OnceMasked("", "]a", "a");
    var out := "" + MARKER + "a";
    assert out[|MARKER| - 1..|MARKER| + 1] == "]a";
    assert Occurrence(out, {"]a"}, Span(|MARKER| - 1, |MARKER| + 1));
  }

  lemma HolderSurvives()
    ensures HoldsMarker("a[REDACTED]b") && Contains(Mask("aa[REDACTED]bb", {"a[REDACTED]b"}, 0), {"a[REDACTED]b"})
  {
    var secret := "a[REDACTED]b";
    assert secret[1..1 + |MARKER|] == MARKER;
    assert OccursAt(secret, MARKER, 1);
    var text := "a" + secret + "b";
    assert text == "aa[REDACTED]bb";
    assert text[0..|secret|][1] == 'a' && text[2..2 + |secret|][0] == '[';
    OnceMasked("a", secret, "b");
    var out := "a" + MARKER + "b";
    assert out[0..|out|] == secret;
    assert Occurrence(out, {secret}, Span(0, |out|));
  }

  lemma WholeTextMasked(text: string, secrets: set<string>)
    requires Occurrence(text, secrets, Span(0, |text|))
    ensures Mask(text, secrets, 0) == MARKER
  {
    var whole := Span(0, |text|);
    assert whole.start <= 0 < whole.end;
    forall p | 0 < p < |text| ensures Covered(text, secrets, p) && Straddled(text, secrets, p) {
      assert whole.start < p < whole.end;
    }
    MaskOneSpan(text, secrets, 0, whole);
  }
}
