/** Systemd memory limits: the compound-term scanner, the uint64 arithmetic and the
    relative values of `isDefinitelyInvalidSystemdMemoryValue` in `src/doctor.ts`. */
module SystemdMemory {
  import opened Wrappers
  import opened Strings

  const UINT64_MAX: nat := 0xFFFF_FFFF_FFFF_FFFF
  const UINT64_MODULUS: nat := 0x1_0000_0000_0000_0000

  // ---------- Characters and runs ----------

  predicate IsDigit(c: char) { '0' <= c <= '9' }

  /** Allowed between a magnitude and its suffix. */
  predicate IsNarrow(c: char) { c == ' ' || c == '\t' || c == '\n' || c == '\r' }

  /** Allowed before a magnitude: form feed and vertical tab as well. */
  predicate IsSeparator(c: char) { IsNarrow(c) || c == '\U{0C}' || c == '\U{0B}' }

  predicate IsSuffix(c: char) {
    c == 'B' || c == 'K' || c == 'M' || c == 'G' || c == 'T' || c == 'P' || c == 'E'
  }

  // ---------- Scanning ----------

  /** One term as it is spelled, with the separators before it. */
  datatype Piece = Piece(
    separator: string, plus: bool, integer: string, fraction: Option<string>, gap: string, suffix: Option<char>)

  function SignText(plus: bool): string { if plus then "+" else "" }

  function FractionText(fraction: Option<string>): string {
    match fraction case None => "" case Some(digits) => "." + digits
  }

  function SuffixText(suffix: Option<char>): string {
    match suffix case None => "" case Some(c) => [c]
  }

  function PrintUnsigned(piece: Piece): string {
    piece.integer + (FractionText(piece.fraction) + (piece.gap + SuffixText(piece.suffix)))
  }

  function PrintTerm(piece: Piece): string { SignText(piece.plus) + PrintUnsigned(piece) }

  function PrintPiece(piece: Piece): string { piece.separator + PrintTerm(piece) }

  function PrintPieces(pieces: seq<Piece>): string {
    if pieces == [] then "" else PrintPiece(pieces[0]) + PrintPieces(pieces[1..])
  }

  predicate WellSpelled(piece: Piece) {
    && All(piece.separator, IsSeparator)
    && piece.integer != "" && All(piece.integer, IsDigit)
    && (piece.fraction.Some? ==> All(piece.fraction.value, IsDigit))
    && All(piece.gap, IsNarrow)
    && (piece.suffix.Some? ==> IsSuffix(piece.suffix.value))
  }

  /** The suffix part of the term pattern, anchored at the start of `s`. */
  function ReadSuffix(s: string): (r: (string, Option<char>))
    ensures |r.0| + |SuffixText(r.1)| <= |s|
  {
    var g := RunLength(s, IsNarrow);
    (s[..g], if g < |s| && IsSuffix(s[g]) then Some(s[g]) else None)
  }

  function ReadFraction(s: string): (r: Option<string>)
    ensures |FractionText(r)| <= |s|
  {
    if s != "" && s[0] == '.' then Some(s[1..][..RunLength(s[1..], IsDigit)]) else None
  }

  /** The term pattern after its optional sign. */
  function MatchUnsigned(s: string, plus: bool): Option<Piece> {
    var d := RunLength(s, IsDigit);
    if d == 0 then None
    else
      var fraction := ReadFraction(s[d..]);
      var tail := ReadSuffix(s[d..][|FractionText(fraction)|..]);
      Some(Piece("", plus, s[..d], fraction, tail.0, tail.1))
  }

  /** The term pattern, anchored at the start of `s`. */
  function MatchTerm(s: string): Option<Piece> {
    var plus := s != "" && s[0] == '+';
    MatchUnsigned(s[|SignText(plus)|..], plus)
  }

  /** Separators and the term after them. */
  function ScanPiece(s: string): (r: Option<Piece>)
    ensures r.Some? ==> 1 <= |PrintPiece(r.value)| <= |s| && WellSpelled(r.value)
  {
    var w := RunLength(s, IsSeparator);
    match MatchTerm(s[w..])
    case None => None
    case Some(term) =>
      MatchTermPrints(s[w..]);
      Some(term.(separator := s[..w]))
  }

  /** The terms of a complete value, or nothing when some part is no term. */
  function Scan(s: string): (r: Option<seq<Piece>>)
    ensures r.Some? ==> Spelled(r.value)
    decreases |s|
  {
    if s == "" then Some([])
    else
      match ScanPiece(s)
      case None => None
      case Some(piece) =>
        var rest := Scan(s[|PrintPiece(piece)|..]);
        SpelledCons(piece, rest);
        Extend([piece], rest)
  }

  /** Terms read so far, followed by what the rest of the value scans to. */
  function Extend(read: seq<Piece>, rest: Option<seq<Piece>>): Option<seq<Piece>> {
    match rest case None => None case Some(pieces) => Some(read + pieces)
  }

  lemma SpelledCons(piece: Piece, rest: Option<seq<Piece>>)
    requires WellSpelled(piece) && (rest.Some? ==> Spelled(rest.value))
    ensures Extend([piece], rest).Some? ==> Spelled(Extend([piece], rest).value)
  {
    hide WellSpelled;
  }

  lemma ReadSuffixPrints(s: string)
    ensures var (gap, suffix) := ReadSuffix(s);
      SplitsAt(s, gap + SuffixText(suffix)) && All(gap, IsNarrow) && (suffix.Some? ==> IsSuffix(suffix.value))
  {
    var (gap, suffix) := ReadSuffix(s);
    var n := |gap + SuffixText(suffix)|;
    assert s[..n] == gap + SuffixText(suffix);
    assert s == s[..n] + s[n..];
  }

  lemma ReadFractionPrints(s: string)
    ensures var fraction := ReadFraction(s);
      SplitsAt(s, FractionText(fraction)) && (fraction.Some? ==> All(fraction.value, IsDigit))
  {
    var fraction := ReadFraction(s);
    if fraction.Some? {
      var d := RunLength(s[1..], IsDigit);
      assert FractionText(fraction) == "." + s[1..][..d];
      hide *;
      SplitDotted(s, d);
    }
  }

  lemma SplitDotted(s: string, d: nat)
    requires s != "" && s[0] == '.' && d < |s|
    ensures SplitsAt(s, "." + s[1..][..d])
  {
    var head := "." + s[1..][..d];
    assert s[..d + 1] == head;
    assert s == s[..d + 1] + s[d + 1..];
  }

  lemma MatchUnsignedPrints(s: string, plus: bool)
    requires MatchUnsigned(s, plus).Some?
    ensures var term := MatchUnsigned(s, plus).value;
      WellSpelled(term) && term.plus == plus && term.separator == "" && SplitsAt(s, PrintUnsigned(term))
  {
    var term := MatchUnsigned(s, plus).value;
    var afterDigits := s[|term.integer|..];
    ReadFractionPrints(afterDigits);
    var fraction := FractionText(term.fraction);
    var afterFraction := afterDigits[|fraction|..];
    ReadSuffixPrints(afterFraction);
    SplitTwice(afterDigits, fraction, term.gap + SuffixText(term.suffix));
    SplitTwice(s, term.integer, fraction + (term.gap + SuffixText(term.suffix)));
  }

  /** `head` is a prefix of `s`. */
  predicate SplitsAt(s: string, head: string) {
    |head| <= |s| && s == head + s[|head|..]
  }

  lemma SplitTwice(s: string, a: string, b: string)
    requires |a| <= |s| && s[..|a|] == a && SplitsAt(s[|a|..], b)
    ensures SplitsAt(s, a + b)
  {
    assert s == a + s[|a|..];
    assert s[|a + b|..] == s[|a|..][|b|..];
  }

  lemma MatchTermPrints(s: string)
    requires MatchTerm(s).Some?
    ensures var term := MatchTerm(s).value;
      WellSpelled(term) && term.separator == "" && SplitsAt(s, PrintTerm(term)) && PrintTerm(term) != ""
  {
    var plus := s != "" && s[0] == '+';
    var sign := SignText(plus);
    MatchUnsignedPrints(s[|sign|..], plus);
    SplitTwice(s, sign, PrintUnsigned(MatchTerm(s).value));
  }

  lemma ScanPiecePrints(s: string)
    requires ScanPiece(s).Some?
    ensures WellSpelled(ScanPiece(s).value) && SplitsAt(s, PrintPiece(ScanPiece(s).value))
  {
    var w := RunLength(s, IsSeparator);
    MatchTermPrints(s[w..]);
    SplitTwice(s, s[..w], PrintTerm(MatchTerm(s[w..]).value));
  }

  predicate Spelled(pieces: seq<Piece>) {
    forall i | 0 <= i < |pieces| :: WellSpelled(pieces[i])
  }

  /** A scanned value is exactly the concatenation of its pieces. */
  lemma {:induction false} ScanSound(s: string)
    requires Scan(s).Some?
    ensures PrintPieces(Scan(s).value) == s && Spelled(Scan(s).value)
    decreases |s|
  {
    if s != "" {
      var piece := ScanPiece(s).value;
      ScanPiecePrints(s);
      var after := s[|PrintPiece(piece)|..];
      ScanSound(after);
      assert Scan(s).value == [piece] + Scan(after).value;
      assert Scan(s).value[1..] == Scan(after).value;
    }
  }

  /** `rest` cannot be taken for a part of a bare term's digits, gap or suffix. */
  predicate Ends(gap: string, suffix: Option<char>, rest: string) {
    suffix.None? && rest != "" ==>
      !IsNarrow(rest[0]) && !IsSuffix(rest[0]) && rest[0] != '.' && (gap == "" ==> !IsDigit(rest[0]))
  }

  lemma ReadSuffixBack(gap: string, suffix: Option<char>, rest: string)
    requires All(gap, IsNarrow) && (suffix.Some? ==> IsSuffix(suffix.value)) && Ends(gap, suffix, rest)
    ensures ReadSuffix((gap + SuffixText(suffix)) + rest) == (gap, suffix)
  {
    var tail := SuffixText(suffix) + rest;
    var s := (gap + SuffixText(suffix)) + rest;
    assert s == gap + tail;
    RunStops(gap, tail, IsNarrow);
    assert s[..|gap|] == gap;
  }

  lemma ReadFractionBack(fraction: Option<string>, rest: string)
    requires fraction.Some? ==> All(fraction.value, IsDigit)
    requires rest == "" || (!IsDigit(rest[0]) && rest[0] != '.')
    ensures ReadFraction(FractionText(fraction) + rest) == fraction
  {
    var s := FractionText(fraction) + rest;
    if fraction.Some? {
      assert s[1..] == fraction.value + rest;
      RunStops(fraction.value, rest, IsDigit);
      assert s[1..][..|fraction.value|] == fraction.value;
    } else {
      assert s == rest;
    }
  }

  lemma MatchUnsignedBack(piece: Piece, rest: string)
    requires WellSpelled(piece) && Ends(piece.gap, piece.suffix, rest)
    ensures MatchUnsigned(PrintUnsigned(piece) + rest, piece.plus) == Some(piece.(separator := ""))
  {
    var afterFraction := piece.gap + SuffixText(piece.suffix) + rest;
    var fraction := FractionText(piece.fraction);
    var afterDigits := fraction + afterFraction;
    var s := PrintUnsigned(piece) + rest;
    Regroup(piece.integer, fraction, piece.gap + SuffixText(piece.suffix), rest);
    AfterFractionHead(piece.gap, piece.suffix, rest);
    RunStops(piece.integer, afterDigits, IsDigit);
    TailOf(piece.integer, afterDigits);
    ReadFractionBack(piece.fraction, afterFraction);
    TailOf(fraction, afterFraction);
    ReadSuffixBack(piece.gap, piece.suffix, rest);
  }

  lemma Regroup(a: string, b: string, c: string, d: string)
    ensures a + (b + c) + d == a + (b + (c + d))
  {
  }

  lemma TailOf(head: string, tail: string)
    ensures (head + tail)[..|head|] == head && (head + tail)[|head|..] == tail
  {
  }

  lemma AfterFractionHead(gap: string, suffix: Option<char>, rest: string)
    requires All(gap, IsNarrow) && (suffix.Some? ==> IsSuffix(suffix.value)) && Ends(gap, suffix, rest)
    ensures var s := gap + SuffixText(suffix) + rest;
      s == "" || (!IsDigit(s[0]) && s[0] != '.')
  {
    var s := gap + SuffixText(suffix) + rest;
    if gap == "" && suffix.None? { assert s == rest; } else if gap != "" { assert s[0] == gap[0]; }
  }

  lemma MatchTermBack(piece: Piece, rest: string)
    requires WellSpelled(piece) && Ends(piece.gap, piece.suffix, rest)
    ensures MatchTerm(PrintTerm(piece) + rest) == Some(piece.(separator := ""))
  {
    var s := PrintTerm(piece) + rest;
    var unsigned := PrintUnsigned(piece) + rest;
    assert s == SignText(piece.plus) + unsigned;
    assert unsigned[0] == piece.integer[0];
    assert s[|SignText(piece.plus)|..] == unsigned;
    MatchUnsignedBack(piece, rest);
  }

  /** A bare term is told apart from the next one: by a separator that does not
      start with narrow whitespace (which would belong to the gap), or else by a
      sign or by the gap. */
  predicate Apart(piece: Piece, next: Piece) {
    piece.suffix.None? ==>
      if next.separator != "" then !IsNarrow(next.separator[0]) else next.plus || piece.gap != ""
  }

  predicate AllApart(pieces: seq<Piece>) {
    forall i | 0 <= i < |pieces| - 1 :: Apart(pieces[i], pieces[i + 1])
  }

  /** Printing terms and scanning the text returns the terms. */
  lemma {:induction false} ScanComplete(pieces: seq<Piece>)
    requires Spelled(pieces)
    requires AllApart(pieces)
    ensures Scan(PrintPieces(pieces)) == Some(pieces)
    decreases |pieces|
  {
    if pieces != [] {
      var piece, rest := pieces[0], pieces[1..];
      assert WellSpelled(piece) && Spelled(rest);
      forall i | 0 <= i < |rest| - 1 ensures Apart(rest[i], rest[i + 1]) {
        assert Apart(pieces[i + 1], pieces[i + 2]);
      }
      ScanComplete(rest);
      if rest != [] {
        assert Apart(pieces[0], pieces[1]) && WellSpelled(rest[0]);
        ApartEnds(piece, rest[0], PrintPieces(rest[1..]));
      }
      ScanOneBack(piece, PrintPieces(rest));
      Cons(pieces);
    }
  }

  lemma ApartEnds(piece: Piece, next: Piece, rest: string)
    requires WellSpelled(next) && Apart(piece, next)
    ensures Ends(piece.gap, piece.suffix, PrintPiece(next) + rest)
  {
    var s := PrintPiece(next) + rest;
    if next.separator != "" {
      assert s[0] == next.separator[0];
    } else {
      assert s == PrintTerm(next) + rest;
      if next.plus { assert s[0] == '+'; } else { assert s[0] == next.integer[0]; }
    }
  }

  lemma Cons(pieces: seq<Piece>)
    requires pieces != []
    ensures Extend([pieces[0]], Some(pieces[1..])) == Some(pieces)
  {
    assert [pieces[0]] + pieces[1..] == pieces;
  }

  lemma ScanPieceBack(piece: Piece, rest: string)
    requires WellSpelled(piece) && Ends(piece.gap, piece.suffix, rest)
    ensures ScanPiece(PrintPiece(piece) + rest) == Some(piece)
  {
    var body := PrintTerm(piece) + rest;
    var s := PrintPiece(piece) + rest;
    assert s == piece.separator + body;
    MatchTermBack(piece, rest);
    TermHead(piece, rest);
    RunStops(piece.separator, body, IsSeparator);
    var w := |piece.separator|;
    assert s[w..] == body && s[..w] == piece.separator;
  }

  lemma TermHead(piece: Piece, rest: string)
    requires WellSpelled(piece)
    ensures PrintTerm(piece) + rest != "" && !IsSeparator((PrintTerm(piece) + rest)[0])
  {
    if !piece.plus { assert PrintTerm(piece)[0] == piece.integer[0]; }
  }

  lemma ScanOneBack(piece: Piece, rest: string)
    requires WellSpelled(piece) && Ends(piece.gap, piece.suffix, rest)
    ensures Scan(PrintPiece(piece) + rest) == Extend([piece], Scan(rest))
  {
    var s := PrintPiece(piece) + rest;
    ScanPieceBack(piece, rest);
    assert s[|PrintPiece(piece)|..] == rest;
  }

  // ---------- Arithmetic ----------

  /** The value of a digit run. */
  function DigitsValue(digits: string): nat
    requires All(digits, IsDigit)
  {
    if digits == "" then 0
    else DigitsValue(digits[..|digits| - 1]) * 10 + (digits[|digits| - 1] as int - '0' as int)
  }

  /** The widened fraction: some double between 0 and 1 that is 0 for a zero
      numerator.  Its rounding is not modelled. */
  type FractionOracle = f: (nat, nat) -> real |
    forall numerator: nat, digits: nat :: 0.0 <= f(numerator, digits) <= 1.0 && (numerator == 0 ==> f(numerator, digits) == 0.0)
    witness (numerator: nat, digits: nat) => 0.0

  /** Position of a suffix in the unit order, an omitted suffix below `B`. */
  function Rank(suffix: Option<char>): (rank: nat)
    ensures rank <= 7
  {
    match suffix
    case None => 0
    case Some(c) =>
      if c == 'B' then 1 else if c == 'K' then 2 else if c == 'M' then 3 else if c == 'G' then 4
      else if c == 'T' then 5 else if c == 'P' then 6 else 7
  }

  function Multiplier(rank: nat): (m: nat)
    requires rank <= 7
    ensures 1 <= m
  {
    if rank <= 1 then 1
    else if rank == 2 then 0x400
    else if rank == 3 then 0x10_0000
    else if rank == 4 then 0x4000_0000
    else if rank == 5 then 0x100_0000_0000
    else if rank == 6 then 0x4_0000_0000_0000
    else 0x1000_0000_0000_0000
  }

  lemma MultiplierDivides(rank: nat)
    requires rank <= 7
    ensures var m := Multiplier(rank);
      (UINT64_MODULUS / m) * m == UINT64_MODULUS && UINT64_MAX / m == UINT64_MODULUS / m - 1
  {
  }

  const UNIT_ORDER: string := "BKMGTPE"

  /** Position of a unit in the order, smallest first; an omitted unit is below all. */
  function UnitPosition(suffix: Option<char>): (k: int)
    ensures -1 <= k <= |UNIT_ORDER|
  {
    match suffix case None => -1 case Some(c) => RunLength(UNIT_ORDER, d => d != c)
  }

  function Power(base: nat, exponent: nat): nat {
    if exponent == 0 then 1 else base * Power(base, exponent - 1)
  }

  /** 1024 to the unit's position; a bare number counts bytes, like `B`. */
  function UnitBytes(suffix: Option<char>): nat {
    Power(1024, if suffix.None? then 0 else UnitPosition(suffix))
  }

  lemma PowersOf1024()
    ensures Power(1024, 0) == 1 && Power(1024, 1) == 0x400 && Power(1024, 2) == 0x10_0000 && Power(1024, 3) == 0x4000_0000
    ensures Power(1024, 4) == 0x100_0000_0000 && Power(1024, 5) == 0x4_0000_0000_0000
    ensures Power(1024, 6) == 0x1000_0000_0000_0000
  {
  }

  /** The suffixes are the letters of the order; in that order ranks grow, and
      multipliers are the powers of 1024. */
  lemma UnitsExact(a: Option<char>, b: Option<char>)
    requires (a.Some? ==> IsSuffix(a.value)) && (b.Some? ==> IsSuffix(b.value))
    ensures Multiplier(Rank(a)) == UnitBytes(a)
    ensures Rank(a) < Rank(b) <==> UnitPosition(a) < UnitPosition(b)
  {
    PowersOf1024();
    PositionExact(a);
    PositionExact(b);
    hide Power, RunLength;
  }

  lemma SuffixesAreUnits(c: char)
    ensures IsSuffix(c) <==> c in UNIT_ORDER
  {
    assert UNIT_ORDER[0] == 'B' && UNIT_ORDER[1] == 'K' && UNIT_ORDER[2] == 'M' && UNIT_ORDER[3] == 'G';
    assert UNIT_ORDER[4] == 'T' && UNIT_ORDER[5] == 'P' && UNIT_ORDER[6] == 'E';
  }

  lemma PositionExact(suffix: Option<char>)
    requires suffix.Some? ==> IsSuffix(suffix.value)
    ensures UnitPosition(suffix) == Rank(suffix) - 1
  {
    if suffix.Some? {
      var c, k := suffix.value, UnitPosition(suffix);
      SuffixesAreUnits(c);
      assert forall i | 0 <= i < k :: UNIT_ORDER[..k][i] == UNIT_ORDER[i];
      assert UNIT_ORDER[Rank(suffix) - 1] == c;
      hide RunLength;
    }
  }

  /** A term's numbers: integer part, fraction numerator, widened fraction, rank. */
  datatype Term = Term(integer: nat, numerator: nat, fraction: real, rank: nat)

  predicate ProperTerm(t: Term) {
    0.0 <= t.fraction <= 1.0 && t.rank <= 7
  }

  function TermOf(piece: Piece, oracle: FractionOracle): (t: Term)
    requires WellSpelled(piece)
    ensures ProperTerm(t)
  {
    match piece.fraction
    case None => Term(DigitsValue(piece.integer), 0, 0.0, Rank(piece.suffix))
    case Some(digits) =>
      var numerator := DigitsValue(digits);
      Term(DigitsValue(piece.integer), numerator, oracle(numerator, |digits|), Rank(piece.suffix))
  }

  /** The truncated fraction, in bytes. */
  function FractionBytes(t: Term): (bytes: nat)
    requires ProperTerm(t)
    ensures bytes <= Multiplier(t.rank)
    ensures t.fraction == 0.0 ==> bytes == 0
  {
    var m := Multiplier(t.rank) as real;
    assert 0.0 <= t.fraction * m <= m;
    (t.fraction * m).Floor
  }

  /** What the term denotes, in unbounded arithmetic. */
  function ExactBytes(t: Term): nat
    requires ProperTerm(t)
  {
    t.integer * Multiplier(t.rank) + FractionBytes(t)
  }

  function GuardOperand(t: Term): nat {
    (t.integer + (if t.fraction > 0.0 then 1 else 0)) % UINT64_MODULUS
  }

  function GuardLimit(rank: nat): nat
    requires rank <= 7
  {
    UINT64_MAX / Multiplier(rank)
  }

  /** The three checks a term passes before its bytes are added. */
  predicate TermPasses(t: Term)
    requires ProperTerm(t)
  {
    t.numerator <= UINT64_MAX && t.integer <= UINT64_MAX && GuardOperand(t) <= GuardLimit(t.rank)
  }

  function TermBytes(t: Term): nat
    requires ProperTerm(t)
  {
    (t.integer * Multiplier(t.rank) + FractionBytes(t)) % UINT64_MODULUS
  }

  /** The integer part is the uint64 maximum and a positive fraction follows. */
  predicate Corner(t: Term) {
    t.integer == UINT64_MAX && t.fraction > 0.0
  }

  /** The integer part is the largest the unit allows and a positive fraction
      follows: the guard refuses the term although its value still fits. */
  predicate Edge(t: Term)
    requires ProperTerm(t)
  {
    t.fraction > 0.0 && t.integer == UINT64_MODULUS / Multiplier(t.rank) - 1
  }

  lemma MulAtLeast(a: nat, b: nat, m: nat)
    requires a <= b
    ensures a * m <= b * m
  {
  }

  /** Outside the corner, a term that passes contributes its exact value. */
  lemma PassingTermExact(t: Term)
    requires ProperTerm(t) && TermPasses(t) && !Corner(t)
    ensures TermBytes(t) == ExactBytes(t) < UINT64_MODULUS
    ensures !Edge(t)
  {
    var m := Multiplier(t.rank);
    MultiplierDivides(t.rank);
    var g := t.integer + (if t.fraction > 0.0 then 1 else 0);
    assert GuardOperand(t) == g;
    MulAtLeast(g, UINT64_MODULUS / m - 1, m);
    assert (UINT64_MODULUS / m - 1) * m == UINT64_MODULUS - m;
    if t.fraction > 0.0 {
      assert g * m == t.integer * m + m;
    }
  }

  /** Outside the corner, a term that fails the guard is out of range or is the
      edge term of its unit. */
  lemma FailingTermTooBig(t: Term)
    requires ProperTerm(t) && !TermPasses(t) && !Corner(t) && t.numerator <= UINT64_MAX
    ensures ExactBytes(t) >= UINT64_MODULUS || Edge(t)
  {
    var m := Multiplier(t.rank);
    MultiplierDivides(t.rank);
    var limit := UINT64_MODULUS / m;
    if t.integer <= UINT64_MAX {
      var g := t.integer + (if t.fraction > 0.0 then 1 else 0);
      assert GuardOperand(t) == g;
      assert limit <= g;
    } else {
      MulAtLeast(1, m, t.integer);
      assert t.integer * 1 <= t.integer * m;
    }
    if limit <= t.integer {
      MulAtLeast(limit, t.integer, m);
    }
  }

  /** In the corner the guard wraps, so the term passes, and its bytes are its
      exact value modulo 2^64: one multiplier below 2^64, plus the fraction. */
  lemma CornerTermWraps(t: Term)
    requires ProperTerm(t) && Corner(t) && t.numerator <= UINT64_MAX
    ensures TermPasses(t)
    ensures TermBytes(t) == ExactBytes(t) % UINT64_MODULUS
    ensures TermBytes(t) == (UINT64_MODULUS - Multiplier(t.rank) + FractionBytes(t)) % UINT64_MODULUS
  {
    var m, f := Multiplier(t.rank), FractionBytes(t);
    assert ExactBytes(t) == (UINT64_MODULUS - m + f) + (m - 1) * UINT64_MODULUS;
    DropModuli(UINT64_MODULUS - m + f, m - 1);
  }

  lemma {:induction false} DropModuli(a: nat, k: nat)
    ensures (a + k * UINT64_MODULUS) % UINT64_MODULUS == a % UINT64_MODULUS
    decreases k
  {
    if 0 < k {
      DropModuli(a, k - 1);
    }
  }

  // ---------- Acceptance ----------

  predicate Descending(terms: seq<Term>) {
    forall i, j | 0 <= i < j < |terms| :: terms[j].rank < terms[i].rank
  }

  predicate Proper(terms: seq<Term>) {
    forall i | 0 <= i < |terms| :: ProperTerm(terms[i])
  }

  function TotalBytes(terms: seq<Term>): nat
    requires Proper(terms)
  {
    if terms == [] then 0 else TermBytes(terms[0]) + TotalBytes(terms[1..])
  }

  function ExactTotal(terms: seq<Term>): nat
    requires Proper(terms)
  {
    if terms == [] then 0 else ExactBytes(terms[0]) + ExactTotal(terms[1..])
  }

  predicate AllPass(terms: seq<Term>)
    requires Proper(terms)
  {
    forall i | 0 <= i < |terms| :: TermPasses(terms[i])
  }

  /** The declarative form of the check: unit order, per-term checks, range. */
  predicate TermsAccepted(terms: seq<Term>)
    requires Proper(terms)
  {
    && Descending(terms)
    && AllPass(terms)
    && 1 <= TotalBytes(terms) < UINT64_MAX
  }

  function TermsOf(pieces: seq<Piece>, oracle: FractionOracle): (terms: seq<Term>)
    requires Spelled(pieces)
    ensures |terms| == |pieces| && Proper(terms)
  {
    if pieces == [] then []
    else
      assert WellSpelled(pieces[0]);
      [TermOf(pieces[0], oracle)] + TermsOf(pieces[1..], oracle)
  }

  lemma {:induction false} TermsOfAt(pieces: seq<Piece>, oracle: FractionOracle, i: nat)
    requires Spelled(pieces) && i < |pieces|
    ensures WellSpelled(pieces[i]) && TermsOf(pieces, oracle)[i] == TermOf(pieces[i], oracle)
  {
    if 0 < i { TermsOfAt(pieces[1..], oracle, i - 1); }
  }

  /** A value the evaluator does not call invalid: every part of it is a term,
      and the terms pass. */
  predicate Accepted(value: string, oracle: FractionOracle) {
    match Scan(value)
    case None => false
    case Some(pieces) => TermsAccepted(TermsOf(pieces, oracle))
  }

  lemma {:induction false} TotalExact(terms: seq<Term>)
    requires Proper(terms)
    requires forall i | 0 <= i < |terms| :: TermPasses(terms[i]) && !Corner(terms[i])
    ensures TotalBytes(terms) == ExactTotal(terms)
  {
    if terms != [] {
      TotalExact(terms[1..]);
      PassingTermExact(terms[0]);
    }
  }

  lemma {:induction false} ExactTotalAtLeast(terms: seq<Term>, i: nat)
    requires Proper(terms) && i < |terms|
    ensures ExactBytes(terms[i]) <= ExactTotal(terms)
  {
    if 0 < i {
      ExactTotalAtLeast(terms[1..], i - 1);
    }
  }

  /** Away from the corner, a unit-ordered value is accepted exactly when its
      exact total is a finite non-zero limit and no term is an edge term. */
  lemma AcceptedIffInRange(terms: seq<Term>)
    requires Proper(terms) && Descending(terms)
    requires forall i | 0 <= i < |terms| :: !Corner(terms[i]) && terms[i].numerator <= UINT64_MAX
    ensures TermsAccepted(terms) <==>
              1 <= ExactTotal(terms) <= UINT64_MAX - 1 && forall i | 0 <= i < |terms| :: !Edge(terms[i])
  {
    if forall i | 0 <= i < |terms| :: TermPasses(terms[i]) {
      TotalExact(terms);
      forall i | 0 <= i < |terms| ensures !Edge(terms[i]) {
        PassingTermExact(terms[i]);
      }
    } else {
      var i :| 0 <= i < |terms| && !TermPasses(terms[i]);
      FailingTermTooBig(terms[i]);
      ExactTotalAtLeast(terms, i);
    }
  }

  /** What a term stands for once the corner's wrap-around is taken into account. */
  function WrappedBytes(t: Term): nat
    requires ProperTerm(t)
  {
    if Corner(t) then ExactBytes(t) % UINT64_MODULUS else ExactBytes(t)
  }

  function WrappedTotal(terms: seq<Term>): nat
    requires Proper(terms)
  {
    if terms == [] then 0 else WrappedBytes(terms[0]) + WrappedTotal(terms[1..])
  }

  lemma PassingTermWrapped(t: Term)
    requires ProperTerm(t) && TermPasses(t)
    ensures TermBytes(t) == WrappedBytes(t) && (Edge(t) ==> Corner(t))
  {
    if !Corner(t) { PassingTermExact(t); }
  }

  lemma FailingTermWrapped(t: Term)
    requires ProperTerm(t) && !TermPasses(t)
    ensures t.numerator > UINT64_MAX || (Edge(t) && !Corner(t)) || WrappedBytes(t) >= UINT64_MODULUS
  {
    if t.numerator <= UINT64_MAX {
      if Corner(t) { CornerTermWraps(t); } else { FailingTermTooBig(t); }
    }
  }

  lemma {:induction false} TotalWrapped(terms: seq<Term>)
    requires Proper(terms) && AllPass(terms)
    ensures TotalBytes(terms) == WrappedTotal(terms)
  {
    if terms != [] {
      TotalWrapped(terms[1..]);
      PassingTermWrapped(terms[0]);
    }
  }

  lemma {:induction false} WrappedTotalAtLeast(terms: seq<Term>, i: nat)
    requires Proper(terms) && i < |terms|
    ensures WrappedBytes(terms[i]) <= WrappedTotal(terms)
  {
    if 0 < i { WrappedTotalAtLeast(terms[1..], i - 1); }
  }

  /** The exact condition for all terms: units in order, numerators in uint64, no
      edge term but the corner, and the total, with corner terms taken modulo 2^64,
      a finite non-zero limit. */
  lemma AcceptedExactly(terms: seq<Term>)
    requires Proper(terms)
    ensures TermsAccepted(terms) <==>
              (&& Descending(terms)
               && (forall i | 0 <= i < |terms| :: terms[i].numerator <= UINT64_MAX && (Edge(terms[i]) ==> Corner(terms[i])))
               && 1 <= WrappedTotal(terms) <= UINT64_MAX - 1)
  {
    hide TermPasses, WrappedBytes, TermBytes, Edge, Corner, ProperTerm;
    if AllPass(terms) {
      TotalWrapped(terms);
      forall i | 0 <= i < |terms| ensures terms[i].numerator <= UINT64_MAX && (Edge(terms[i]) ==> Corner(terms[i])) {
        PassingTermWrapped(terms[i]);
        PassingNumerator(terms[i]);
      }
    } else {
      var i :| 0 <= i < |terms| && !TermPasses(terms[i]);
      FailingTermWrapped(terms[i]);
      WrappedTotalAtLeast(terms, i);
    }
  }

  lemma PassingNumerator(t: Term)
    requires ProperTerm(t) && TermPasses(t)
    ensures t.numerator <= UINT64_MAX
  {
  }

  lemma ScannedTermsDecide(value: string, oracle: FractionOracle)
    ensures Accepted(value, oracle) <==>
              (Scan(value).Some? &&
               var terms := TermsOf(Scan(value).value, oracle);
               && Descending(terms)
               && (forall i | 0 <= i < |terms| :: terms[i].numerator <= UINT64_MAX && (Edge(terms[i]) ==> Corner(terms[i])))
               && 1 <= WrappedTotal(terms) <= UINT64_MAX - 1)
  {
    hide Edge, Corner, WrappedTotal, Descending, TermsAccepted, Scan;
    if Scan(value).Some? { AcceptedExactly(TermsOf(Scan(value).value, oracle)); }
  }

  /** A value with an integer part or a fraction's digits beyond uint64 is refused,
      however small what they stand for is. */
  lemma LongDigitsRefused(value: string, oracle: FractionOracle, i: nat)
    requires Scan(value).Some? && i < |Scan(value).value|
    requires var piece := Scan(value).value[i];
      WellSpelled(piece) &&
      (DigitsValue(piece.integer) > UINT64_MAX || (piece.fraction.Some? && DigitsValue(piece.fraction.value) > UINT64_MAX))
    ensures !Accepted(value, oracle)
  {
    var pieces := Scan(value).value;
    TermsOfAt(pieces, oracle, i);
    assert !TermPasses(TermsOf(pieces, oracle)[i]);
  }

  // ---------- Values that break the range ----------

  lemma NextDigit(digits: string, c: char, value: nat)
    requires All(digits, IsDigit) && DigitsValue(digits) == value && IsDigit(c)
    ensures All(digits + [c], IsDigit) && DigitsValue(digits + [c]) == value * 10 + (c as int - '0' as int)
  {
    assert (digits + [c])[..|digits|] == digits;
  }

  const EDGE_DIGITS: string := "18014398509481983"
  const CORNER_DIGITS: string := "18446744073709551615"

  lemma EdgeDigits()
    ensures All(EDGE_DIGITS, IsDigit) && DigitsValue(EDGE_DIGITS) == 0x3F_FFFF_FFFF_FFFF
  {
    hide DigitsValue;
    NoDigits();
    NextDigit("", '1', 0);
    assert "" + ['1'] == "1";
    NextDigit("1", '8', 1);
    assert "1" + ['8'] == "18";
    NextDigit("18", '0', 18);
    assert "18" + ['0'] == "180";
    NextDigit("180", '1', 180);
    assert "180" + ['1'] == "1801";
    NextDigit("1801", '4', 1801);
    assert "1801" + ['4'] == "18014";
    NextDigit("18014", '3', 18014);
    assert "18014" + ['3'] == "180143";
    NextDigit("180143", '9', 180143);
    assert "180143" + ['9'] == "1801439";
    NextDigit("1801439", '8', 1801439);
    assert "1801439" + ['8'] == "18014398";
    NextDigit("18014398", '5', 18014398);
    assert "18014398" + ['5'] == "180143985";
    NextDigit("180143985", '0', 180143985);
    assert "180143985" + ['0'] == "1801439850";
    NextDigit("1801439850", '9', 1801439850);
    assert "1801439850" + ['9'] == "18014398509";
    NextDigit("18014398509", '4', 18014398509);
    assert "18014398509" + ['4'] == "180143985094";
    NextDigit("180143985094", '8', 180143985094);
    assert "180143985094" + ['8'] == "1801439850948";
    NextDigit("1801439850948", '1', 1801439850948);
    assert "1801439850948" + ['1'] == "18014398509481";
    NextDigit("18014398509481", '9', 18014398509481);
    assert "18014398509481" + ['9'] == "180143985094819";
    NextDigit("180143985094819", '8', 180143985094819);
    assert "180143985094819" + ['8'] == "1801439850948198";
    NextDigit("1801439850948198", '3', 1801439850948198);
    assert "1801439850948198" + ['3'] == "18014398509481983";
  }

  lemma CornerDigits()
    ensures All(CORNER_DIGITS, IsDigit) && DigitsValue(CORNER_DIGITS) == UINT64_MAX
  {
    hide DigitsValue;
    NoDigits();
    NextDigit("", '1', 0);
    assert "" + ['1'] == "1";
    NextDigit("1", '8', 1);
    assert "1" + ['8'] == "18";
    NextDigit("18", '4', 18);
    assert "18" + ['4'] == "184";
    NextDigit("184", '4', 184);
    assert "184" + ['4'] == "1844";
    NextDigit("1844", '6', 1844);
    assert "1844" + ['6'] == "18446";
    NextDigit("18446", '7', 18446);
    assert "18446" + ['7'] == "184467";
    NextDigit("184467", '4', 184467);
    assert "184467" + ['4'] == "1844674";
    NextDigit("1844674", '4', 1844674);
    assert "1844674" + ['4'] == "18446744";
    NextDigit("18446744", '0', 18446744);
    assert "18446744" + ['0'] == "184467440";
    NextDigit("184467440", '7', 184467440);
    assert "184467440" + ['7'] == "1844674407";
    NextDigit("1844674407", '3', 1844674407);
    assert "1844674407" + ['3'] == "18446744073";
    NextDigit("18446744073", '7', 18446744073);
    assert "18446744073" + ['7'] == "184467440737";
    NextDigit("184467440737", '0', 184467440737);
    assert "184467440737" + ['0'] == "1844674407370";
    NextDigit("1844674407370", '9', 1844674407370);
    assert "1844674407370" + ['9'] == "18446744073709";
    NextDigit("18446744073709", '5', 18446744073709);
    assert "18446744073709" + ['5'] == "184467440737095";
    NextDigit("184467440737095", '5', 184467440737095);
    assert "184467440737095" + ['5'] == "1844674407370955";
    NextDigit("1844674407370955", '1', 1844674407370955);
    assert "1844674407370955" + ['1'] == "18446744073709551";
    NextDigit("18446744073709551", '6', 18446744073709551);
    assert "18446744073709551" + ['6'] == "184467440737095516";
    NextDigit("184467440737095516", '1', 184467440737095516);
    assert "184467440737095516" + ['1'] == "1844674407370955161";
    NextDigit("1844674407370955161", '5', 1844674407370955161);
    assert "1844674407370955161" + ['5'] == "18446744073709551615";
  }

  lemma NoDigits()
    ensures All("", IsDigit) && DigitsValue("") == 0
  {
  }

  /** A term of these digits and `.1K`, as it is printed. */
  function TenthOfK(digits: string): Piece { Piece("", false, digits, Some("1"), "", Some('K')) }

  lemma TenthPrints(digits: string)
    ensures PrintPieces([TenthOfK(digits)]) == digits + ".1K"
  {
    var piece := TenthOfK(digits);
    assert PrintUnsigned(piece) == digits + (("." + "1") + ("" + "K"));
    assert ("." + "1") + ("" + "K") == ".1K";
    assert PrintPiece(piece) == "" + ("" + (digits + ".1K"));
    assert [piece][1..] == [];
    assert PrintPieces([piece]) == PrintPiece(piece) + "";
  }

  lemma OneTenth()
    ensures All("1", IsDigit) && DigitsValue("1") == 1
  {
    NoDigits();
    NextDigit("", '1', 0);
    assert "" + ['1'] == "1";
  }

  lemma TenthTerm(digits: string, oracle: FractionOracle)
    requires digits != "" && All(digits, IsDigit)
    ensures WellSpelled(TenthOfK(digits)) && Spelled([TenthOfK(digits)])
    ensures TermsOf([TenthOfK(digits)], oracle) == [Term(DigitsValue(digits), 1, oracle(1, 1), 2)]
  {
    OneTenth();
    hide DigitsValue;
    assert [TenthOfK(digits)][1..] == [];
  }

  lemma ScansToTenth(digits: string, oracle: FractionOracle)
    requires digits != "" && All(digits, IsDigit)
    ensures Scan(digits + ".1K") == Some([TenthOfK(digits)])
    ensures WellSpelled(TenthOfK(digits)) && Spelled([TenthOfK(digits)])
    ensures TermsOf([TenthOfK(digits)], oracle) == [Term(DigitsValue(digits), 1, oracle(1, 1), 2)]
  {
    assert AllApart([TenthOfK(digits)]);
    hide *;
    TenthTerm(digits, oracle);
    TenthPrints(digits);
    ScanComplete([TenthOfK(digits)]);
  }

  /** The exact total alone does not decide, whatever double the tenth widens to,
      short of nearly one: of the two values, the first is in range and refused,
      the second is out of range and accepted. */
  lemma FractionsBreakTheRange(oracle: FractionOracle)
    requires 0.0 < oracle(1, 1) < 0.99
    ensures var value := EDGE_DIGITS + ".1K";
      && Scan(value).Some? && 1 <= ExactTotal(TermsOf(Scan(value).value, oracle)) <= UINT64_MAX - 1
      && !Accepted(value, oracle)
    ensures var value := CORNER_DIGITS + ".1K";
      && Scan(value).Some? && ExactTotal(TermsOf(Scan(value).value, oracle)) > UINT64_MAX
      && Accepted(value, oracle)
      && TotalBytes(TermsOf(Scan(value).value, oracle)) == UINT64_MODULUS - 1024 + (oracle(1, 1) * 1024.0).Floor
  {
    assert EDGE_DIGITS != "" && CORNER_DIGITS != "";
    hide *;
    EdgeDigits();
    CornerDigits();
    TenthOnValues(EDGE_DIGITS, oracle);
    TenthOnValues(CORNER_DIGITS, oracle);
    EdgeRefused(oracle(1, 1));
    CornerAccepted(oracle(1, 1));
  }

  lemma TenthOnValues(digits: string, oracle: FractionOracle)
    requires digits != "" && All(digits, IsDigit)
    ensures var value, terms := digits + ".1K", [Term(DigitsValue(digits), 1, oracle(1, 1), 2)];
      && Scan(value).Some? && Proper(terms) && TermsOf(Scan(value).value, oracle) == terms
      && (Accepted(value, oracle) <==> TermsAccepted(terms))
  {
    ScansToTenth(digits, oracle);
    hide Scan, TermsAccepted, DigitsValue, TermsOf;
  }

  lemma EdgeRefused(tenth: real)
    requires 0.0 < tenth < 0.99
    ensures var t := Term(0x3F_FFFF_FFFF_FFFF, 1, tenth, 2);
      ProperTerm(t) && 1 <= ExactTotal([t]) <= UINT64_MAX - 1 && !TermsAccepted([t])
  {
    var t := Term(0x3F_FFFF_FFFF_FFFF, 1, tenth, 2);
    OneTerm(t);
    assert FractionBytes(t) <= 1013;
    assert !TermPasses([t][0]);
  }

  lemma CornerAccepted(tenth: real)
    requires 0.0 < tenth < 0.99
    ensures var t := Term(UINT64_MAX, 1, tenth, 2);
      && ProperTerm(t) && ExactTotal([t]) > UINT64_MAX && TermsAccepted([t])
      && TotalBytes([t]) == UINT64_MODULUS - 1024 + (tenth * 1024.0).Floor
  {
    var t := Term(UINT64_MAX, 1, tenth, 2);
    OneTerm(t);
    assert FractionBytes(t) <= 1013;
    CornerTermWraps(t);
  }

  lemma OneTerm(t: Term)
    requires ProperTerm(t)
    ensures ExactTotal([t]) == ExactBytes(t) && TotalBytes([t]) == TermBytes(t)
  {
    assert [t][1..] == [];
  }

  // ---------- Printed integer values ----------

  function Product(a: nat, b: nat): nat { a * b }

  /** The sum of magnitude times 1024 to the unit's power. */
  function IntegerTotal(pieces: seq<Piece>): nat
    requires Spelled(pieces)
  {
    if pieces == [] then 0
    else
      assert WellSpelled(pieces[0]);
      Product(DigitsValue(pieces[0].integer), UnitBytes(pieces[0].suffix)) + IntegerTotal(pieces[1..])
  }

  predicate UnitsDescend(pieces: seq<Piece>) {
    forall i, j | 0 <= i < j < |pieces| :: UnitPosition(pieces[j].suffix) < UnitPosition(pieces[i].suffix)
  }

  predicate NoFractions(pieces: seq<Piece>) {
    forall i | 0 <= i < |pieces| :: pieces[i].fraction.None?
  }

  lemma {:induction false} IntegerTotalExact(pieces: seq<Piece>, oracle: FractionOracle)
    requires Spelled(pieces) && NoFractions(pieces)
    ensures ExactTotal(TermsOf(pieces, oracle)) == IntegerTotal(pieces)
    decreases |pieces|
  {
    if pieces != [] {
      IntegerTotalExact(pieces[1..], oracle);
      var terms := TermsOf(pieces, oracle);
      assert terms[1..] == TermsOf(pieces[1..], oracle);
      assert pieces[0].fraction.None?;
      UnitsExact(pieces[0].suffix, None);
      assert ExactBytes(terms[0]) == DigitsValue(pieces[0].integer) * UnitBytes(pieces[0].suffix);
    }
  }

  /** Integer terms, with any legal spelling of separators, signs and gaps, are
      accepted exactly when the units strictly descend and the exact sum is at
      least one byte and at most 2^64-2. */
  lemma IntegerValueAccepted(pieces: seq<Piece>, oracle: FractionOracle)
    requires Spelled(pieces) && NoFractions(pieces)
    requires AllApart(pieces)
    ensures Accepted(PrintPieces(pieces), oracle) <==>
              UnitsDescend(pieces) && 1 <= IntegerTotal(pieces) <= UINT64_MAX - 1
  {
    ScanComplete(pieces);
    IntegersAccepted(PrintPieces(pieces), oracle);
  }

  /** The same of any text at all that scans to integer terms. */
  lemma IntegersAccepted(value: string, oracle: FractionOracle)
    requires Scan(value).Some? && NoFractions(Scan(value).value)
    ensures Accepted(value, oracle) <==>
              UnitsDescend(Scan(value).value) && 1 <= IntegerTotal(Scan(value).value) <= UINT64_MAX - 1
  {
    var pieces := Scan(value).value;
    IntegerTotalExact(pieces, oracle);
    IntegerTermsShape(pieces, oracle);
    if Descending(TermsOf(pieces, oracle)) {
      AcceptedIffInRange(TermsOf(pieces, oracle));
    }
  }

  lemma DescendingUnits(pieces: seq<Piece>, oracle: FractionOracle)
    requires Spelled(pieces)
    ensures Descending(TermsOf(pieces, oracle)) <==> UnitsDescend(pieces)
  {
    var terms := TermsOf(pieces, oracle);
    forall i, j | 0 <= i < j < |terms|
      ensures terms[j].rank < terms[i].rank <==> UnitPosition(pieces[j].suffix) < UnitPosition(pieces[i].suffix)
    {
      TermsOfAt(pieces, oracle, i);
      TermsOfAt(pieces, oracle, j);
      UnitsExact(pieces[j].suffix, pieces[i].suffix);
      hide Rank, UnitPosition;
    }
  }

  /** The double its decimals widen to. */
  function FractionOf(piece: Piece, oracle: FractionOracle): (f: real)
    requires WellSpelled(piece)
    ensures 0.0 <= f
  {
    match piece.fraction case None => 0.0 case Some(digits) => oracle(DigitsValue(digits), |digits|)
  }

  /** Magnitude times unit plus the truncated fraction of the unit; modulo 2^64 when
      a fraction follows the uint64 maximum. */
  function SpelledBytes(piece: Piece, oracle: FractionOracle): nat
    requires WellSpelled(piece)
  {
    var integer, f, unit := DigitsValue(piece.integer), FractionOf(piece, oracle), UnitBytes(piece.suffix);
    var bytes := Product(integer, unit) + Truncated(f, unit);
    if f > 0.0 && integer == UINT64_MAX then bytes % UINT64_MODULUS else bytes
  }

  function Truncated(f: real, unit: nat): nat
    requires 0.0 <= f
  {
    assert 0.0 <= f * (unit as real);
    (f * (unit as real)).Floor
  }

  function SpelledTotal(pieces: seq<Piece>, oracle: FractionOracle): nat
    requires Spelled(pieces)
  {
    if pieces == [] then 0
    else
      assert WellSpelled(pieces[0]);
      SpelledBytes(pieces[0], oracle) + SpelledTotal(pieces[1..], oracle)
  }

  /** A numerator in uint64, and no fraction after the largest integer of a unit
      above bytes. */
  predicate Computable(piece: Piece, oracle: FractionOracle)
    requires WellSpelled(piece)
  {
    && (piece.fraction.Some? ==> DigitsValue(piece.fraction.value) <= UINT64_MAX)
    && (FractionOf(piece, oracle) > 0.0 ==>
          var integer := DigitsValue(piece.integer);
          (integer + 1) * UnitBytes(piece.suffix) != UINT64_MODULUS || integer == UINT64_MAX)
  }

  lemma SpelledTerm(piece: Piece, oracle: FractionOracle)
    requires WellSpelled(piece)
    ensures var t := TermOf(piece, oracle);
      && WrappedBytes(t) == SpelledBytes(piece, oracle)
      && (Computable(piece, oracle) <==> t.numerator <= UINT64_MAX && (Edge(t) ==> Corner(t)))
  {
    var t := TermOf(piece, oracle);
    TermParts(piece, oracle);
    hide *;
    EdgeByUnit(t.integer, t.rank);
    WrappedParts(t);
    SpelledParts(piece, oracle);
  }

  lemma TermParts(piece: Piece, oracle: FractionOracle)
    requires WellSpelled(piece)
    ensures var t := TermOf(piece, oracle);
      && t.integer == DigitsValue(piece.integer) && t.fraction == FractionOf(piece, oracle)
      && t.numerator == (if piece.fraction.Some? then DigitsValue(piece.fraction.value) else 0)
      && t.rank <= 7 && Multiplier(t.rank) == UnitBytes(piece.suffix)
  {
    UnitsExact(piece.suffix, None);
    hide Multiplier, UnitBytes, DigitsValue;
  }

  lemma WrappedParts(t: Term)
    requires ProperTerm(t)
    ensures var bytes := t.integer * Multiplier(t.rank) + Truncated(t.fraction, Multiplier(t.rank));
      WrappedBytes(t) == if t.fraction > 0.0 && t.integer == UINT64_MAX then bytes % UINT64_MODULUS else bytes
    ensures Edge(t) <==> t.fraction > 0.0 && t.integer == UINT64_MODULUS / Multiplier(t.rank) - 1
    ensures Corner(t) <==> t.fraction > 0.0 && t.integer == UINT64_MAX
  {
    FractionParts(t);
    hide Multiplier, FractionBytes, Truncated, UINT64_MODULUS, UINT64_MAX;
  }

  lemma FractionParts(t: Term)
    requires ProperTerm(t)
    ensures FractionBytes(t) == Truncated(t.fraction, Multiplier(t.rank))
  {
    hide Multiplier;
  }

  lemma SpelledParts(piece: Piece, oracle: FractionOracle)
    requires WellSpelled(piece)
    ensures var integer, f, unit := DigitsValue(piece.integer), FractionOf(piece, oracle), UnitBytes(piece.suffix);
      && SpelledBytes(piece, oracle) ==
         (var bytes := integer * unit + Truncated(f, unit); if f > 0.0 && integer == UINT64_MAX then bytes % UINT64_MODULUS else bytes)
      && (Computable(piece, oracle) <==>
            && (piece.fraction.Some? ==> DigitsValue(piece.fraction.value) <= UINT64_MAX)
            && (f > 0.0 ==> (integer + 1) * unit != UINT64_MODULUS || integer == UINT64_MAX))
  {
    hide UnitBytes, FractionOf, DigitsValue;
  }

  lemma EdgeByUnit(integer: nat, rank: nat)
    requires rank <= 7
    ensures integer == UINT64_MODULUS / Multiplier(rank) - 1 <==> (integer + 1) * Multiplier(rank) == UINT64_MODULUS
  {
    MultiplierDivides(rank);
    var m, limit := Multiplier(rank), UINT64_MODULUS / Multiplier(rank);
    hide Multiplier;
    if integer + 1 < limit {
      MulAtLeast(integer + 2, limit, m);
      assert (integer + 2) * m == (integer + 1) * m + m;
    } else if limit < integer + 1 {
      MulAtLeast(limit + 1, integer + 1, m);
      assert (limit + 1) * m == limit * m + m;
    }
  }

  lemma {:induction false} SpelledTotalExact(pieces: seq<Piece>, oracle: FractionOracle)
    requires Spelled(pieces)
    ensures WrappedTotal(TermsOf(pieces, oracle)) == SpelledTotal(pieces, oracle)
  {
    if pieces != [] {
      hide WrappedBytes, SpelledBytes, TermOf;
      assert WellSpelled(pieces[0]);
      SpelledTerm(pieces[0], oracle);
      SpelledTotalExact(pieces[1..], oracle);
      assert TermsOf(pieces, oracle)[1..] == TermsOf(pieces[1..], oracle);
    }
  }

  /** The exact condition on values, whatever they are: the value is a sequence of
      terms, their units descend, each term is computable, and the total is a finite
      non-zero limit. */
  lemma ValueAcceptedExactly(value: string, oracle: FractionOracle)
    ensures Accepted(value, oracle) <==>
              (Scan(value).Some? &&
               var pieces := Scan(value).value;
               && UnitsDescend(pieces)
               && (forall i | 0 <= i < |pieces| :: WellSpelled(pieces[i]) && Computable(pieces[i], oracle))
               && 1 <= SpelledTotal(pieces, oracle) <= UINT64_MAX - 1)
  {
    ScannedTermsDecide(value, oracle);
    if Scan(value).Some? {
      var pieces := Scan(value).value;
      hide *;
      SpelledTotalExact(pieces, oracle);
      DescendingUnits(pieces, oracle);
      ComputableTerms(pieces, oracle);
    }
  }

  lemma ComputableTerms(pieces: seq<Piece>, oracle: FractionOracle)
    requires Spelled(pieces)
    ensures var terms := TermsOf(pieces, oracle);
      (forall i | 0 <= i < |terms| :: terms[i].numerator <= UINT64_MAX && (Edge(terms[i]) ==> Corner(terms[i]))) <==>
      (forall i | 0 <= i < |pieces| :: WellSpelled(pieces[i]) && Computable(pieces[i], oracle))
  {
    var terms := TermsOf(pieces, oracle);
    hide TermsOf, TermOf, Edge, Corner, Computable, WellSpelled, ProperTerm;
    forall i | 0 <= i < |pieces|
      ensures WellSpelled(pieces[i])
      ensures Computable(pieces[i], oracle) <==> terms[i].numerator <= UINT64_MAX && (Edge(terms[i]) ==> Corner(terms[i]))
    {
      TermsOfAt(pieces, oracle, i);
      SpelledTerm(pieces[i], oracle);
    }
  }

  lemma IntegerTermsShape(pieces: seq<Piece>, oracle: FractionOracle)
    requires Spelled(pieces) && NoFractions(pieces)
    ensures var terms := TermsOf(pieces, oracle);
      && (Descending(terms) <==> UnitsDescend(pieces))
      && (forall i | 0 <= i < |terms| :: !Corner(terms[i]) && terms[i].numerator <= UINT64_MAX && !Edge(terms[i]))
  {
    var terms := TermsOf(pieces, oracle);
    DescendingUnits(pieces, oracle);
    forall i | 0 <= i < |terms| ensures terms[i].fraction == 0.0 && terms[i].numerator == 0 {
      TermsOfAt(pieces, oracle, i);
      assert pieces[i].fraction.None?;
    }
  }

  // ---------- Relative values ----------

  /** A percentage, permille or permyriad: its scale is the whole, `integer` its
      whole number as spelled, `fraction` its decimals, if any. */
  datatype Relative = Relative(scale: nat, sign: Option<char>, integer: string, fraction: Option<string>)

  /** The scale a last character stands for, with the decimals it may have. */
  function ScaleOf(c: char): Option<(nat, nat)> {
    if c == '%' then Some((100, 2))
    else if c == '\U{2030}' then Some((1000, 1))
    else if c == '\U{2031}' then Some((10000, 0))
    else None
  }

  predicate IsHexDigit(c: char) { IsDigit(c) || 'a' <= c <= 'f' || 'A' <= c <= 'F' }
  predicate IsOctalDigit(c: char) { '0' <= c <= '7' }
  predicate IsBinaryDigit(c: char) { c == '0' || c == '1' }

  /** A leading `0` and a base letter with digits of that base after it. */
  predicate Prefixed(s: string, lower: char, upper: char, digit: char -> bool) {
    |s| > 2 && s[0] == '0' && (s[1] == lower || s[1] == upper) && All(s[2..], digit)
  }

  /** Hexadecimal, binary, octal with or without its letter, or decimal. */
  predicate WholeNumber(s: string) {
    || Prefixed(s, 'x', 'X', IsHexDigit) || Prefixed(s, 'b', 'B', IsBinaryDigit) || Prefixed(s, 'o', 'O', IsOctalDigit)
    || (s != "" && s[0] == '0' && All(s[1..], IsOctalDigit))
    || (s != "" && s[0] != '0' && All(s, IsDigit))
  }

  function DigitIn(c: char): nat {
    if IsDigit(c) then c as int - '0' as int
    else if 'a' <= c <= 'f' then c as int - 'a' as int + 10
    else if 'A' <= c <= 'F' then c as int - 'A' as int + 10
    else 0
  }

  function ValueIn(base: nat, digits: string): nat {
    if digits == "" then 0 else ValueIn(base, digits[..|digits| - 1]) * base + DigitIn(digits[|digits| - 1])
  }

  function WholeValue(s: string): nat {
    if Prefixed(s, 'x', 'X', IsHexDigit) then ValueIn(16, s[2..])
    else if Prefixed(s, 'b', 'B', IsBinaryDigit) then ValueIn(2, s[2..])
    else if Prefixed(s, 'o', 'O', IsOctalDigit) then ValueIn(8, s[2..])
    else if s != "" && s[0] == '0' then ValueIn(8, s)
    else ValueIn(10, s)
  }

  /** The text before the first point, and the text after it. */
  function SplitPoint(s: string): (string, Option<string>) {
    if s == "" then ("", None)
    else if s[0] == '.' then ("", Some(s[1..]))
    else
      var (head, tail) := SplitPoint(s[1..]);
      ([s[0]] + head, tail)
  }

  predicate IsSign(c: char) { c == '+' || c == '-' }

  /** The three relative patterns, which differ in their last character. */
  function ReadRelative(value: string): Option<Relative> {
    if value == "" || ScaleOf(value[|value| - 1]).None? then None
    else
      var (scale, decimals) := ScaleOf(value[|value| - 1]).value;
      var body := value[..|value| - 1];
      var signed := body[RunLength(body, IsSeparator)..];
      var hasSign := signed != "" && IsSign(signed[0]);
      var (integer, fraction) := SplitPoint(if hasSign then signed[1..] else signed);
      if WholeNumber(integer) && (fraction.Some? ==> 1 <= |fraction.value| <= decimals && All(fraction.value, IsDigit)) then
        Some(Relative(scale, if hasSign then Some(signed[0]) else None, integer, fraction))
      else None
  }

  function TenTo(n: nat): nat { if n == 0 then 1 else 10 * TenTo(n - 1) }

  /** The amount in the last decimal's units, and the whole in the same units. */
  function Amount(r: Relative): nat {
    match r.fraction
    case None => WholeValue(r.integer)
    case Some(digits) => WholeValue(r.integer) * TenTo(|digits|) + ValueIn(10, digits)
  }

  function Whole(r: Relative): nat { r.scale * TenTo(if r.fraction.Some? then |r.fraction.value| else 0) }

  /** A sign hides binary and octal letters; a minus needs a zero whole number. */
  predicate SignFits(r: Relative) {
    r.sign.Some? ==>
      && !(|r.integer| > 1 && r.integer[0] == '0' && r.integer[1] in {'b', 'B', 'o', 'O'})
      && (r.sign.value == '-' ==> WholeValue(r.integer) == 0)
  }

  predicate RelativeAccepted(r: Relative) { SignFits(r) && 0 < Amount(r) <= Whole(r) }

  /** Every value the evaluator does not call invalid. */
  predicate Acceptable(value: string, oracle: FractionOracle) {
    match ReadRelative(value)
    case Some(r) => RelativeAccepted(r)
    case None => Accepted(value, oracle)
  }

  lemma {:induction false} SplitPointBack(integer: string, fraction: Option<string>)
    requires '.' !in integer
    ensures SplitPoint(integer + FractionText(fraction)) == (integer, fraction)
  {
    var s := integer + FractionText(fraction);
    if integer == "" {
      assert fraction.Some? ==> s[1..] == fraction.value;
    } else {
      assert s[1..] == integer[1..] + FractionText(fraction);
      SplitPointBack(integer[1..], fraction);
      assert [integer[0]] + integer[1..] == integer;
    }
  }

  lemma {:induction false} DecimalValue(digits: string)
    requires All(digits, IsDigit)
    ensures ValueIn(10, digits) == DigitsValue(digits)
  {
    if digits != "" { DecimalValue(digits[..|digits| - 1]); }
  }

  lemma WholeNumberPlain(s: string)
    requires WholeNumber(s)
    ensures s != "" && IsDigit(s[0]) && '.' !in s
  {
  }

  /** Printed with separators and an optional sign, every legal relative spelling
      is read back; it is accepted exactly when its sign fits and its exact amount
      is above zero and at most the whole. */
  lemma RelativeExact(separator: string, r: Relative, last: char, oracle: FractionOracle)
    requires All(separator, IsSeparator) && WholeNumber(r.integer) && (r.sign.Some? ==> IsSign(r.sign.value))
    requires ScaleOf(last).Some? && r.scale == ScaleOf(last).value.0
    requires r.fraction.Some? ==> 1 <= |r.fraction.value| <= ScaleOf(last).value.1 && All(r.fraction.value, IsDigit)
    ensures var value := separator + SuffixText(r.sign) + (r.integer + FractionText(r.fraction)) + [last];
      && ReadRelative(value) == Some(r)
      && (Acceptable(value, oracle) <==> SignFits(r) && 0 < Amount(r) <= Whole(r))
  {
    var number := r.integer + FractionText(r.fraction);
    var body := separator + SuffixText(r.sign) + number;
    var value := body + [last];
    assert value[..|value| - 1] == body && value[|value| - 1] == last;
    hide *;
    SignedPart(separator, r, number);
    SplitPointBack(r.integer, r.fraction);
    ReadsParts(value, body, r);
    AcceptsRelative(value, r, oracle);
  }

  lemma SignedPart(separator: string, r: Relative, number: string)
    requires All(separator, IsSeparator) && WholeNumber(r.integer) && (r.sign.Some? ==> IsSign(r.sign.value))
    requires number == r.integer + FractionText(r.fraction)
    ensures '.' !in r.integer
    ensures var body := separator + SuffixText(r.sign) + number;
      && RunLength(body, IsSeparator) == |separator|
      && var signed := body[|separator|..];
      && signed != "" && (IsSign(signed[0]) <==> r.sign.Some?)
      && (r.sign.Some? ==> signed[0] == r.sign.value && signed[1..] == number)
      && (r.sign.None? ==> signed == number)
  {
    var body := separator + SuffixText(r.sign) + number;
    var signed := SuffixText(r.sign) + number;
    WholeNumberPlain(r.integer);
    assert number[0] == r.integer[0];
    assert body == separator + signed;
    hide WholeNumber, RunLength;
    RunStops(separator, signed, IsSeparator);
    assert body[|separator|..] == signed;
    if r.sign.Some? { assert signed[1..] == number; } else { assert signed == number; }
  }

  lemma ReadsParts(value: string, body: string, r: Relative)
    requires value != "" && body == value[..|value| - 1]
    requires ScaleOf(value[|value| - 1]).Some? && r.scale == ScaleOf(value[|value| - 1]).value.0
    requires var signed := body[RunLength(body, IsSeparator)..];
      && signed != "" && (IsSign(signed[0]) <==> r.sign.Some?) && (r.sign.Some? ==> signed[0] == r.sign.value)
      && SplitPoint(if r.sign.Some? then signed[1..] else signed) == (r.integer, r.fraction)
    requires WholeNumber(r.integer)
    requires r.fraction.Some? ==> 1 <= |r.fraction.value| <= ScaleOf(value[|value| - 1]).value.1 && All(r.fraction.value, IsDigit)
    ensures ReadRelative(value) == Some(r)
  {
    hide RunLength, SplitPoint, WholeNumber, ScaleOf, IsSign, All;
  }

  lemma AcceptsRelative(value: string, r: Relative, oracle: FractionOracle)
    requires ReadRelative(value) == Some(r)
    ensures Acceptable(value, oracle) <==> SignFits(r) && 0 < Amount(r) <= Whole(r)
  {
    hide ReadRelative, SignFits, Amount, Whole, Accepted;
  }

  /** In particular a plain percentage is accepted exactly from 1% to 100%. */
  lemma PercentAccepted(digits: string, oracle: FractionOracle)
    requires digits != "" && digits[0] != '0' && All(digits, IsDigit)
    ensures Acceptable(digits + "%", oracle) <==> 1 <= DigitsValue(digits) <= 100
  {
    var r := Relative(100, None, digits, None);
    RelativeExact("", r, '%', oracle);
    assert "" + "" + (digits + "") + ['%'] == digits + "%";
    DecimalValue(digits);
    hide DigitsValue;
  }

  // ---------- The evaluator ----------

  /** What the scanning loop decides from here on: `total` bytes so far, the
      last rank `previous`. */
  predicate Verdict(s: string, total: nat, previous: nat, oracle: FractionOracle)
    decreases |s|
  {
    if s == "" then 1 <= total
    else
      match ScanPiece(s)
      case None => false
      case Some(piece) =>
        var term := TermOf(piece, oracle);
        && term.rank < previous
        && TermPasses(term)
        && total + TermBytes(term) < UINT64_MAX
        && Verdict(s[|PrintPiece(piece)|..], total + TermBytes(term), term.rank, oracle)
  }

  predicate RanksBelow(terms: seq<Term>, previous: nat) {
    forall i | 0 <= i < |terms| :: terms[i].rank < previous
  }

  /** The early exits change nothing: the verdict is the declarative check. */
  lemma {:induction false} VerdictMeaning(s: string, total: nat, previous: nat, oracle: FractionOracle)
    requires total < UINT64_MAX
    ensures Verdict(s, total, previous, oracle) <==>
              match Scan(s)
              case None => false
              case Some(pieces) =>
                var terms := TermsOf(pieces, oracle);
                && Descending(terms) && RanksBelow(terms, previous)
                && AllPass(terms)
                && 1 <= total + TotalBytes(terms) < UINT64_MAX
    decreases |s|
  {
    hide TermPasses, TermBytes, TermOf, ScanPiece, PrintPiece, TotalBytes, TermsOf, AllPass, Descending, RanksBelow;
    NoTerms(previous, oracle);
    if s != "" && ScanPiece(s).Some? {
      var piece := ScanPiece(s).value;
      var term := TermOf(piece, oracle);
      var after := s[|PrintPiece(piece)|..];
      if total + TermBytes(term) < UINT64_MAX {
        VerdictMeaning(after, total + TermBytes(term), term.rank, oracle);
      }
      if Scan(after).Some? {
        ConsTerms(piece, Scan(after).value, previous, oracle);
      }
    }
  }

  lemma NoTerms(previous: nat, oracle: FractionOracle)
    ensures var terms := TermsOf([], oracle);
      Descending(terms) && RanksBelow(terms, previous) && AllPass(terms) && TotalBytes(terms) == 0
  {
  }

  lemma ConsTerms(piece: Piece, rest: seq<Piece>, previous: nat, oracle: FractionOracle)
    requires WellSpelled(piece) && Spelled(rest)
    ensures Spelled([piece] + rest)
    ensures var terms, after := TermsOf([piece] + rest, oracle), TermsOf(rest, oracle);
      var term := TermOf(piece, oracle);
      && TotalBytes(terms) == TermBytes(term) + TotalBytes(after)
      && (Descending(terms) && RanksBelow(terms, previous) <==>
            term.rank < previous && Descending(after) && RanksBelow(after, term.rank))
      && (AllPass(terms) <==> TermPasses(term) && AllPass(after))
  {
    hide TermPasses, TermBytes, TermOf;
    var terms, after := TermsOf([piece] + rest, oracle), TermsOf(rest, oracle);
    var term := TermOf(piece, oracle);
    assert ([piece] + rest)[1..] == rest;
    assert terms == [term] + after;
    assert terms[1..] == after;
    PassesCons(term, after);
    DescendingCons(term, after, previous);
  }

  lemma PassesCons(term: Term, after: seq<Term>)
    requires ProperTerm(term) && Proper(after) && Proper([term] + after)
    ensures AllPass([term] + after) <==> TermPasses(term) && AllPass(after)
  {
    hide TermPasses;
    var terms := [term] + after;
    assert terms[0] == term;
    assert forall i | 0 <= i < |after| :: after[i] == terms[i + 1];
  }

  lemma DescendingCons(term: Term, after: seq<Term>, previous: nat)
    ensures Descending([term] + after) && RanksBelow([term] + after, previous) <==>
            term.rank < previous && Descending(after) && RanksBelow(after, term.rank)
  {
    var terms := [term] + after;
    assert terms[0] == term;
    assert forall i | 0 <= i < |after| :: after[i] == terms[i + 1];
    if Descending(terms) {
      forall i, j | 0 <= i < j < |after| ensures after[j].rank < after[i].rank {
        assert terms[j + 1].rank < terms[i + 1].rank;
      }
    }
  }

  /** The checks between one term and its addition, in the order they exit. */
  method AddTerm(term: Term, totalBytes: nat, previousRank: nat) returns (refused: bool)
    requires ProperTerm(term)
    ensures !refused <==> term.rank < previousRank && TermPasses(term) && totalBytes + TermBytes(term) < UINT64_MAX
  {
    TermChecks(term);
    hide *;
    if term.rank >= previousRank {
      return true;
    }
    if term.numerator > UINT64_MAX {
      return true;
    }
    if term.integer > UINT64_MAX {
      return true;
    }
    if GuardOperand(term) > GuardLimit(term.rank) {
      return true;
    }
    return totalBytes + TermBytes(term) >= UINT64_MAX;
  }

  /** One round of the scanning loop: separators, one term and its checks. */
  method ReadTerm(value: string, start: nat, totalBytes: nat, previousRank: nat, oracle: FractionOracle)
    returns (refused: bool, next: nat, bytes: nat, rank: nat)
    requires start < |value|
    ensures refused ==> !Verdict(value[start..], totalBytes, previousRank, oracle)
    ensures !refused ==> start < next <= |value|
    ensures !refused ==> Verdict(value[start..], totalBytes, previousRank, oracle) == Verdict(value[next..], totalBytes + bytes, rank, oracle)
  {
    hide *;
    refused, next, bytes, rank := true, 0, 0, 0;
    var s := value[start..];
    var separators := RunLength(s, IsSeparator);
    var offset := start + separators;
    if offset == |value| {
      NoTermLeft(s, totalBytes, previousRank, oracle);
      return;
    }
    var matched := MatchTerm(s[separators..]);
    if matched.None? {
      NoTermLeft(s, totalBytes, previousRank, oracle);
      return;
    }
    TermInRange(value, start, separators, matched.value);
    var term := TermOf(matched.value, oracle);
    next := offset + |PrintTerm(matched.value)|;
    VerdictStep(value, start, separators, matched.value, term, next, totalBytes, previousRank, oracle);
    refused := AddTerm(term, totalBytes, previousRank);
    bytes, rank := TermBytes(term), term.rank;
  }

  /** The scanning loop for absolute values, with its early exits.  `previousRank` starts above every
      rank. */
  method AbsoluteInvalid(value: string, oracle: FractionOracle) returns (invalid: bool)
    ensures invalid <==> !Accepted(value, oracle)
  {
    hide *;
    var totalBytes: nat := 0;
    var previousRank: nat := 8;
    var offset: nat := 0;
    StartVerdict(value, oracle);
    while offset < |value|
      invariant offset <= |value|
      invariant Verdict(value[offset..], totalBytes, previousRank, oracle) == Accepted(value, oracle)
      decreases |value| - offset
    {
      var refused, next, bytes, rank := ReadTerm(value, offset, totalBytes, previousRank, oracle);
      if refused {
        return true;
      }
      offset, totalBytes, previousRank := next, totalBytes + bytes, rank;
    }
    EndVerdict(value[offset..], totalBytes, previousRank, oracle);
    return totalBytes < 1;
  }

  /** The relative patterns are tried first. */
  method IsDefinitelyInvalid(value: string, oracle: FractionOracle) returns (invalid: bool)
    ensures invalid <==> !Acceptable(value, oracle)
  {
    hide RelativeAccepted, Accepted;
    var relative := ReadRelative(value);
    if relative.Some? {
      invalid := RelativeInvalid(relative.value);
      return;
    }
    invalid := AbsoluteInvalid(value, oracle);
  }

  method RelativeInvalid(r: Relative) returns (invalid: bool)
    ensures invalid <==> !RelativeAccepted(r)
  {
    if r.sign.Some? && |r.integer| > 1 && r.integer[0] == '0' && r.integer[1] in {'b', 'B', 'o', 'O'} {
      return true;
    }
    if r.sign == Some('-') && WholeValue(r.integer) != 0 {
      return true;
    }
    return !(0 < Amount(r) <= Whole(r));
  }

  lemma StartVerdict(value: string, oracle: FractionOracle)
    ensures Verdict(value[0..], 0, 8, oracle) == Accepted(value, oracle)
  {
    assert value[0..] == value;
    VerdictMeaning(value, 0, 8, oracle);
    if Scan(value).Some? {
      var pieces := Scan(value).value;
      assert RanksBelow(TermsOf(pieces, oracle), 8);
    }
  }

  lemma EndVerdict(s: string, total: nat, previous: nat, oracle: FractionOracle)
    requires |s| == 0
    ensures Verdict(s, total, previous, oracle) <==> 1 <= total
  {
  }

  lemma NoTermLeft(s: string, total: nat, previous: nat, oracle: FractionOracle)
    requires s != ""
    requires RunLength(s, IsSeparator) == |s| || MatchTerm(s[RunLength(s, IsSeparator)..]).None?
    ensures !Verdict(s, total, previous, oracle)
  {
    assert MatchTerm("").None?;
    assert s[|s|..] == "";
  }

  /** One round of the loop. */
  lemma VerdictStep(value: string, start: nat, separators: nat, matched: Piece, term: Term, next: nat, total: nat, previous: nat,
                    oracle: FractionOracle)
    requires start < |value| && separators == RunLength(value[start..], IsSeparator)
    requires MatchTerm(value[start..][separators..]) == Some(matched) && WellSpelled(matched)
    requires term == TermOf(matched, oracle) && next == start + separators + |PrintTerm(matched)| <= |value|
    ensures Verdict(value[start..], total, previous, oracle) <==>
        && term.rank < previous
        && TermPasses(term)
        && total + TermBytes(term) < UINT64_MAX
        && Verdict(value[next..], total + TermBytes(term), term.rank, oracle)
  {
    hide *;
    var piece := matched.(separator := value[start..][..separators]);
    PieceAt(value, start, separators, matched);
    SeparatorIrrelevant(matched, value[start..][..separators], oracle);
    VerdictUnfold(value[start..], piece, total, previous, oracle);
  }

  lemma VerdictUnfold(s: string, piece: Piece, total: nat, previous: nat, oracle: FractionOracle)
    requires s != "" && ScanPiece(s) == Some(piece)
    ensures |PrintPiece(piece)| <= |s| && WellSpelled(piece)
    ensures var term := TermOf(piece, oracle);
      Verdict(s, total, previous, oracle) <==>
        && term.rank < previous
        && TermPasses(term)
        && total + TermBytes(term) < UINT64_MAX
        && Verdict(s[|PrintPiece(piece)|..], total + TermBytes(term), term.rank, oracle)
  {
    hide ScanPiece, TermOf, TermPasses, TermBytes, PrintPiece;
  }

  lemma PieceAt(value: string, start: nat, separators: nat, matched: Piece)
    requires start < |value| && separators == RunLength(value[start..], IsSeparator)
    requires MatchTerm(value[start..][separators..]) == Some(matched)
    requires start + separators + |PrintTerm(matched)| <= |value|
    ensures var piece := matched.(separator := value[start..][..separators]);
      && All(value[start..][..separators], IsSeparator)
      && ScanPiece(value[start..]) == Some(piece)
      && |PrintPiece(piece)| == separators + |PrintTerm(matched)|
      && value[start..][|PrintPiece(piece)|..] == value[start + separators + |PrintTerm(matched)|..]
  {
    hide MatchTerm;
    Advance(value, start, separators, matched);
  }

  lemma TermInRange(value: string, start: nat, separators: nat, matched: Piece)
    requires start < |value| && separators <= |value[start..]|
    requires MatchTerm(value[start..][separators..]) == Some(matched)
    ensures WellSpelled(matched) && 1 <= |PrintTerm(matched)| <= |value| - start - separators
  {
    MatchTermPrints(value[start..][separators..]);
  }

  lemma TermChecks(t: Term)
    requires ProperTerm(t)
    ensures t.rank <= 7
    ensures TermPasses(t) <==> t.numerator <= UINT64_MAX && t.integer <= UINT64_MAX && GuardOperand(t) <= GuardLimit(t.rank)
  {
  }

  lemma Advance(value: string, start: nat, separators: nat, term: Piece)
    requires start + separators + |PrintTerm(term)| <= |value|
    ensures var piece := term.(separator := value[start..][..separators]);
      && |PrintPiece(piece)| == separators + |PrintTerm(term)|
      && value[start..][|PrintPiece(piece)|..] == value[start + separators + |PrintTerm(term)|..]
  {
  }

  lemma SeparatorIrrelevant(term: Piece, separator: string, oracle: FractionOracle)
    requires WellSpelled(term) && All(separator, IsSeparator)
    ensures WellSpelled(term.(separator := separator))
    ensures TermOf(term.(separator := separator), oracle) == TermOf(term, oracle)
  {
  }

  // ---------- Which assignment is in force ----------

  datatype Assignment = Assignment(name: string, value: string, source: string)

  /** An assignment of `name` that is neither another directive nor invalid. */
  predicate TakesEffect(a: Assignment, name: string, oracle: FractionOracle) {
    a.name == name && (Resets(a.value) || Acceptable(a.value, oracle))
  }

  predicate Resets(value: string) { value == "" || value == "infinity" }

  /** Scans the assignments from the last to the first.  The result is the last
      one that takes effect, unless that one resets the limit. */
  method WinningByteSizeAssignment(assignments: seq<Assignment>, name: string, oracle: FractionOracle)
    returns (winner: Option<Assignment>)
    ensures winner.Some? <==>
              exists i :: 0 <= i < |assignments| && TakesEffect(assignments[i], name, oracle) && !Resets(assignments[i].value)
                && forall j | i < j < |assignments| :: !TakesEffect(assignments[j], name, oracle)
    ensures winner.Some? ==>
              exists i :: 0 <= i < |assignments| && winner.value == assignments[i] && TakesEffect(assignments[i], name, oracle)
                && !Resets(assignments[i].value) && forall j | i < j < |assignments| :: !TakesEffect(assignments[j], name, oracle)
  {
    hide Acceptable;
    var k := |assignments|;
    while 0 < k
      invariant 0 <= k <= |assignments|
      invariant forall j | k <= j < |assignments| :: !TakesEffect(assignments[j], name, oracle)
    {
      k := k - 1;
      var assignment := assignments[k];
      if assignment.name != name {
        continue;
      }
      if Resets(assignment.value) {
        assert TakesEffect(assignments[k], name, oracle);
        return None;
      }
      var invalid := IsDefinitelyInvalid(assignment.value, oracle);
      if invalid {
        continue;
      }
      assert TakesEffect(assignments[k], name, oracle);
      return Some(assignment);
    }
    return None;
  }
}
