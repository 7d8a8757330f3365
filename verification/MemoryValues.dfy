/** What written memory limits mean: numbers as people write them, against the
    readers of `SystemdMemory`. */
module MemoryValues {
  import opened Wrappers
  import opened Strings
  import opened SystemdMemory

  const DIGITS: string := "0123456789abcdef"

  /** A number in a base, most significant digit first. */
  function Written(base: nat, n: nat): (text: string)
    requires 2 <= base <= 16
    ensures text != ""
  {
    if n < base then [DIGITS[n]]
    else
      Euclid(n, base);
      Written(base, n / base) + [DIGITS[n % base]]
  }

  predicate DigitOf(base: nat, c: char) {
    exists d: nat :: d < base && d < 16 && c == DIGITS[d]
  }

  lemma DigitExact(d: nat)
    requires d < 16
    ensures DigitIn(DIGITS[d]) == d && DigitIn("0123456789ABCDEF"[d]) == d
    ensures d < 10 ==> IsDigit(DIGITS[d])
    ensures d < 8 ==> IsOctalDigit(DIGITS[d])
    ensures d < 2 ==> IsBinaryDigit(DIGITS[d])
    ensures IsHexDigit(DIGITS[d]) && IsHexDigit("0123456789ABCDEF"[d])
  {
  }

  lemma ValueSnoc(base: nat, front: string, c: char)
    ensures ValueIn(base, front + [c]) == ValueIn(base, front) * base + DigitIn(c)
  {
    assert (front + [c])[..|front|] == front;
  }

  lemma Euclid(n: nat, base: nat)
    requires 2 <= base <= n
    ensures n / base < n && n / base * base + n % base == n
  {
  }

  lemma WrittenUnfold(base: nat, n: nat)
    requires 2 <= base <= 16
    ensures n < base ==> Written(base, n) == [DIGITS[n]]
    ensures base <= n ==> Written(base, n) == Written(base, n / base) + [DIGITS[n % base]]
  {
  }

  lemma ReadOne(base: nat, c: char)
    ensures ValueIn(base, [c]) == DigitIn(c)
  {
    assert "" + [c] == [c];
    ValueSnoc(base, "", c);
    assert ValueIn(base, "") == 0;
  }

  /** Reading a written number gives the number. */
  lemma {:induction false} WrittenValue(base: nat, n: nat)
    requires 2 <= base <= 16
    ensures ValueIn(base, Written(base, n)) == n
    decreases n
  {
    assert |DIGITS| == 16;
    hide *;
    WrittenUnfold(base, n);
    if n < base {
      DigitExact(n);
      ReadOne(base, DIGITS[n]);
    } else {
      Euclid(n, base);
      WrittenValue(base, n / base);
      OneMoreDigit(base, n, n / base, n % base);
    }
  }

  lemma OneMoreDigit(base: nat, n: nat, q: nat, d: nat)
    requires 2 <= base <= 16 && d < base && q * base + d == n && ValueIn(base, Written(base, q)) == q
    ensures d < |DIGITS| && ValueIn(base, Written(base, q) + [DIGITS[d]]) == n
  {
    assert |DIGITS| == 16;
    hide *;
    DigitExact(d);
    ValueSnoc(base, Written(base, q), DIGITS[d]);
  }

  lemma {:induction false} WrittenDigits(base: nat, n: nat)
    requires 2 <= base <= 16
    ensures forall i | 0 <= i < |Written(base, n)| :: DigitOf(base, Written(base, n)[i])
    decreases n
  {
    if n < base {
      assert DigitOf(base, DIGITS[n]);
    } else {
      WrittenDigits(base, n / base);
      assert DigitOf(base, DIGITS[n % base]);
      hide DigitOf;
    }
  }

  /** A decimal number has decimal digits, no leading zero, and is read as itself. */
  lemma DecimalExact(n: nat)
    ensures All(Written(10, n), IsDigit) && DigitsValue(Written(10, n)) == n
    ensures 0 < n ==> Written(10, n)[0] != '0'
    ensures WholeNumber(Written(10, n)) && WholeValue(Written(10, n)) == n
  {
    WrittenValue(10, n);
    WrittenDigits(10, n);
    var text := Written(10, n);
    forall i | 0 <= i < |text| ensures IsDigit(text[i]) {
      var d: nat :| d < 10 && text[i] == DIGITS[d];
      DigitExact(d);
    }
    DecimalValue(text);
    if 0 < n { NoLeadingZero(10, n); }
    if n == 0 {
      WrittenUnfold(10, 0);
      ReadOne(8, '0');
    }
  }

  lemma {:induction false} NoLeadingZero(base: nat, n: nat)
    requires 2 <= base <= 16 && 0 < n
    ensures Written(base, n)[0] != '0'
    decreases n
  {
    WrittenUnfold(base, n);
    if n < base {
      assert DIGITS[n] != '0';
    } else {
      hide *;
      Euclid(n, base);
      NonZero(n, base);
      NoLeadingZero(base, n / base);
    }
  }

  lemma NonZero(n: nat, base: nat)
    requires 0 < base <= n
    ensures 0 < n / base
  {
  }

  // ---------- Percent, permille, permyriad ----------

  const PERCENT: char := '%'
  const PERMILLE: char := '\U{2030}'
  const PERMYRIAD: char := '\U{2031}'

  /** The judgement on a written relative value, its whole number being `n`. */
  lemma Judged(sign: Option<char>, integer: string, n: nat, fraction: Option<string>, last: char, oracle: FractionOracle)
    requires WholeNumber(integer) && WholeValue(integer) == n && (sign.Some? ==> IsSign(sign.value))
    requires ScaleOf(last).Some?
    requires fraction.Some? ==> 1 <= |fraction.value| <= ScaleOf(last).value.1 && All(fraction.value, IsDigit)
    ensures var r := Relative(ScaleOf(last).value.0, sign, integer, fraction);
      Acceptable(SuffixText(sign) + integer + FractionText(fraction) + [last], oracle) <==>
        SignFits(r) && 0 < Amount(r) <= Whole(r)
  {
    var r := Relative(ScaleOf(last).value.0, sign, integer, fraction);
    hide *;
    assert All("", IsSeparator) by { NoSeparator(); }
    RelativeExact("", r, last, oracle);
    Regrouped(SuffixText(sign), integer, FractionText(fraction), [last]);
  }

  /** What the judgement comes to in numbers: without a sign, ... */
  lemma Unsigned(scale: nat, integer: string, n: nat, fraction: Option<string>)
    requires WholeValue(integer) == n
    requires fraction.Some? ==> All(fraction.value, IsDigit)
    ensures var r := Relative(scale, None, integer, fraction);
      && SignFits(r)
      && (fraction.None? ==> Amount(r) == n && Whole(r) == scale)
      && (fraction.Some? ==>
            Amount(r) == n * TenTo(|fraction.value|) + DigitsValue(fraction.value) && Whole(r) == scale * TenTo(|fraction.value|))
  {
    hide WholeValue, DigitsValue, ValueIn;
    if fraction.Some? { DecimalValue(fraction.value); }
    assert TenTo(0) == 1;
  }

  lemma Scales()
    ensures ScaleOf(PERCENT) == Some((100, 2)) && ScaleOf(PERMILLE) == Some((1000, 1)) && ScaleOf(PERMYRIAD) == Some((10000, 0))
  {
  }

  lemma PlainExact(integer: string, n: nat, last: char, oracle: FractionOracle)
    requires WholeNumber(integer) && WholeValue(integer) == n && ScaleOf(last).Some?
    ensures Acceptable(integer + [last], oracle) <==> 1 <= n <= ScaleOf(last).value.0
  {
    hide *;
    Judged(None, integer, n, None, last, oracle);
    Unsigned(ScaleOf(last).value.0, integer, n, None);
    NoAffixes(integer, last);
  }

  lemma NoAffixes(integer: string, last: char)
    ensures SuffixText(None) + integer + FractionText(None) + [last] == integer + [last]
  {
  }

  lemma Regrouped(a: string, b: string, c: string, d: string)
    ensures "" + a + (b + c) + d == a + b + c + d
  {
  }

  /** A plain percentage, permille or permyriad is accepted from one to the whole. */
  lemma MaximaExact(n: nat, oracle: FractionOracle)
    ensures Acceptable(Written(10, n) + [PERCENT], oracle) <==> 1 <= n <= 100
    ensures Acceptable(Written(10, n) + [PERMILLE], oracle) <==> 1 <= n <= 1000
    ensures Acceptable(Written(10, n) + [PERMYRIAD], oracle) <==> 1 <= n <= 10000
  {
    hide *;
    DecimalExact(n);
    Scales();
    PlainExact(Written(10, n), n, PERCENT, oracle);
    PlainExact(Written(10, n), n, PERMILLE, oracle);
    PlainExact(Written(10, n), n, PERMYRIAD, oracle);
  }

  /** The prefixes for hexadecimal, binary and octal. */
  lemma BasesExact(n: nat, oracle: FractionOracle)
    ensures Acceptable("0x" + Written(16, n) + [PERCENT], oracle) <==> 1 <= n <= 100
    ensures Acceptable("0b" + Written(2, n) + [PERCENT], oracle) <==> 1 <= n <= 100
    ensures Acceptable("0o" + Written(8, n) + [PERCENT], oracle) <==> 1 <= n <= 100
    ensures Acceptable("0" + Written(8, n) + [PERCENT], oracle) <==> 1 <= n <= 100
  {
    hide *;
    PrefixedValues(n);
    Scales();
    PlainExact("0x" + Written(16, n), n, PERCENT, oracle);
    PlainExact("0b" + Written(2, n), n, PERCENT, oracle);
    PlainExact("0o" + Written(8, n), n, PERCENT, oracle);
    PlainExact("0" + Written(8, n), n, PERCENT, oracle);
  }

  lemma WrittenIn(base: nat, n: nat, digit: char -> bool)
    requires 2 <= base <= 16 && forall d | 0 <= d < base :: digit(DIGITS[d])
    ensures All(Written(base, n), digit)
  {
    WrittenDigits(base, n);
    hide Written;
  }

  lemma PrefixedValues(n: nat)
    ensures WholeNumber("0x" + Written(16, n)) && WholeValue("0x" + Written(16, n)) == n
    ensures WholeNumber("0b" + Written(2, n)) && WholeValue("0b" + Written(2, n)) == n
    ensures WholeNumber("0o" + Written(8, n)) && WholeValue("0o" + Written(8, n)) == n
    ensures WholeNumber("0" + Written(8, n)) && WholeValue("0" + Written(8, n)) == n
  {
    forall d: nat | d < 16 ensures IsHexDigit(DIGITS[d]) && (d < 8 ==> IsOctalDigit(DIGITS[d])) && (d < 2 ==> IsBinaryDigit(DIGITS[d])) {
      DigitExact(d);
    }
    WrittenIn(16, n, IsHexDigit);
    WrittenIn(2, n, IsBinaryDigit);
    WrittenIn(8, n, IsOctalDigit);
    WrittenValue(16, n);
    WrittenValue(2, n);
    WrittenValue(8, n);
    hide Written, ValueIn, DIGITS, Prefixed;
    PrefixReads("0x", Written(16, n));
    PrefixReads("0b", Written(2, n));
    PrefixReads("0o", Written(8, n));
    LeadingZero(Written(8, n));
  }

  lemma PrefixReads(prefix: string, digits: string)
    requires digits != ""
    ensures prefix == "0x" && All(digits, IsHexDigit) ==>
              WholeNumber(prefix + digits) && WholeValue(prefix + digits) == ValueIn(16, digits)
    ensures prefix == "0b" && All(digits, IsBinaryDigit) ==>
              WholeNumber(prefix + digits) && WholeValue(prefix + digits) == ValueIn(2, digits)
    ensures prefix == "0o" && All(digits, IsOctalDigit) ==>
              WholeNumber(prefix + digits) && WholeValue(prefix + digits) == ValueIn(8, digits)
  {
    assert |prefix| == 2 ==> (prefix + digits)[2..] == digits;
    hide ValueIn;
  }

  lemma LeadingZero(digits: string)
    requires digits != "" && All(digits, IsOctalDigit)
    ensures WholeNumber("0" + digits) && WholeValue("0" + digits) == ValueIn(8, digits)
  {
    var s := "0" + digits;
    assert s[1..] == digits && s[1] == digits[0];
    ZeroFirst(digits);
    hide ValueIn;
  }

  lemma {:induction false} ZeroFirst(digits: string)
    ensures ValueIn(8, "0" + digits) == ValueIn(8, digits)
  {
    if digits == "" {
      ReadOne(8, '0');
    } else {
      var front, c := digits[..|digits| - 1], digits[|digits| - 1];
      ZeroFirst(front);
      assert "0" + digits == ("0" + front) + [c] && digits == front + [c];
      ValueSnoc(8, "0" + front, c);
      ValueSnoc(8, front, c);
    }
  }

  // ---------- Decimals ----------

  /** A percentage has at most two decimals and a permille one, and they count. */
  lemma DecimalsExact(n: nat, d: nat, e: nat, oracle: FractionOracle)
    requires d < 10 && e < 10
    ensures Acceptable(Written(10, n) + "." + [DIGITS[d]] + [PERCENT], oracle) <==> 1 <= 10 * n + d <= 1000
    ensures Acceptable(Written(10, n) + "." + [DIGITS[d], DIGITS[e]] + [PERCENT], oracle) <==> 1 <= 100 * n + 10 * d + e <= 10000
    ensures Acceptable(Written(10, n) + "." + [DIGITS[d]] + [PERMILLE], oracle) <==> 1 <= 10 * n + d <= 10000
  {
    ShortDecimals(d, e);
    DecimalExact(n);
    Scales();
    hide *;
    DecimalJudged(Written(10, n), n, [DIGITS[d]], PERCENT, oracle);
    DecimalJudged(Written(10, n), n, [DIGITS[d], DIGITS[e]], PERCENT, oracle);
    DecimalJudged(Written(10, n), n, [DIGITS[d]], PERMILLE, oracle);
  }

  lemma ShortDecimals(d: nat, e: nat)
    requires d < 10 && e < 10
    ensures All([DIGITS[d]], IsDigit) && DigitsValue([DIGITS[d]]) == d && TenTo(1) == 10
    ensures All([DIGITS[d], DIGITS[e]], IsDigit) && DigitsValue([DIGITS[d], DIGITS[e]]) == 10 * d + e && TenTo(2) == 100
  {
    NoDigits();
    DigitChars(d);
    DigitChars(e);
    NextDigit("", DIGITS[d], 0);
    assert "" + [DIGITS[d]] == [DIGITS[d]];
    NextDigit([DIGITS[d]], DIGITS[e], d);
    assert [DIGITS[d]] + [DIGITS[e]] == [DIGITS[d], DIGITS[e]];
    hide DigitsValue;
  }

  lemma DigitChars(d: nat)
    requires d < 10
    ensures IsDigit(DIGITS[d]) && DIGITS[d] as int - '0' as int == d
  {
  }

  lemma DecimalJudged(integer: string, n: nat, digits: string, last: char, oracle: FractionOracle)
    requires WholeNumber(integer) && WholeValue(integer) == n && ScaleOf(last).Some?
    requires 1 <= |digits| <= ScaleOf(last).value.1 && All(digits, IsDigit)
    ensures Acceptable(integer + "." + digits + [last], oracle) <==>
              1 <= n * TenTo(|digits|) + DigitsValue(digits) <= ScaleOf(last).value.0 * TenTo(|digits|)
  {
    hide *;
    Judged(None, integer, n, Some(digits), last, oracle);
    Unsigned(ScaleOf(last).value.0, integer, n, Some(digits));
    WithDecimals("", integer, digits, last);
  }

  lemma WithDecimals(sign: string, integer: string, digits: string, last: char)
    ensures |sign| == 1 ==> SuffixText(Some(sign[0])) + integer + FractionText(Some(digits)) + [last] == sign + integer + "." + digits + [last]
    ensures SuffixText(None) + integer + FractionText(Some(digits)) + [last] == integer + "." + digits + [last]
  {
    assert |sign| == 1 ==> [sign[0]] == sign;
  }

  /** The characters a scanned value is made of. */
  predicate AbsoluteChar(c: char) { IsSeparator(c) || IsDigit(c) || IsSuffix(c) || c == '+' || c == '.' }

  lemma PieceChars(piece: Piece)
    requires WellSpelled(piece)
    ensures All(PrintPiece(piece), AbsoluteChar)
  {
    assert forall c | IsNarrow(c) :: IsSeparator(c);
  }

  lemma {:induction false} ScannedChars(pieces: seq<Piece>)
    requires Spelled(pieces)
    ensures All(PrintPieces(pieces), AbsoluteChar)
  {
    if pieces != [] {
      assert WellSpelled(pieces[0]);
      PieceChars(pieces[0]);
      ScannedChars(pieces[1..]);
    }
  }

  /** A value that ends in a relative sign is no absolute value. */
  lemma RelativeIsNotAbsolute(text: string, last: char, oracle: FractionOracle)
    requires ScaleOf(last).Some?
    ensures !Accepted(text + [last], oracle)
  {
    var value := text + [last];
    assert value[|text|] == last && !AbsoluteChar(last);
    hide AbsoluteChar, ScaleOf;
    if Scan(value).Some? {
      ScanSound(value);
      ScannedChars(Scan(value).value);
    }
  }

  /** More decimals than the sign allows are refused. */
  lemma DecimalsLimited(n: nat, digits: string, oracle: FractionOracle)
    requires All(digits, IsDigit)
    ensures 3 <= |digits| ==> !Acceptable(Written(10, n) + "." + digits + [PERCENT], oracle)
    ensures 2 <= |digits| ==> !Acceptable(Written(10, n) + "." + digits + [PERMILLE], oracle)
    ensures !Acceptable(Written(10, n) + "." + digits + [PERMYRIAD], oracle)
  {
    hide *;
    DecimalExact(n);
    Scales();
    if 3 <= |digits| { TooManyDecimals(Written(10, n), digits, PERCENT, oracle); }
    if 2 <= |digits| { TooManyDecimals(Written(10, n), digits, PERMILLE, oracle); }
    TooManyDecimals(Written(10, n), digits, PERMYRIAD, oracle);
  }

  lemma TooManyDecimals(integer: string, digits: string, last: char, oracle: FractionOracle)
    requires WholeNumber(integer) && All(digits, IsDigit) && ScaleOf(last).Some?
    requires digits == "" || ScaleOf(last).value.1 < |digits|
    ensures !Acceptable(integer + "." + digits + [last], oracle)
  {
    var body := integer + "." + digits;
    StartsUnsigned(integer, body);
    assert integer + FractionText(Some(digits)) == body;
    WholeNumberPlain(integer);
    hide *;
    SplitPointBack(integer, Some(digits));
    RelativeIsNotAbsolute(body, last, oracle);
    NoReading(body, integer, digits, last, oracle);
  }

  lemma StartsUnsigned(integer: string, body: string)
    requires WholeNumber(integer) && integer <= body
    ensures body != "" && RunLength(body, IsSeparator) == 0 && !IsSign(body[0]) && body[0..] == body
  {
    WholeNumberPlain(integer);
    hide WholeNumber;
    assert body[0] == integer[0];
  }

  lemma NoReading(body: string, integer: string, digits: string, last: char, oracle: FractionOracle)
    requires body != "" && RunLength(body, IsSeparator) == 0 && !IsSign(body[0]) && body[0..] == body
    requires SplitPoint(body) == (integer, Some(digits)) && ScaleOf(last).Some?
    requires digits == "" || ScaleOf(last).value.1 < |digits|
    requires !Accepted(body + [last], oracle)
    ensures !Acceptable(body + [last], oracle)
  {
    var value := body + [last];
    assert value[..|value| - 1] == body && value[|value| - 1] == last;
    hide ScaleOf, WholeNumber, RunLength, SplitPoint, IsSign, Accepted, All;
    assert ReadRelative(value).None?;
  }

  // ---------- Signs ----------

  /** A plus changes nothing for a decimal or hexadecimal number, hides the letters
      for binary and octal, and a minus needs a zero before the point. */
  lemma SignsExact(n: nat, d: nat, oracle: FractionOracle)
    requires d < 10
    ensures Acceptable("+" + Written(10, n) + [PERCENT], oracle) <==> 1 <= n <= 100
    ensures Acceptable("+" + ("0x" + Written(16, n)) + [PERCENT], oracle) <==> 1 <= n <= 100
    ensures !Acceptable("+" + ("0b" + Written(2, n)) + [PERCENT], oracle)
    ensures !Acceptable("+" + ("0o" + Written(8, n)) + [PERCENT], oracle)
    ensures !Acceptable("-" + Written(10, n) + [PERCENT], oracle)
    ensures Acceptable("-" + Written(10, n) + "." + [DIGITS[d]] + [PERCENT], oracle) <==> n == 0 && 1 <= d
  {
    DecimalExact(n);
    PrefixedValues(n);
    Scales();
    ShortDecimals(d, 0);
    NoLetter(n);
    hide *;
    SignedPlain("+", Written(10, n), n, oracle);
    SignedPlain("-", Written(10, n), n, oracle);
    SignedPlain("+", "0x" + Written(16, n), n, oracle);
    SignedPlain("+", "0b" + Written(2, n), n, oracle);
    SignedPlain("+", "0o" + Written(8, n), n, oracle);
    Letters(Written(16, n), Written(2, n), Written(8, n));
    MinusDecimals(Written(10, n), n, d, oracle);
  }

  predicate LetterHidden(integer: string) { |integer| > 1 && integer[0] == '0' && integer[1] in "bBoO" }

  lemma Letters(sixteen: string, two: string, eight: string)
    ensures !LetterHidden("0x" + sixteen) && LetterHidden("0b" + two) && LetterHidden("0o" + eight)
  {
    assert ("0x" + sixteen)[1] == 'x' && ("0b" + two)[1] == 'b' && ("0o" + eight)[1] == 'o';
  }

  lemma NoLetter(n: nat)
    ensures !LetterHidden(Written(10, n))
  {
    if n == 0 { WrittenUnfold(10, 0); } else { NoLeadingZero(10, n); }
  }

  lemma Signed(sign: char, integer: string, n: nat, fraction: Option<string>)
    requires WholeValue(integer) == n && IsSign(sign)
    requires fraction.Some? ==> All(fraction.value, IsDigit)
    ensures var r := Relative(100, Some(sign), integer, fraction);
      && (SignFits(r) <==> !LetterHidden(integer) && (sign == '-' ==> n == 0))
      && Amount(r) == Amount(Relative(100, None, integer, fraction)) && Whole(r) == Whole(Relative(100, None, integer, fraction))
  {
    hide WholeValue;
  }

  lemma SignedPlain(sign: string, integer: string, n: nat, oracle: FractionOracle)
    requires sign == "+" || sign == "-"
    requires WholeNumber(integer) && WholeValue(integer) == n
    ensures Acceptable(sign + integer + [PERCENT], oracle) <==>
              !LetterHidden(integer) && (sign == "-" ==> n == 0) && 1 <= n <= 100
  {
    Scales();
    assert IsSign(sign[0]) && [sign[0]] == sign && (sign == "-" <==> sign[0] == '-');
    assert SuffixText(Some(sign[0])) + integer + FractionText(None) + [PERCENT] == sign + integer + [PERCENT];
    hide *;
    Judged(Some(sign[0]), integer, n, None, PERCENT, oracle);
    Signed(sign[0], integer, n, None);
    Unsigned(100, integer, n, None);
  }

  lemma MinusDecimals(integer: string, n: nat, d: nat, oracle: FractionOracle)
    requires WholeNumber(integer) && WholeValue(integer) == n && !LetterHidden(integer) && d < 10
    ensures Acceptable("-" + integer + "." + [DIGITS[d]] + [PERCENT], oracle) <==> n == 0 && 1 <= d
  {
    Scales();
    ShortDecimals(d, 0);
    assert IsSign('-') && ['-'] == "-";
    hide *;
    WithDecimals("-", integer, [DIGITS[d]], PERCENT);
    Judged(Some('-'), integer, n, Some([DIGITS[d]]), PERCENT, oracle);
    Signed('-', integer, n, Some([DIGITS[d]]));
    Unsigned(100, integer, n, Some([DIGITS[d]]));
  }

  // ---------- Absolute limits ----------

  function Plain(separator: string, n: nat, k: nat): Piece
    requires k < 7
  {
    Piece(separator, false, Written(10, n), None, "", Some(UNIT_ORDER[k]))
  }

  lemma PlainPiece(separator: string, n: nat, k: nat)
    requires k < 7 && All(separator, IsSeparator)
    ensures WellSpelled(Plain(separator, n, k)) && Plain(separator, n, k).suffix.Some? && Plain(separator, n, k).fraction.None?
    ensures DigitsValue(Plain(separator, n, k).integer) == n
    ensures UnitPosition(Plain(separator, n, k).suffix) == k && UnitBytes(Plain(separator, n, k).suffix) == Power(1024, k)
    ensures PrintPiece(Plain(separator, n, k)) == separator + Written(10, n) + [UNIT_ORDER[k]]
  {
    assert |UNIT_ORDER| == 7;
    hide *;
    DecimalExact(n);
    UnitLetter(k);
    SpelledPlainly(separator, Written(10, n), UNIT_ORDER[k]);
    PlainIs(separator, n, k);
  }

  lemma PlainIs(separator: string, n: nat, k: nat)
    requires k < 7
    ensures Plain(separator, n, k) == Piece(separator, false, Written(10, n), None, "", Some(UNIT_ORDER[k]))
  {
    hide Written;
  }

  lemma SpelledPlainly(separator: string, digits: string, unit: char)
    requires All(separator, IsSeparator) && digits != "" && All(digits, IsDigit) && IsSuffix(unit)
    ensures var piece := Piece(separator, false, digits, None, "", Some(unit));
      WellSpelled(piece) && PrintPiece(piece) == separator + digits + [unit]
  {
  }

  lemma UnitLetter(k: nat)
    requires k < 7
    ensures var c := UNIT_ORDER[k];
      && IsSuffix(c) && ScaleOf(c).None?
      && UnitPosition(Some(c)) == k && UnitBytes(Some(c)) == Power(1024, k)
  {
    LetterRank(k);
    PositionExact(Some(UNIT_ORDER[k]));
    hide Power, UnitPosition, Rank, UNIT_ORDER;
  }

  lemma LetterRank(k: nat)
    requires k < 7
    ensures IsSuffix(UNIT_ORDER[k]) && ScaleOf(UNIT_ORDER[k]).None? && Rank(Some(UNIT_ORDER[k])) == k + 1
  {
  }

  lemma EndsInUnit(text: string, k: nat, oracle: FractionOracle)
    requires k < 7
    ensures Acceptable(text + [UNIT_ORDER[k]], oracle) <==> Accepted(text + [UNIT_ORDER[k]], oracle)
  {
    UnitLetter(k);
    NotRelative(text, UNIT_ORDER[k], oracle);
  }

  lemma NotRelative(text: string, last: char, oracle: FractionOracle)
    requires ScaleOf(last).None?
    ensures Acceptable(text + [last], oracle) <==> Accepted(text + [last], oracle)
  {
    var value := text + [last];
    assert value[|value| - 1] == last;
    hide Accepted, ScaleOf;
    assert ReadRelative(value).None?;
  }

  /** One number with a unit: accepted if it is from 1 byte to 2^64 - 2. */
  lemma LimitExact(n: nat, k: nat, oracle: FractionOracle)
    requires k < 7
    ensures Acceptable(Written(10, n) + [UNIT_ORDER[k]], oracle) <==> 1 <= n * Power(1024, k) <= UINT64_MAX - 1
  {
    var piece := Plain("", n, k);
    hide *;
    NoSeparator();
    PlainPiece("", n, k);
    OnePiece(piece, n, Power(1024, k), oracle);
    assert "" + Written(10, n) == Written(10, n);
    EndsInUnit(Written(10, n), k, oracle);
  }

  lemma NoSeparator()
    ensures All("", IsSeparator) && All(" ", IsSeparator)
  {
  }

  lemma OnePiece(piece: Piece, n: nat, unit: nat, oracle: FractionOracle)
    requires WellSpelled(piece) && piece.fraction.None? && DigitsValue(piece.integer) == n && UnitBytes(piece.suffix) == unit
    ensures Accepted(PrintPiece(piece), oracle) <==> 1 <= n * unit <= UINT64_MAX - 1
  {
    IntegerValueAccepted([piece], oracle);
    assert [piece][1..] == [];
    assert PrintPieces([piece]) == PrintPiece(piece) + "" == PrintPiece(piece);
    assert IntegerTotal([piece]) == n * unit;
    hide Accepted, UnitBytes, DigitsValue;
  }

  /** Two numbers with units: accepted if the second unit is smaller and the sum is
      in range. */
  lemma CompoundExact(m: nat, j: nat, n: nat, k: nat, oracle: FractionOracle)
    requires j < 7 && k < 7
    ensures Acceptable(Written(10, m) + [UNIT_ORDER[j]] + " " + Written(10, n) + [UNIT_ORDER[k]], oracle) <==>
              k < j && 1 <= m * Power(1024, j) + n * Power(1024, k) <= UINT64_MAX - 1
  {
    var first, second := Plain("", m, j), Plain(" ", n, k);
    hide *;
    NoSeparator();
    PlainPiece("", m, j);
    PlainPiece(" ", n, k);
    TwoPieces(first, second, m, Power(1024, j), n, Power(1024, k), oracle);
    Joined(Written(10, m), UNIT_ORDER[j], Written(10, n), UNIT_ORDER[k]);
    EndsInUnit(Written(10, m) + [UNIT_ORDER[j]] + " " + Written(10, n), k, oracle);
  }

  lemma Joined(a: string, u: char, b: string, v: char)
    ensures ("" + a + [u]) + (" " + b + [v]) == a + [u] + " " + b + [v]
  {
  }

  lemma TwoPieces(first: Piece, second: Piece, m: nat, mUnit: nat, n: nat, nUnit: nat, oracle: FractionOracle)
    requires WellSpelled(first) && first.fraction.None? && first.suffix.Some?
    requires WellSpelled(second) && second.fraction.None?
    requires DigitsValue(first.integer) == m && UnitBytes(first.suffix) == mUnit
    requires DigitsValue(second.integer) == n && UnitBytes(second.suffix) == nUnit
    ensures Accepted(PrintPiece(first) + PrintPiece(second), oracle) <==>
              UnitPosition(second.suffix) < UnitPosition(first.suffix) && 1 <= m * mUnit + n * nUnit <= UINT64_MAX - 1
  {
    var pieces := [first, second];
    assert pieces[1..] == [second] && pieces[1..][1..] == [];
    IntegerValueAccepted(pieces, oracle);
    assert PrintPieces([second]) == PrintPiece(second) + "" == PrintPiece(second);
    assert PrintPieces(pieces) == PrintPiece(first) + PrintPiece(second);
    assert IntegerTotal([second]) == n * nUnit;
    assert IntegerTotal(pieces) == m * mUnit + n * nUnit;
    hide Accepted, UnitBytes, DigitsValue, UnitPosition;
  }
}
