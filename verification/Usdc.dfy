/**
 USDC amounts as text and as integer base units: parseUsdc and formatUsdc.
 */
module Usdc {
  import opened Prelude
  import opened Decimal

  const USDC_DECIMALS: nat := 6

  datatype AmountError = NotAnAmount | TooManyDecimals

  /** Where the first point stands, or the length of the text. */
  function PointAt(s: string): (n: nat)
    ensures n <= |s| && (n < |s| ==> s[n] == '.')
    ensures forall i :: 0 <= i < n ==> s[i] != '.'
  {
    if s == "" || s[0] == '.' then 0 else 1 + PointAt(s[1..])
  }

  function Whole(s: string): string {
    s[..PointAt(s)]
  }

  function Fraction(s: string): string {
    if PointAt(s) == |s| then "" else s[PointAt(s) + 1..]
  }

  /** The pattern: digits, then perhaps a point and at least one more digit. */
  predicate IsAmount(s: string) {
    && Whole(s) != "" && AllDigits(Whole(s))
    && AllDigits(Fraction(s))
    && (PointAt(s) < |s| ==> Fraction(s) != "")
  }

  function PadEnd(s: string, n: nat): (r: string)
    ensures AllDigits(s) ==> AllDigits(r)
  {
    if |s| >= n then s else s + Zeros(n - |s|)
  }

  function PadStart(s: string, n: nat): (r: string)
    ensures AllDigits(s) ==> AllDigits(r)
  {
    if |s| >= n then s else Zeros(n - |s|) + s
  }

  /** parseUsdc on text; a number is first printed by the caller's runtime. */
  function ParseUsdc(amount: string): Result<nat, AmountError> {
    var text := Trim(amount);
    if !IsAmount(text) then Err(NotAnAmount)
    else if |Fraction(text)| > USDC_DECIMALS then Err(TooManyDecimals)
    else Ok(Value(Whole(text) + PadEnd(Fraction(text), USDC_DECIMALS)))
  }

  function DropEndZeros(s: string): (r: string)
    ensures r <= s
  {
    if s != "" && s[|s| - 1] == '0' then DropEndZeros(s[..|s| - 1]) else s
  }

  function DropLeadingZeros(s: string): string {
    if |s| > 1 && s[0] == '0' then DropLeadingZeros(s[1..]) else s
  }

  function Join(whole: string, fraction: string): string {
    if fraction == "" then whole else whole + ['.'] + fraction
  }

  const UNIT: int := 1000000

  /** formatUsdc on a bigint of either sign: both halves keep the sign of the dividend. */
  function FormatUsdc(units: int): string {
    var whole := TruncDiv(units, UNIT);
    var remainder := units - whole * UNIT;
    Join(ShowInt(whole), DropEndZeros(PadStart(ShowInt(remainder), USDC_DECIMALS)))
  }

  // ── Digit strings ─────────────────────────────────────────────────────────

  lemma {:induction false} UnitIsPow10()
    ensures Pow10(USDC_DECIMALS) == UNIT
  {
    assert Pow10(1) == 10 && Pow10(2) == 100 && Pow10(3) == 1000;
    assert Pow10(4) == 10000 && Pow10(5) == 100000 && Pow10(6) == 1000000;
  }

  lemma {:induction false} DropThenPad(s: string, n: nat)
    requires AllDigits(s) && |s| <= n
    ensures PadEnd(DropEndZeros(s), n) == PadEnd(s, n)
  {
    if s != "" && s[|s| - 1] == '0' {
      var t := s[..|s| - 1];
      DropThenPad(t, n);
      ZerosFront(n - |t|);
      assert s == t + ['0'];
      assert t + Zeros(n - |t|) == s + Zeros(n - |s|);
    }
  }

  lemma {:induction false} ZerosFront(n: nat)
    requires n > 0
    ensures Zeros(n) == ['0'] + Zeros(n - 1)
  {
    if n > 1 {
      ZerosFront(n - 1);
    }
  }

  lemma {:induction false} PadThenDrop(s: string, n: nat)
    ensures DropEndZeros(s + Zeros(n)) == DropEndZeros(s)
  {
    if n == 0 {
      assert s + Zeros(0) == s;
    } else {
      PadThenDrop(s, n - 1);
      assert s + Zeros(n) == (s + Zeros(n - 1)) + ['0'];
      assert (s + Zeros(n))[..|s| + n - 1] == s + Zeros(n - 1);
    }
  }

  lemma {:induction false} NoEndZero(s: string)
    ensures DropEndZeros(s) == "" || DropEndZeros(s)[|DropEndZeros(s)| - 1] != '0'
    ensures DropEndZeros(DropEndZeros(s)) == DropEndZeros(s)
  {
    if s != "" && s[|s| - 1] == '0' {
      NoEndZero(s[..|s| - 1]);
    }
  }

  /** Equal length and equal value: the same digits. */
  lemma {:induction false} SameDigits(s: string, t: string)
    requires AllDigits(s) && AllDigits(t) && |s| == |t| && Value(s) == Value(t)
    ensures s == t
  {
    if s != "" {
      var n := |s| - 1;
      SameDigits(s[..n], t[..n]);
      assert s == s[..n] + [s[n]] && t == t[..n] + [t[n]];
      assert s[n] == DigitChar(DigitValue(s[n])) && t[n] == DigitChar(DigitValue(t[n]));
    }
  }

  lemma {:induction false} ShowFits(n: nat, k: nat)
    requires n < Pow10(k) && k > 0
    ensures |Show(n)| <= k
  {
    if n >= 10 {
      ShowFits(n / 10, k - 1);
    }
  }

  lemma {:induction false} PadStartValue(n: nat, k: nat)
    requires n < Pow10(k) && k > 0
    ensures |PadStart(Show(n), k)| == k && AllDigits(PadStart(Show(n), k)) && Value(PadStart(Show(n), k)) == n
  {
    ShowFits(n, k);
    ValueOfShow(n);
    PadStartKeepsValue(Show(n), k);
  }

  lemma {:induction false} PadStartKeepsValue(s: string, k: nat)
    requires AllDigits(s) && |s| <= k
    ensures |PadStart(s, k)| == k && Value(PadStart(s, k)) == Value(s)
  {
    hide Value;
    hide Zeros;
    var z := Zeros(k - |s|);
    ValueAppend(z, s);
    ValueOfZeros(k - |s|);
  }

  lemma {:induction false} LeadingZero(s: string)
    requires AllDigits(s) && s != "" && s[0] == '0'
    ensures Value(s) == Value(s[1..])
  {
    ValueAppend(['0'], s[1..]);
    assert s == ['0'] + s[1..];
    assert Value(['0']) == 0 by {
      assert ['0'][..0] == "";
    }
    hide Value;
  }

  lemma {:induction false} ShowValueStrips(s: string)
    requires AllDigits(s) && s != ""
    ensures Show(Value(s)) == DropLeadingZeros(s)
  {
    if |s| > 1 && s[0] == '0' {
      ShowValueStrips(s[1..]);
      LeadingZero(s);
    } else {
      ShowOfValue(s);
    }
  }

  // ── Splitting a printed amount ────────────────────────────────────────────

  lemma {:induction false} PointAtPrefix(a: string, b: string)
    requires forall i :: 0 <= i < |a| ==> a[i] != '.'
    ensures PointAt(a + b) == |a| + PointAt(b)
  {
    if a == "" {
      assert a + b == b;
    } else {
      assert (a + b)[1..] == a[1..] + b;
      PointAtPrefix(a[1..], b);
    }
  }

  lemma {:induction false} JoinSplits(whole: string, fraction: string)
    requires forall i :: 0 <= i < |whole| ==> whole[i] != '.'
    ensures Whole(Join(whole, fraction)) == whole
    ensures Fraction(Join(whole, fraction)) == fraction
    ensures fraction != "" ==> PointAt(Join(whole, fraction)) < |Join(whole, fraction)|
    ensures fraction == "" ==> PointAt(Join(whole, fraction)) == |Join(whole, fraction)|
  {
    if fraction == "" {
      PointAtPrefix(whole, "");
      assert whole + "" == whole;
    } else {
      var tail := ['.'] + fraction;
      PointAtPrefix(whole, tail);
      assert PointAt(tail) == 0;
      assert Join(whole, fraction) == whole + tail;
    }
  }

  /** An amount printed from digits has no outer white space to trim. */
  lemma {:induction false} JoinTrimmed(whole: string, fraction: string)
    requires AllDigits(whole) && AllDigits(fraction) && whole != ""
    ensures Trim(Join(whole, fraction)) == Join(whole, fraction)
  {
    var s := Join(whole, fraction);
    assert IsDigit(s[0]) && IsDigit(s[|s| - 1]);
    TrimShape(s);
  }

  // ── The two directions ────────────────────────────────────────────────────

  lemma {:induction false} FormatNat(units: nat)
    ensures
      var padded := PadStart(Show(units % UNIT), USDC_DECIMALS);
      FormatUsdc(units) == Join(Show(units / UNIT), DropEndZeros(padded))
      && |padded| == USDC_DECIMALS && AllDigits(padded) && Value(padded) == units % UNIT
  {
    UnitIsPow10();
    PadStartValue(units % UNIT, USDC_DECIMALS);
    assert units - (units / UNIT) * UNIT == units % UNIT;
  }

  /** parseUsdc(formatUsdc(n)) is n. */
  lemma {:induction false} FormatThenParse(units: nat)
    ensures ParseUsdc(FormatUsdc(units)) == Ok(units)
  {
    hide FormatUsdc;
    hide ParseUsdc;
    hide PadStart;
    hide Show;
    hide Value;
    hide Pow10;
    hide Join;
    hide DropEndZeros;
    FormatNat(units);
    var w, padded := Show(units / UNIT), PadStart(Show(units % UNIT), USDC_DECIMALS);
    ParseJoined(w, padded);
    ValueOfShow(units / UNIT);
    UnitIsPow10();
    assert (units / UNIT) * UNIT + units % UNIT == units;
  }

  lemma {:induction false} ParseJoined(w: string, padded: string)
    requires AllDigits(w) && AllDigits(padded) && w != "" && |padded| == USDC_DECIMALS
    ensures ParseUsdc(Join(w, DropEndZeros(padded))) == Ok(Value(w) * Pow10(USDC_DECIMALS) + Value(padded))
  {
    hide Value;
    hide Trim;
    hide Pow10;
    var f := DropEndZeros(padded);
    JoinSplits(w, f);
    JoinTrimmed(w, f);
    hide Join;
    DropThenPad(padded, USDC_DECIMALS);
    hide DropEndZeros;
    assert PadEnd(f, USDC_DECIMALS) == padded;
    hide PadEnd;
    ValueAppend(w, padded);
    hide PointAt;
  }

  /** A negative amount never prints as text that parses. */
  lemma {:induction false} NegativeDoesNotParse(units: int)
    requires units < 0
    ensures ParseUsdc(FormatUsdc(units)) == Err(NotAnAmount)
  {
    var whole := TruncDiv(units, UNIT);
    var r := units - whole * UNIT;
    assert whole == -((-units) / UNIT) && -UNIT < r <= 0;
    var f := DropEndZeros(PadStart(ShowInt(r), USDC_DECIMALS));
    var s := FormatUsdc(units);
    assert s == Join(ShowInt(whole), f);
    if whole < 0 {
      NegativeWhole(whole, f);
    } else {
      NegativeFraction(r, whole);
    }
  }

  lemma {:induction false} NegativeWhole(whole: int, fraction: string)
    requires whole < 0
    ensures !IsAmount(Trim(Join(ShowInt(whole), fraction)))
  {
    var s := Join(ShowInt(whole), fraction);
    assert s[0] == '-';
    TrimStartShape(s);
    assert TrimStart(s) == s;
    TrimEndShape(s);
    var t := Trim(s);
    assert t != "" ==> t[0] == '-';
    if Whole(t) != "" {
      assert Whole(t)[0] == '-';
    }
  }

  lemma {:induction false} NegativeFraction(r: int, whole: int)
    requires -UNIT < r < 0 && whole == 0
    ensures !IsAmount(Trim(Join(ShowInt(whole), DropEndZeros(PadStart(ShowInt(r), USDC_DECIMALS)))))
  {
    MinusSurvives(r);
    var f := DropEndZeros(PadStart(ShowInt(r), USDC_DECIMALS));
    hide DropEndZeros;
    hide PadStart;
    var w := ShowInt(whole);
    assert IsDigit(w[0]) && AllDigits(w);
    SignInFraction(w, f);
  }

  lemma {:induction false} SignInFraction(w: string, f: string)
    requires w != "" && AllDigits(w) && f != "" && '-' in f
    requires forall i :: 0 <= i < |f| ==> IsDigit(f[i]) || f[i] == '-'
    ensures !IsAmount(Trim(Join(w, f)))
  {
    var s := Join(w, f);
    JoinSplits(w, f);
    assert IsDigit(f[|f| - 1]) || f[|f| - 1] == '-';
    assert s[|s| - 1] == f[|f| - 1] && s[0] == w[0];
    assert Trimmed(s);
    hide Join;
    TrimShape(s);
    hide Trim;
    assert !AllDigits(f) by {
      var k :| 0 <= k < |f| && f[k] == '-';
      assert !IsDigit(f[k]);
    }
    hide PointAt;
  }

  lemma {:induction false} MinusSurvives(r: int)
    requires r < 0
    ensures
      var f := DropEndZeros(PadStart(ShowInt(r), USDC_DECIMALS));
      f != "" && '-' in f && forall i :: 0 <= i < |f| ==> IsDigit(f[i]) || f[i] == '-'
  {
    var p := PadStart(ShowInt(r), USDC_DECIMALS);
    var k := |p| - |ShowInt(r)|;
    assert p[k] == '-';
    assert forall i :: 0 <= i < |p| ==> IsDigit(p[i]) || p[i] == '-';
    DropKeeps(p, k);
  }

  lemma {:induction false} DropKeeps(s: string, k: nat)
    requires k < |s| && s[k] == '-'
    ensures k < |DropEndZeros(s)| && DropEndZeros(s)[k] == '-'
  {
    if s[|s| - 1] == '0' {
      DropKeeps(s[..|s| - 1], k);
    }
  }

  /** Formatting and parsing are inverse exactly on the amounts that exist. */
  lemma {:induction false} RoundTripsExactly(units: int)
    ensures ParseUsdc(FormatUsdc(units)) == Ok(units) <==> units >= 0
  {
    if units >= 0 {
      FormatThenParse(units);
    } else {
      NegativeDoesNotParse(units);
    }
  }

  /** The amount text with spare zeros dropped at both ends. */
  function Normalised(text: string): string {
    Join(DropLeadingZeros(Whole(text)), DropEndZeros(Fraction(text)))
  }

  /** formatUsdc(parseUsdc(s)) is s, trimmed and normalised. */
  lemma {:induction false} ParseThenFormat(amount: string)
    requires ParseUsdc(amount).Ok?
    ensures FormatUsdc(ParseUsdc(amount).value) == Normalised(Trim(amount))
  {
    hide FormatUsdc;
    hide IsAmount;
    var text := Trim(amount);
    ParsedShape(amount);
    var w, f := Whole(text), Fraction(text);
    var p := PadEnd(f, USDC_DECIMALS);
    var units := ParseUsdc(amount).value;
    var padded := PadStart(Show(units % UNIT), USDC_DECIMALS);
    FormatNat(units);
    SameDigits(padded, p);
    ShowValueStrips(w);
    PadThenDrop(f, USDC_DECIMALS - |f|);
    assert f + Zeros(0) == f;
  }

  lemma {:induction false} ParsedShape(amount: string)
    requires ParseUsdc(amount).Ok?
    ensures
      var w, f := Whole(Trim(amount)), Fraction(Trim(amount));
      var p := PadEnd(f, USDC_DECIMALS);
      w != "" && AllDigits(w) && AllDigits(f) && |f| <= USDC_DECIMALS && |p| == USDC_DECIMALS
      && ParseUsdc(amount).value / UNIT == Value(w)
      && ParseUsdc(amount).value % UNIT == Value(p)
  {
    var w, f := Whole(Trim(amount)), Fraction(Trim(amount));
    var p := PadEnd(f, USDC_DECIMALS);
    ValueAppend(w, p);
    ValueBound(p);
    UnitIsPow10();
    assert Value(w + p) == Value(w) * UNIT + Value(p) && 0 <= Value(p) < UNIT;
  }

  /** Two texts are one amount exactly when they normalise alike. */
  lemma {:induction false} SameAmountSameText(a: string, b: string)
    requires ParseUsdc(a).Ok? && ParseUsdc(b).Ok?
    ensures ParseUsdc(a) == ParseUsdc(b) <==> Normalised(Trim(a)) == Normalised(Trim(b))
  {
    ParseThenFormat(a);
    ParseThenFormat(b);
    FormatThenParse(ParseUsdc(a).value);
    FormatThenParse(ParseUsdc(b).value);
  }

  // ── Parsing is exact, so it keeps the order of amounts ────────────────────

  /** The rational number an amount text writes down. */
  function Exact(text: string): real
    requires IsAmount(text)
  {
    Value(Whole(text)) as real + Value(Fraction(text)) as real / Pow10(|Fraction(text)|) as real
  }

  lemma {:induction false} PadEndValue(f: string)
    requires AllDigits(f) && |f| <= USDC_DECIMALS
    ensures Value(PadEnd(f, USDC_DECIMALS)) * Pow10(|f|) == Value(f) * UNIT
  {
    hide Value;
    hide Zeros;
    hide Pow10;
    var k := USDC_DECIMALS - |f|;
    ValueAppend(f, Zeros(k));
    ValueOfZeros(k);
    Pow10Adds(|f|, k);
    UnitIsPow10();
    if k == 0 {
      assert f + Zeros(k) == f;
    }
    assert PadEnd(f, USDC_DECIMALS) == f + Zeros(k);
    MulSwap(Value(f), Pow10(k), Pow10(|f|));
  }

  lemma {:induction false} MulSwap(v: nat, a: nat, b: nat)
    ensures v * a * b == v * (b * a)
  {
  }

  lemma {:induction false} Pow10Adds(a: nat, b: nat)
    ensures Pow10(a + b) == Pow10(a) * Pow10(b)
  {
    if a > 0 {
      Pow10Adds(a - 1, b);
    }
  }

  /** No rounding: the base units are the written amount times a million. */
  lemma {:induction false} ParseIsExact(amount: string)
    requires ParseUsdc(amount).Ok?
    ensures IsAmount(Trim(amount))
    ensures ParseUsdc(amount).value as real == Exact(Trim(amount)) * 1000000.0
  {
    var text := Trim(amount);
    var w, f := Whole(text), Fraction(text);
    var p, d := Value(PadEnd(f, USDC_DECIMALS)), Pow10(|f|);
    ParsedShape(amount);
    PadEndValue(f);
    ExactScales(Value(w), Value(f), p, d);
    assert ParseUsdc(amount).value == Value(w) * UNIT + p;
  }

  lemma {:induction false} ExactScales(w: nat, f: nat, p: nat, d: nat)
    requires d > 0 && p * d == f * UNIT
    ensures (w * UNIT + p) as real == (w as real + f as real / d as real) * 1000000.0
  {
    assert (p * d) as real == p as real * d as real;
    assert (f * UNIT) as real == f as real * 1000000.0;
    assert p as real == f as real * 1000000.0 / d as real;
    assert (w * UNIT) as real == w as real * 1000000.0;
  }

  /** parseUsdc preserves numeric order, strictly and in both directions. */
  lemma {:induction false} ParseKeepsOrder(a: string, b: string)
    requires ParseUsdc(a).Ok? && ParseUsdc(b).Ok?
    ensures IsAmount(Trim(a)) && IsAmount(Trim(b))
    ensures ParseUsdc(a).value < ParseUsdc(b).value <==> Exact(Trim(a)) < Exact(Trim(b))
  {
    ParseIsExact(a);
    ParseIsExact(b);
  }

  // ── What is refused ───────────────────────────────────────────────────────

  /** A text written with these digits before and after the point; without a point if there are none after it. */
  predicate WrittenAs(text: string, w: string, f: string) {
    && w != "" && AllDigits(w) && AllDigits(f)
    && (if f == "" then text == w else text == w + ['.'] + f)
  }

  lemma {:induction false} WrittenIsAmount(text: string, w: string, f: string)
    requires WrittenAs(text, w, f)
    ensures IsAmount(text) && Whole(text) == w && Fraction(text) == f
  {
    JoinSplits(w, f);
    assert text == Join(w, f);
  }

  lemma {:induction false} AmountIsWritten(text: string)
    requires IsAmount(text)
    ensures WrittenAs(text, Whole(text), Fraction(text))
  {
    var n := PointAt(text);
    if n < |text| {
      assert text == text[..n] + ['.'] + text[n + 1..];
    } else {
      assert text[..n] == text;
    }
  }

  /**
   Which texts are refused, and as what: anything but digits with perhaps a point
   and more digits is no amount, and more than six digits after the point are too
   many. Every other text is read.
   */
  lemma {:induction false} RefusedExactly(amount: string)
    ensures ParseUsdc(amount) == Err(NotAnAmount) <==> forall w, f :: !WrittenAs(Trim(amount), w, f)
    ensures ParseUsdc(amount) == Err(TooManyDecimals) <==> exists w, f :: WrittenAs(Trim(amount), w, f) && |f| > 6
  {
    var text := Trim(amount);
    hide Trim;
    if IsAmount(text) {
      AmountIsWritten(text);
    }
    forall w, f | WrittenAs(text, w, f)
      ensures IsAmount(text) && Fraction(text) == f
    {
      WrittenIsAmount(text, w, f);
    }
    hide IsAmount;
    hide Value;
    hide PadEnd;
  }
}
