/**
 Numbers in JSON text (section 6 of RFC 8259): the grammar with each literal's exact
 value, and what a JavaScript engine makes of that value and prints for it.
 */
module JsonNumber {
  import opened Prelude
  import opened Decimal
  import opened Canonical

  /** A value read off the front of a text, and what follows it. */
  datatype Parsed<+T> = Parsed(value: T, rest: string) | Stuck

  /** The same outcome with more text behind it. */
  function Appended<T>(p: Parsed<T>, w: string): Parsed<T> {
    match p
    case Stuck => Stuck
    case Parsed(v, rest) => Parsed(v, rest + w)
  }

  // ── The grammar ───────────────────────────────────────────────────────────

  /** How many digits a text starts with. */
  function DigitRun(s: string): (n: nat)
    ensures n <= |s| && AllDigits(s[..n])
    ensures n < |s| ==> !IsDigit(s[n])
  {
    if s == "" || !IsDigit(s[0]) then 0
    else
      var n := DigitRun(s[1..]);
      assert s[..n + 1] == [s[0]] + s[1..][..n];
      n + 1
  }

  /** n times ten to the power e. */
  function Scaled(n: nat, e: int): real {
    if e >= 0 then (n * Pow10(e)) as real else n as real / Pow10(-e) as real
  }

  function ParseFraction(s: string): (r: Parsed<string>)
    ensures r.Parsed? ==> |r.rest| <= |s| && AllDigits(r.value)
  {
    if s == "" || s[0] != '.' then Parsed("", s)
    else
      var n := DigitRun(s[1..]);
      if n == 0 then Stuck else Parsed(s[1..][..n], s[1..][n..])
  }

  function ExponentDigits(s: string, negative: bool): (r: Parsed<int>)
    ensures r.Parsed? ==> |r.rest| <= |s|
  {
    var n := DigitRun(s);
    if n == 0 then Stuck else Parsed(if negative then 0 - Value(s[..n]) else Value(s[..n]), s[n..])
  }

  function ParseExponent(s: string): (r: Parsed<int>)
    ensures r.Parsed? ==> |r.rest| <= |s|
  {
    if s == "" || (s[0] != 'e' && s[0] != 'E') then Parsed(0, s)
    else if |s| > 1 && s[1] == '-' then ExponentDigits(s[2..], true)
    else if |s| > 1 && s[1] == '+' then ExponentDigits(s[2..], false)
    else ExponentDigits(s[1..], false)
  }

  /** No leading zeros: a zero stands alone before the fraction. */
  function IntegerRun(s: string): (n: nat)
    ensures n <= |s| && AllDigits(s[..n])
  {
    if s != "" && s[0] == '0' then 1 else DigitRun(s)
  }

  function ParseMagnitude(s: string): (r: Parsed<real>)
    ensures r.Parsed? ==> |r.rest| < |s|
  {
    var n := IntegerRun(s);
    if n == 0 then Stuck
    else
      match ParseFraction(s[n..])
      case Stuck => Stuck
      case Parsed(fraction, r1) =>
        match ParseExponent(r1)
        case Stuck => Stuck
        case Parsed(e, r2) => Parsed(Scaled(Value(s[..n] + fraction), e - |fraction|), r2)
  }

  /** A literal at its exact value. */
  function ParseExact(s: string): (r: Parsed<real>)
    ensures r.Parsed? ==> |r.rest| < |s|
  {
    var negative := s != "" && s[0] == '-';
    match ParseMagnitude(if negative then s[1..] else s)
    case Stuck => Stuck
    case Parsed(x, rest) => Parsed(if negative then 0.0 - x else x, rest)
  }

  // ── The engine's numbers ──────────────────────────────────────────────────

  /**
   round: the double next to an exact value, None where it overflows to an infinity.
   show: the text printed for a double that is an integer.
   */
  datatype Numbers = Numbers(round: real -> Option<real>, show: int -> string)

  const MAX_SAFE_INTEGER := 9007199254740991

  /** The integer is itself a double. */
  predicate HeldInt(num: Numbers, n: int) {
    num.round(n as real) == Some(n as real)
  }

  /** The printed text is a literal, and rounding its exact value gives the integer back. */
  predicate ShowsBack(num: Numbers, n: int) {
    var p := ParseExact(num.show(n));
    p.Parsed? && p.rest == "" && num.round(p.value) == Some(n as real)
  }

  /** All that is assumed of an engine: how it rounds between doubles, and when it prints an exponent, is left open. */
  ghost predicate Conforms(num: Numbers) {
    && (forall x :: num.round(x).Some? ==> num.round(num.round(x).value) == num.round(x))
    && (forall n :: -MAX_SAFE_INTEGER <= n <= MAX_SAFE_INTEGER ==> HeldInt(num, n))
    && (forall n :: HeldInt(num, n) ==> ShowsBack(num, n))
  }

  function NumberOf(num: Numbers, x: real): (v: Js)
    ensures v.JNum? || v.JNonFinite?
  {
    match num.round(x)
    case None => JNonFinite
    case Some(d) => JNum(d)
  }

  function ParseNumber(num: Numbers, s: string): (r: Parsed<Js>)
    ensures r.Parsed? ==> |r.rest| < |s| && (r.value.JNum? || r.value.JNonFinite?)
  {
    match ParseExact(s)
    case Stuck => Stuck
    case Parsed(x, rest) => Parsed(NumberOf(num, x), rest)
  }

  // ── What follows a number ─────────────────────────────────────────────────

  /** What may follow a number, or the start of one, without becoming part of it. */
  predicate Delimited(rest: string) {
    || rest == ""
    || (!IsDigit(rest[0]) && rest[0] != '.' && rest[0] != 'e' && rest[0] != 'E' && rest[0] != '+' && rest[0] != '-')
  }

  lemma {:induction false} Cut(d: string, tail: string)
    ensures (d + tail)[..|d|] == d && (d + tail)[|d|..] == tail
    ensures d != "" ==> d + tail != "" && (d + tail)[0] == d[0]
  {
  }

  lemma {:induction false} CutAt(s: string, w: string, n: nat)
    requires n <= |s|
    ensures (s + w)[..n] == s[..n] && (s + w)[n..] == s[n..] + w
  {
  }

  lemma {:induction false} DigitRunAppended(s: string, w: string)
    requires w == "" || !IsDigit(w[0])
    ensures DigitRun(s + w) == DigitRun(s)
  {
    if s == "" {
      assert s + w == w;
    } else {
      CutAt(s, w, 1);
      DigitRunAppended(s[1..], w);
    }
  }

  lemma {:induction false} FractionAppended(s: string, w: string)
    requires Delimited(w)
    ensures ParseFraction(s + w) == Appended(ParseFraction(s), w)
  {
    if s == "" {
      assert s + w == w;
    } else {
      CutAt(s, w, 1);
      DigitRunAppended(s[1..], w);
      CutAt(s[1..], w, DigitRun(s[1..]));
      hide DigitRun;
    }
  }

  lemma {:induction false} ExponentDigitsAppended(s: string, negative: bool, w: string)
    requires w == "" || !IsDigit(w[0])
    ensures ExponentDigits(s + w, negative) == Appended(ExponentDigits(s, negative), w)
  {
    hide Value;
    DigitRunAppended(s, w);
    CutAt(s, w, DigitRun(s));
    hide DigitRun;
  }

  lemma {:induction false} ExponentAppended(s: string, w: string)
    requires Delimited(w)
    ensures ParseExponent(s + w) == Appended(ParseExponent(s), w)
  {
    hide ExponentDigits;
    if s == "" {
      assert s + w == w;
    } else if |s| == 1 {
      CutAt(s, w, 1);
      ExponentDigitsAppended("", false, w);
      assert s[1..] == "" && (s + w)[1..] == w;
    } else {
      CutAt(s, w, 1);
      CutAt(s, w, 2);
      ExponentDigitsAppended(s[1..], false, w);
      ExponentDigitsAppended(s[2..], true, w);
      ExponentDigitsAppended(s[2..], false, w);
      assert (s + w)[1] == s[1];
    }
  }

  lemma {:induction false} IntegerRunAppended(s: string, w: string)
    requires w == "" || !IsDigit(w[0])
    ensures IntegerRun(s + w) == IntegerRun(s)
  {
    DigitRunAppended(s, w);
    if s == "" {
      assert s + w == w;
    }
    hide DigitRun;
  }

  lemma {:induction false} MagnitudeParts(s: string, t: string, w: string, n: nat)
    requires IntegerRun(s) == IntegerRun(t) == n && t[..n] == s[..n]
    requires ParseFraction(t[n..]) == Appended(ParseFraction(s[n..]), w)
    requires
      var f := ParseFraction(s[n..]);
      f.Parsed? ==> ParseExponent(f.rest + w) == Appended(ParseExponent(f.rest), w)
    ensures ParseMagnitude(t) == Appended(ParseMagnitude(s), w)
  {
    hide IntegerRun;
    hide ParseFraction;
    hide ParseExponent;
    hide Value;
    hide Scaled;
  }

  lemma {:induction false} MagnitudeAppended(s: string, w: string)
    requires Delimited(w)
    ensures ParseMagnitude(s + w) == Appended(ParseMagnitude(s), w)
  {
    hide ParseFraction;
    hide ParseExponent;
    hide ParseMagnitude;
    hide IntegerRun;
    var n := IntegerRun(s);
    IntegerRunAppended(s, w);
    CutAt(s, w, n);
    FractionAppended(s[n..], w);
    var f := ParseFraction(s[n..]);
    if f.Parsed? {
      ExponentAppended(f.rest, w);
    }
    MagnitudeParts(s, s + w, w, n);
  }

  lemma {:induction false} NotNegative(s: string)
    requires s == "" || s[0] != '-'
    ensures ParseExact(s) == ParseMagnitude(s)
  {
    hide ParseMagnitude;
  }

  lemma {:induction false} Negative(s: string)
    requires s != "" && s[0] == '-'
    ensures ParseExact(s) ==
      match ParseMagnitude(s[1..])
      case Stuck => Stuck
      case Parsed(x, rest) => Parsed(0.0 - x, rest)
  {
    hide ParseMagnitude;
  }

  /** Reading a number, or failing to, is not disturbed by what is set off behind it. */
  lemma {:induction false} ExactAppended(s: string, w: string)
    requires Delimited(w)
    ensures ParseExact(s + w) == Appended(ParseExact(s), w)
  {
    hide ParseMagnitude;
    hide ParseExact;
    Cut(s, w);
    if s != "" && s[0] == '-' {
      CutAt(s, w, 1);
      MagnitudeAppended(s[1..], w);
      Negative(s);
      Negative(s + w);
    } else {
      MagnitudeAppended(s, w);
      NotNegative(s);
      assert s == "" ==> s + w == w;
      NotNegative(s + w);
    }
  }

  lemma {:induction false} NumberAppended(num: Numbers, s: string, w: string)
    requires Delimited(w)
    ensures ParseNumber(num, s + w) == Appended(ParseNumber(num, s), w)
  {
    hide ParseExact;
    ExactAppended(s, w);
  }

  /** A printed integer is read back, whatever is set off behind it. */
  lemma {:induction false} ReadShown(num: Numbers, n: int, rest: string)
    requires Conforms(num) && HeldInt(num, n) && Delimited(rest)
    ensures ParseNumber(num, num.show(n) + rest) == Parsed(JNum(n as real), rest)
    ensures num.show(n) != "" && (num.show(n)[0] == '-' || IsDigit(num.show(n)[0]))
  {
    assert ShowsBack(num, n);
    ExactAppended(num.show(n), rest);
    hide Delimited;
    assert "" + rest == rest;
  }

  // ── An engine without rounding ────────────────────────────────────────────

  const EXACT := Numbers(x => Some(x), ShowInt)

  lemma {:induction false} DigitRunExact(d: string, rest: string)
    requires AllDigits(d) && (rest == "" || !IsDigit(rest[0]))
    ensures DigitRun(d + rest) == |d|
  {
    if d == "" {
      assert d + rest == rest;
    } else {
      assert (d + rest)[1..] == d[1..] + rest;
      DigitRunExact(d[1..], rest);
    }
  }

  lemma {:induction false} ReadNat(n: nat, rest: string)
    requires Delimited(rest)
    ensures ParseMagnitude(Show(n) + rest) == Parsed(n as real, rest)
  {
    var d := Show(n);
    var s := d + rest;
    assert s[0] == d[0];
    DigitRunExact(d, rest);
    assert IntegerRun(s) == |d|;
    assert s[..|d|] == d && s[|d|..] == rest && d + "" == d;
    ValueOfShow(n);
    assert Scaled(n, 0) == n as real;
  }

  lemma {:induction false} ReadInt(n: int)
    ensures ParseExact(ShowInt(n)) == Parsed(n as real, "")
  {
    hide ParseMagnitude;
    hide Show;
    if n < 0 {
      ReadNat(-n, "");
      assert ShowInt(n)[1..] == Show(-n) && Show(-n) + "" == Show(-n);
    } else {
      ReadNat(n, "");
      assert IsDigit(Show(n)[0]) && Show(n) + "" == Show(n);
    }
  }

  /** Exact numbers printed as decimals are one reading of the assumptions. */
  lemma {:induction false} ExactConforms()
    ensures Conforms(EXACT)
  {
    hide ParseExact;
    forall n
      ensures ShowsBack(EXACT, n)
    {
      ReadInt(n);
    }
  }

  // ── Other spellings ───────────────────────────────────────────────────────

  lemma {:induction false} RunOfShown(n: nat, tail: string)
    requires tail == "" || !IsDigit(tail[0])
    ensures IntegerRun(Show(n) + tail) == |Show(n)|
  {
    DigitRunExact(Show(n), tail);
    Cut(Show(n), tail);
    hide Show;
    hide DigitRun;
  }

  /** A magnitude is read part by part, each part at its exact value. */
  lemma {:induction false} ReadMagnitude(n: nat, tail: string, fraction: string, r1: string, e: int, rest: string)
    requires tail == "" || !IsDigit(tail[0])
    requires ParseFraction(tail) == Parsed(fraction, r1) && ParseExponent(r1) == Parsed(e, rest)
    ensures AllDigits(fraction)
    ensures ParseMagnitude(Show(n) + tail) == Parsed(Scaled(Value(Show(n) + fraction), e - |fraction|), rest)
  {
    hide Value;
    hide Show;
    hide IntegerRun;
    hide ParseFraction;
    hide ParseExponent;
    hide Scaled;
    RunOfShown(n, tail);
    Cut(Show(n), tail);
  }

  lemma {:induction false} ReadFractionPart(fraction: string, rest: string)
    requires AllDigits(fraction) && fraction != "" && (rest == "" || !IsDigit(rest[0]))
    ensures ParseFraction(['.'] + (fraction + rest)) == Parsed(fraction, rest)
  {
    DigitRunExact(fraction, rest);
    Cut(fraction, rest);
    Cut(['.'], fraction + rest);
    hide DigitRun;
  }

  lemma {:induction false} FractionRead(n: nat, tail: string, fraction: string, rest: string)
    requires tail != "" && tail[0] == '.' && ParseFraction(tail) == Parsed(fraction, rest)
    requires ParseExponent(rest) == Parsed(0, rest)
    ensures AllDigits(fraction)
    ensures ParseMagnitude(Show(n) + tail) == Parsed(Scaled(Value(Show(n) + fraction), 0 - |fraction|), rest)
  {
    hide ParseFraction;
    hide ParseExponent;
    hide ParseMagnitude;
    hide Show;
    hide Value;
    hide Scaled;
    ReadMagnitude(n, tail, fraction, rest, 0, rest);
  }

  lemma {:induction false} ReadUnsigned(num: Numbers, n: nat, tail: string, x: real, rest: string)
    requires ParseMagnitude(Show(n) + tail) == Parsed(x, rest)
    ensures ParseNumber(num, Show(n) + tail) == Parsed(NumberOf(num, x), rest)
  {
    hide ParseMagnitude;
    Cut(Show(n), tail);
    assert IsDigit(Show(n)[0]);
    hide Show;
    NotNegative(Show(n) + tail);
  }

  /** A fraction is read as the double next to its exact value. */
  lemma {:induction false} ReadFraction(num: Numbers, n: nat, fraction: string, rest: string)
    requires AllDigits(fraction) && fraction != ""
    requires rest == "" || (!IsDigit(rest[0]) && rest[0] != 'e' && rest[0] != 'E')
    ensures ParseNumber(num, Show(n) + (['.'] + (fraction + rest)))
         == Parsed(NumberOf(num, Scaled(Value(Show(n) + fraction), 0 - |fraction|)), rest)
  {
    var tail := ['.'] + (fraction + rest);
    ReadFractionPart(fraction, rest);
    assert ParseExponent(rest) == Parsed(0, rest);
    assert tail[0] == '.';
    hide ParseFraction;
    hide ParseExponent;
    hide ParseNumber;
    hide ParseMagnitude;
    hide Show;
    hide Value;
    hide Scaled;
    FractionRead(n, tail, fraction, rest);
    ReadUnsigned(num, n, tail, Scaled(Value(Show(n) + fraction), 0 - |fraction|), rest);
  }

  lemma {:induction false} ReadExponentDigits(d: string, negative: bool, rest: string)
    requires d != "" && AllDigits(d) && (rest == "" || !IsDigit(rest[0]))
    ensures ExponentDigits(d + rest, negative) == Parsed(if negative then 0 - Value(d) else Value(d), rest)
  {
    hide Value;
    DigitRunExact(d, rest);
    Cut(d, rest);
    hide DigitRun;
  }

  lemma {:induction false} ReadPositive(d: string, rest: string)
    requires d != "" && AllDigits(d) && (rest == "" || !IsDigit(rest[0]))
    ensures ParseExponent(['e'] + (d + rest)) == Parsed(Value(d), rest)
  {
    hide ExponentDigits;
    Cut(['e'], d + rest);
    Cut(d, rest);
    assert IsDigit(d[0]);
    ReadExponentDigits(d, false, rest);
  }

  lemma {:induction false} ReadNegative(d: string, rest: string)
    requires d != "" && AllDigits(d) && (rest == "" || !IsDigit(rest[0]))
    ensures ParseExponent(['e', '-'] + (d + rest)) == Parsed(0 - Value(d), rest)
  {
    hide ExponentDigits;
    Cut(['e', '-'], d + rest);
    assert (['e', '-'] + (d + rest))[1] == '-';
    ReadExponentDigits(d, true, rest);
  }

  lemma {:induction false} ReadExponentPart(e: int, rest: string)
    requires rest == "" || !IsDigit(rest[0])
    ensures ParseExponent(['e'] + (ShowInt(e) + rest)) == Parsed(e, rest)
  {
    hide ParseExponent;
    hide Value;
    hide Show;
    if e < 0 {
      ValueOfShow(-e);
      ReadNegative(Show(-e), rest);
      assert ['e'] + (("-" + Show(-e)) + rest) == ['e', '-'] + (Show(-e) + rest);
    } else {
      ValueOfShow(e);
      ReadPositive(Show(e), rest);
    }
  }

  /** A number in scientific notation is read as the double next to its exact value. */
  lemma {:induction false} ReadScientific(num: Numbers, n: nat, e: int, rest: string)
    requires rest == "" || !IsDigit(rest[0])
    ensures ParseNumber(num, Show(n) + (['e'] + (ShowInt(e) + rest))) == Parsed(NumberOf(num, Scaled(n, e)), rest)
  {
    hide ParseNumber;
    hide ParseMagnitude;
    hide ParseExponent;
    hide Show;
    hide ShowInt;
    hide Scaled;
    var tail := ['e'] + (ShowInt(e) + rest);
    Cut(['e'], ShowInt(e) + rest);
    ReadExponentPart(e, rest);
    assert ParseFraction(tail) == Parsed("", tail);
    hide ParseFraction;
    ReadMagnitude(n, tail, "", tail, e, rest);
    assert Show(n) + "" == Show(n);
    ValueOfShow(n);
    ReadUnsigned(num, n, tail, Scaled(n, e), rest);
  }
}
