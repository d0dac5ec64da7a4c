/**
 Digit strings, and the two JavaScript conversions the protocol leans on:
 `BigInt(text)` and `bigint.toString()`.
 */
module Decimal {
  import opened Prelude

  predicate IsDigit(c: char) {
    '0' <= c <= '9'
  }

  predicate AllDigits(s: string) {
    forall i :: 0 <= i < |s| ==> IsDigit(s[i])
  }

  function DigitValue(c: char): (d: nat)
    requires IsDigit(c)
    ensures d < 10
  {
    c as int - '0' as int
  }

  function DigitChar(d: nat): (c: char)
    requires d < 10
    ensures IsDigit(c) && DigitValue(c) == d
  {
    (d + '0' as int) as char
  }

  /** The number a digit string denotes; leading zeros do not matter. */
  function Value(s: string): nat
    requires AllDigits(s)
  {
    if s == "" then 0 else Value(s[..|s| - 1]) * 10 + DigitValue(s[|s| - 1])
  }

  /** `n.toString()` for a non-negative bigint. */
  function Show(n: nat): (s: string)
    ensures s != "" && AllDigits(s)
    ensures s[0] == '0' ==> s == "0"
  {
    if n < 10 then [DigitChar(n)] else Show(n / 10) + [DigitChar(n % 10)]
  }

  /** `n.toString()` for any bigint. */
  function ShowInt(n: int): string {
    if n < 0 then "-" + Show(-n) else Show(n)
  }

  /** BigInt division truncates toward zero. */
  function TruncDiv(a: int, b: int): int
    requires b > 0
  {
    if a >= 0 then a / b else -((-a) / b)
  }

  function Pow10(k: nat): (p: nat)
    ensures p > 0
  {
    if k == 0 then 1 else 10 * Pow10(k - 1)
  }

  lemma {:induction false} ValueOfShow(n: nat)
    ensures Value(Show(n)) == n
  {
    if n >= 10 {
      var s := Show(n);
      assert s[..|s| - 1] == Show(n / 10);
      ValueOfShow(n / 10);
    }
  }

  /** Canonical digit strings, those without a spare leading zero, are exactly what Show prints. */
  lemma {:induction false} ShowOfValue(s: string)
    requires AllDigits(s) && s != ""
    requires s[0] == '0' ==> s == "0"
    ensures Show(Value(s)) == s
  {
    if |s| == 1 {
      assert s[..0] == "";
      assert Value(s) == DigitValue(s[0]);
      assert s == [DigitChar(DigitValue(s[0]))];
    } else {
      var t := s[..|s| - 1];
      assert t[0] == s[0];
      ShowOfValue(t);
      ValuePositive(t);
      assert s == t + [s[|s| - 1]];
    }
  }

  lemma {:induction false} ValuePositive(s: string)
    requires AllDigits(s) && s != "" && s[0] != '0'
    ensures Value(s) > 0
  {
    if |s| > 1 {
      ValuePositive(s[..|s| - 1]);
    } else {
      assert s[..0] == "";
    }
  }

  lemma {:induction false} ValueAppend(a: string, b: string)
    requires AllDigits(a) && AllDigits(b)
    ensures AllDigits(a + b)
    ensures Value(a + b) == Value(a) * Pow10(|b|) + Value(b)
  {
    if b == "" {
      assert a + b == a;
    } else {
      var c := b[..|b| - 1];
      ValueAppend(a, c);
      assert (a + b)[..|a + b| - 1] == a + c;
      assert Value(a) * (10 * Pow10(|c|)) == (Value(a) * Pow10(|c|)) * 10;
    }
  }

  /** The text of n zeros. */
  function Zeros(n: nat): (s: string)
    ensures |s| == n && AllDigits(s)
  {
    if n == 0 then "" else Zeros(n - 1) + ['0']
  }

  lemma {:induction false} ValueOfZeros(n: nat)
    ensures Value(Zeros(n)) == 0
  {
    if n > 0 {
      assert Zeros(n)[..n - 1] == Zeros(n - 1);
      ValueOfZeros(n - 1);
    }
  }

  lemma {:induction false} ValueBound(s: string)
    requires AllDigits(s)
    ensures Value(s) < Pow10(|s|)
  {
    if s != "" {
      ValueBound(s[..|s| - 1]);
    }
  }

  // ── JavaScript white space ────────────────────────────────────────────────

  predicate IsSpace(c: char) {
    || '\U{0009}' <= c <= '\U{000D}'
    || c == ' ' || c == '\U{00A0}' || c == '\U{1680}'
    || '\U{2000}' <= c <= '\U{200A}'
    || c == '\U{2028}' || c == '\U{2029}' || c == '\U{202F}' || c == '\U{205F}'
    || c == '\U{3000}' || c == '\U{FEFF}'
  }

  function TrimStart(s: string): string {
    if s != "" && IsSpace(s[0]) then TrimStart(s[1..]) else s
  }

  function TrimEnd(s: string): string {
    if s != "" && IsSpace(s[|s| - 1]) then TrimEnd(s[..|s| - 1]) else s
  }

  function Trim(s: string): string {
    TrimEnd(TrimStart(s))
  }

  predicate Trimmed(s: string) {
    s == "" || (!IsSpace(s[0]) && !IsSpace(s[|s| - 1]))
  }

  lemma {:induction false} TrimStartShape(s: string)
    ensures TrimStart(s) == "" || !IsSpace(TrimStart(s)[0])
    ensures |TrimStart(s)| <= |s| && TrimStart(s) == s[|s| - |TrimStart(s)|..]
  {
    if s != "" && IsSpace(s[0]) {
      TrimStartShape(s[1..]);
    }
  }

  lemma {:induction false} TrimEndShape(s: string)
    ensures TrimEnd(s) == "" || !IsSpace(TrimEnd(s)[|TrimEnd(s)| - 1])
    ensures TrimEnd(s) <= s
  {
    if s != "" && IsSpace(s[|s| - 1]) {
      TrimEndShape(s[..|s| - 1]);
    }
  }

  /** Trimming leaves no outer white space, and does nothing exactly when there was none. */
  lemma TrimShape(s: string)
    ensures Trimmed(Trim(s))
    ensures Trim(s) == s <==> Trimmed(s)
  {
    TrimStartShape(s);
    TrimEndShape(TrimStart(s));
  }

  // ── BigInt(text) ──────────────────────────────────────────────────────────

  function RadixDigit(c: char): (d: nat)
    ensures d <= 16
  {
    if '0' <= c <= '9' then c as int - '0' as int
    else if 'a' <= c <= 'f' then c as int - 'a' as int + 10
    else if 'A' <= c <= 'F' then c as int - 'A' as int + 10
    else 16
  }

  /** The lower-case hexadecimal digit of a number. */
  function HexDigit(d: nat): (c: char)
    requires d < 16
    ensures RadixDigit(c) == d
  {
    if d < 10 then ('0' as int + d) as char else ('a' as int + d - 10) as char
  }

  function RadixValue(s: string, radix: nat): Option<nat> {
    if s == "" then Some(0)
    else
      var head := RadixValue(s[..|s| - 1], radix);
      var d := RadixDigit(s[|s| - 1]);
      if head.None? || d >= radix then None else Some(head.value * radix + d)
  }

  predicate Prefixed(s: string, lower: char, upper: char) {
    |s| > 2 && s[0] == '0' && (s[1] == lower || s[1] == upper)
  }

  /**
   StringToBigInt: outer white space is ignored, the empty text is zero, a 0x,
   0o or 0b prefix selects the radix, and only decimal text may carry a sign.
   None is the SyntaxError.
   */
  function BigIntOf(text: string): Option<int> {
    var s := Trim(text);
    if s == "" then Some(0)
    else if Prefixed(s, 'x', 'X') then RadixValue(s[2..], 16)
    else if Prefixed(s, 'o', 'O') then RadixValue(s[2..], 8)
    else if Prefixed(s, 'b', 'B') then RadixValue(s[2..], 2)
    else if |s| > 1 && s[0] == '-' && AllDigits(s[1..]) then Some(0 - Value(s[1..]))
    else if |s| > 1 && s[0] == '+' && AllDigits(s[1..]) then Some(Value(s[1..]))
    else if AllDigits(s) then Some(Value(s))
    else None
  }

  /** Digit text reads as its decimal value, leading zeros and all. */
  lemma BigIntOfDigits(s: string)
    requires AllDigits(s) && s != ""
    ensures BigIntOf(s) == Some(Value(s))
  {
    assert IsDigit(s[0]) && IsDigit(s[|s| - 1]);
    TrimShape(s);
    assert |s| > 1 ==> IsDigit(s[1]);
  }

  /** `BigInt(n.toString()) === n`. */
  lemma BigIntOfShow(n: nat)
    ensures BigIntOf(Show(n)) == Some(n)
  {
    BigIntOfDigits(Show(n));
    ValueOfShow(n);
  }

  lemma BigIntOfMinus(t: string)
    requires |t| > 1 && t[0] == '-' && AllDigits(t[1..])
    ensures BigIntOf(t) == Some(0 - Value(t[1..]))
  {
    assert IsDigit(t[1..][|t| - 2]);
    TrimShape(t);
  }

  lemma BigIntOfShowInt(n: int)
    ensures BigIntOf(ShowInt(n)) == Some(n)
  {
    hide BigIntOf;
    if n >= 0 {
      BigIntOfShow(n);
    } else {
      ValueOfShow(-n);
      assert ("-" + Show(-n))[1..] == Show(-n);
      BigIntOfMinus("-" + Show(-n));
    }
  }

  /** A radix prefix, in either case, hands the rest of the text to its radix. */
  lemma {:induction false} PrefixSelectsRadix(prefix: string, s: string, radix: nat)
    requires
      || (radix == 16 && (prefix == "0x" || prefix == "0X"))
      || (radix == 8 && (prefix == "0o" || prefix == "0O"))
      || (radix == 2 && (prefix == "0b" || prefix == "0B"))
    requires s != "" && !IsSpace(s[|s| - 1])
    ensures BigIntOf(prefix + s) == RadixValue(s, radix)
  {
    var t := prefix + s;
    assert t[0] == '0' && t[1] == prefix[1] && t[|t| - 1] == s[|s| - 1] && t[2..] == s;
    TrimShape(t);
    hide Trim;
    hide RadixValue;
  }

  /** Two digits, in either case, are read by position. */
  lemma {:induction false} RadixOfTwo(s: string, radix: nat)
    requires |s| == 2 && RadixDigit(s[0]) < radix && RadixDigit(s[1]) < radix
    ensures RadixValue(s, radix) == Some(RadixDigit(s[0]) * radix + RadixDigit(s[1]))
  {
    assert s[..1][..0] == "" && s[..1][0] == s[0];
    assert RadixValue(s[..1], radix) == Some(RadixDigit(s[0]));
  }
}
