/**
 The training curriculum: how iterations are dealt out over a ladder of
 difficulties.
 */
module Curriculum {
  import opened Arithmetic

  function Max1(n: nat): (m: nat)
    ensures m > 0
  {
    if n > 1 then n else 1
  }

  /** The rung used in an iteration, as the source computes it. */
  function Rung(iteration: nat, total: nat, rungs: nat): nat
    requires rungs > 0
  {
    var raw := iteration * rungs / Max1(total);
    if raw < rungs - 1 then raw else rungs - 1
  }

  // ── Division ──────────────────────────────────────────────────────────────

  lemma MulOrder(x: int, y: int, b: nat)
    requires b > 0
    ensures x < y <==> x * b < y * b
  {
    assert (y - x) * b == y * b - x * b;
  }

  lemma {:induction false} DivUnique(a: nat, b: nat, q: int)
    requires b > 0
    ensures a / b == q <==> q * b <= a < q * b + b
  {
    var p := a / b;
    assert p * b <= a < p * b + b;
    MulOrder(p, q + 1, b);
    MulOrder(q, p + 1, b);
    assert (p + 1) * b == p * b + b && (q + 1) * b == q * b + b;
  }

  lemma {:induction false} CeilDivLeast(a: nat, b: nat, i: int)
    requires b > 0
    ensures i >= CeilDiv(a, b) <==> i * b >= a
  {
    var c := CeilDiv(a, b);
    DivUnique(a + b - 1, b, c);
    MulOrder(i, c, b);
    MulOrder(i + 1, c, b);
    assert (i + 1) * b == i * b + b;
  }

  // ── The rung of an iteration ──────────────────────────────────────────────

  /** The min in the source never decides. */
  lemma {:induction false} RawRung(iteration: nat, total: nat, rungs: nat)
    requires rungs > 0 && iteration < total
    ensures Rung(iteration, total, rungs) == iteration * rungs / total < rungs
  {
    MulOrder(iteration, total, rungs);
    var q := iteration * rungs / total;
    DivUnique(iteration * rungs, total, q);
    MulOrder(q, rungs, total);
    SwapFactors(total, rungs);
    assert q * total < rungs * total;
    assert Max1(total) == total;
  }

  lemma SwapFactors(a: nat, b: nat)
    ensures a * b == b * a
  {
  }

  /** A rung is used exactly between two rounded marks. */
  lemma {:induction false} RungBetween(iteration: nat, total: nat, rungs: nat, k: nat)
    requires rungs > 0 && iteration < total && k < rungs
    ensures Rung(iteration, total, rungs) == k <==>
      CeilDiv(k * total, rungs) <= iteration < CeilDiv(k * total + total, rungs)
  {
    RawRung(iteration, total, rungs);
    hide Rung;
    DivUnique(iteration * rungs, total, k);
    CeilDivLeast(k * total, rungs, iteration);
    CeilDivLeast(k * total + total, rungs, iteration);
  }

  /** The ladder is only ever climbed, and stays on its rungs. */
  lemma {:induction false} NeverEasier(iteration: nat, later: nat, total: nat, rungs: nat)
    requires rungs > 0 && iteration <= later < total
    ensures Rung(iteration, total, rungs) <= Rung(later, total, rungs) < rungs
  {
    var p, q := Rung(iteration, total, rungs), Rung(later, total, rungs);
    RawRung(iteration, total, rungs);
    RawRung(later, total, rungs);
    hide Rung;
    DivUnique(iteration * rungs, total, p);
    DivUnique(later * rungs, total, q);
    MulOrder(later, iteration, rungs);
    MulOrder(p, q + 1, total);
    assert (q + 1) * total == q * total + total;
  }

  // ── Equal time ────────────────────────────────────────────────────────────

  /** How many of the first n iterations use rung k. */
  function TimesUsed(n: nat, total: nat, rungs: nat, k: nat): nat
    requires rungs > 0
  {
    if n == 0 then 0
    else TimesUsed(n - 1, total, rungs, k) + (if Rung(n - 1, total, rungs) == k then 1 else 0)
  }

  function Within(n: nat, low: nat, high: nat): nat
    requires low <= high
  {
    if n <= low then 0 else if n <= high then n - low else high - low
  }

  lemma {:induction false} TimesUsedWithin(n: nat, total: nat, rungs: nat, k: nat, low: nat, high: nat)
    requires rungs > 0 && n <= total && k < rungs
    requires low == CeilDiv(k * total, rungs) <= high == CeilDiv(k * total + total, rungs)
    ensures TimesUsed(n, total, rungs, k) == Within(n, low, high)
  {
    hide CeilDiv;
    hide Rung;
    if n > 0 {
      TimesUsedWithin(n - 1, total, rungs, k, low, high);
      RungBetween(n - 1, total, rungs, k);
    }
  }

  lemma {:induction false} Spread(a: nat, total: nat, rungs: nat)
    requires rungs > 0
    ensures total / rungs <= CeilDiv(a + total, rungs) - CeilDiv(a, rungs) <= CeilDiv(total, rungs)
  {
    var q, c, s, low := total / rungs, CeilDiv(total, rungs), CeilDiv(a + total, rungs), CeilDiv(a, rungs);
    CeilDivLeast(a, rungs, low);
    CeilDivLeast(total, rungs, c);
    CeilDivLeast(a + total, rungs, s);
    DivUnique(total, rungs, q);
    assert (low + c) * rungs == low * rungs + c * rungs;
    CeilDivLeast(a + total, rungs, low + c);
    assert (s - q) * rungs == s * rungs - q * rungs;
    CeilDivLeast(a, rungs, s - q);
  }

  lemma {:induction false} LastMark(total: nat, rungs: nat, k: nat)
    requires rungs > 0 && k < rungs
    ensures CeilDiv(k * total + total, rungs) <= total
  {
    assert k * total + total == (k + 1) * total;
    if total > 0 {
      MulOrder(rungs, k + 1, total);
    }
    SwapFactors(total, rungs);
    CeilDivLeast(k * total + total, rungs, total);
  }

  /** Every rung is used floor(total / rungs) or ceil(total / rungs) times. */
  lemma {:induction false} EqualTime(total: nat, rungs: nat, k: nat)
    requires rungs > 0 && k < rungs
    ensures total / rungs <= TimesUsed(total, total, rungs, k) <= CeilDiv(total, rungs)
  {
    hide CeilDiv;
    hide TimesUsed;
    var low, high := CeilDiv(k * total, rungs), CeilDiv(k * total + total, rungs);
    Spread(k * total, total, rungs);
    LastMark(total, rungs, k);
    TimesUsedWithin(total, total, rungs, k, low, high);
  }
}
