/**
 Measured behaviour to traits (cap-v1): the counters summed over episodes, the
 components, the scores, and the proof that genuine play keeps every one of them
 on its scale. The action entropy is a parameter.
 */
module Traits {
  import opened Prelude
  import opened Battle
  import opened Rollout

  /** Counters summed over episodes. */
  datatype Totals = Totals(
    episodes: nat,
    wins: nat,
    steps: nat,
    attackAttempts: nat,
    attackHits: nat,
    abilityAttempts: nat,
    abilityHits: nat,
    damageDealt: real,
    damageTaken: real,
    hpRetained: real,
    fleeUses: nat,
    fleeWhileLowHp: nat,
    healUses: nat,
    healWhileUseful: nat,
    totalReward: real,
    actionCounts: seq<nat>)

  const NOTHING := Totals(0, 0, 0, 0, 0, 0, 0, 0.0, 0.0, 0.0, 0, 0, 0, 0, 0.0, [0, 0, 0, 0, 0, 0, 0])

  function AddCounts(xs: seq<nat>, ys: seq<nat>): (r: seq<nat>)
    requires |xs| == |ys| == 7
    ensures |r| == 7 && TotalActions(r) == TotalActions(xs) + TotalActions(ys)
  {
    [xs[0] + ys[0], xs[1] + ys[1], xs[2] + ys[2], xs[3] + ys[3], xs[4] + ys[4], xs[5] + ys[5], xs[6] + ys[6]]
  }

  function Plus(t: Totals, m: EpisodeMetrics): Totals
    requires |t.actionCounts| == |m.actionCounts| == 7
  {
    Totals(t.episodes + 1, t.wins + One(m.won), t.steps + m.steps,
           t.attackAttempts + m.attackAttempts, t.attackHits + m.attackHits,
           t.abilityAttempts + m.abilityAttempts, t.abilityHits + m.abilityHits,
           t.damageDealt + m.damageDealt, t.damageTaken + m.damageTaken, t.hpRetained + m.hpRetained,
           t.fleeUses + m.fleeUses, t.fleeWhileLowHp + m.fleeWhileLowHp,
           t.healUses + m.healUses, t.healWhileUseful + m.healWhileUseful,
           t.totalReward + m.totalReward, AddCounts(t.actionCounts, m.actionCounts))
  }

  predicate Counted(episodes: seq<EpisodeMetrics>) {
    forall i :: 0 <= i < |episodes| ==> |episodes[i].actionCounts| == 7
  }

  function TotalsOf(episodes: seq<EpisodeMetrics>): (t: Totals)
    requires Counted(episodes)
    ensures |t.actionCounts| == 7 && t.episodes == |episodes|
  {
    if episodes == [] then NOTHING else Plus(TotalsOf(episodes[..|episodes| - 1]), episodes[|episodes| - 1])
  }

  method AggregateCounters(episodes: seq<EpisodeMetrics>) returns (t: Totals)
    requires Counted(episodes)
    ensures t == TotalsOf(episodes)
  {
    t := NOTHING;
    for i := 0 to |episodes|
      invariant t == TotalsOf(episodes[..i])
    {
      assert episodes[..i + 1][..i] == episodes[..i];
      t := Plus(t, episodes[i]);
    }
    assert episodes[..|episodes|] == episodes;
  }

  // ── Scores ────────────────────────────────────────────────────────────────

  /** Python's round: halves go to the even neighbour. */
  function Round(x: real): int {
    var f := x.Floor;
    if x - f as real < 0.5 || (x - f as real == 0.5 && f % 2 == 0) then f else f + 1
  }

  function ClampScore(x: real): int {
    Round(Max(0.0, Min(1.0, x)) * 100.0)
  }

  function SafeRatio(n: real, d: real): real {
    if d > 0.0 then n / d else 0.0
  }

  datatype Components = Components(precision: real, winRate: real, survivability: real, efficiency: real)

  const EFFICIENCY_SATURATION_DPS := 0.10
  const PATIENCE_SATURATION_STEPS := 150.0

  function ComponentsOf(t: Totals): Components
    requires t.episodes > 0
  {
    Components(
      SafeRatio((t.attackHits + t.abilityHits) as real, (t.attackAttempts + t.abilityAttempts) as real),
      SafeRatio(t.wins as real, t.episodes as real),
      Max(0.0, Min(1.0, t.hpRetained / t.episodes as real)),
      Min(1.0, SafeRatio(t.damageDealt, t.steps as real) / EFFICIENCY_SATURATION_DPS))
  }

  function CombatSkill(c: Components): real {
    0.35 * c.precision + 0.30 * c.winRate + 0.20 * c.survivability + 0.15 * c.efficiency
  }

  /** The six traits this simulator can measure, before they become scores. */
  datatype RawTraits = RawTraits(
    aggression: real, patience: real, adaptability: real, resilience: real, creativity: real, precision: real)

  function RawTraitsOf(t: Totals, entropy: real): RawTraits
    requires t.episodes > 0
  {
    var c := ComponentsOf(t);
    RawTraits(
      SafeRatio((t.attackAttempts + t.abilityAttempts) as real, t.steps as real),
      Min(1.0, t.steps as real / t.episodes as real / PATIENCE_SATURATION_STEPS),
      SafeRatio((t.fleeWhileLowHp + t.healWhileUseful) as real, (t.fleeUses + t.healUses) as real),
      c.winRate * Min(1.0, 0.5 + SafeRatio(t.damageTaken, t.episodes as real)),
      entropy,
      c.precision)
  }

  datatype Measurement = Measurement(
    combatSkill: int, aggression: int, patience: int, adaptability: int, resilience: int, creativity: int,
    precision: int)

  function Scored(skill: real, raw: RawTraits): Measurement {
    Measurement(ClampScore(skill), ClampScore(raw.aggression), ClampScore(raw.patience),
                ClampScore(raw.adaptability), ClampScore(raw.resilience), ClampScore(raw.creativity),
                ClampScore(raw.precision))
  }

  datatype MeasureError = NoEpisodes

  /** measure. The entropy function is the source's, of the summed action counts. */
  function Measure(episodes: seq<EpisodeMetrics>, entropy: seq<nat> -> real): Result<Measurement, MeasureError>
    requires Counted(episodes)
  {
    var t := TotalsOf(episodes);
    if t.episodes == 0 then Err(NoEpisodes)
    else
      Ok(Scored(CombatSkill(ComponentsOf(t)), RawTraitsOf(t, entropy(t.actionCounts))))
  }

  // ── Genuine play stays on the scale ───────────────────────────────────────

  predicate Unit(x: real) {
    0.0 <= x <= 1.0
  }

  predicate UnitTraits(raw: RawTraits) {
    && Unit(raw.aggression) && Unit(raw.patience) && Unit(raw.adaptability) && Unit(raw.resilience)
    && Unit(raw.creativity) && Unit(raw.precision)
  }

  predicate AllGenuine(episodes: seq<EpisodeMetrics>) {
    forall i :: 0 <= i < |episodes| ==> Genuine(episodes[i])
  }

  predicate Sound(t: Totals) {
    && t.episodes <= t.steps
    && t.attackHits <= t.attackAttempts && t.abilityHits <= t.abilityAttempts
    && t.attackAttempts + t.abilityAttempts <= t.steps
    && t.fleeWhileLowHp <= t.fleeUses && t.healWhileUseful <= t.healUses
    && 0.0 <= t.damageDealt && t.wins as real <= t.damageDealt <= t.episodes as real
    && 0.0 <= t.hpRetained <= t.episodes as real && t.damageTaken >= 0.0
  }

  /** Every win is a whole enemy's worth of damage, and no episode deals more: wins <= damage <= episodes. */
  lemma {:induction false} TotalsAreSound(episodes: seq<EpisodeMetrics>)
    requires AllGenuine(episodes)
    ensures Sound(TotalsOf(episodes))
    ensures TotalActions(TotalsOf(episodes).actionCounts) == TotalsOf(episodes).steps
  {
    if episodes != [] {
      TotalsAreSound(episodes[..|episodes| - 1]);
      assert Genuine(episodes[|episodes| - 1]);
    }
  }

  lemma RatioIsUnit(n: real, d: real)
    requires 0.0 <= n <= d
    ensures Unit(SafeRatio(n, d))
  {
  }

  lemma ProductIsUnit(x: real, y: real)
    requires Unit(x) && Unit(y)
    ensures Unit(x * y)
  {
    assert x * y <= 1.0 * y;
  }

  lemma ComponentsAreUnit(t: Totals)
    requires t.episodes > 0 && Sound(t)
    ensures
      var c := ComponentsOf(t);
      Unit(c.precision) && Unit(c.winRate) && Unit(c.survivability) && Unit(c.efficiency) && Unit(CombatSkill(c))
    ensures ComponentsOf(t).survivability == t.hpRetained / t.episodes as real
  {
    RatioIsUnit((t.attackHits + t.abilityHits) as real, (t.attackAttempts + t.abilityAttempts) as real);
    RatioIsUnit(t.wins as real, t.episodes as real);
    RatioIsUnit(t.hpRetained, t.episodes as real);
    assert t.steps > 0;
    RatioIsUnit(t.damageDealt, t.steps as real);
  }

  lemma {:induction false} TraitsAreUnit(t: Totals, entropy: real)
    requires t.episodes > 0 && Sound(t) && Unit(entropy)
    ensures UnitTraits(RawTraitsOf(t, entropy))
  {
    ComponentsAreUnit(t);
    RatioIsUnit((t.attackAttempts + t.abilityAttempts) as real, t.steps as real);
    RatioIsUnit((t.fleeWhileLowHp + t.healWhileUseful) as real, (t.fleeUses + t.healUses) as real);
    assert t.steps as real / t.episodes as real >= 0.0;
    assert SafeRatio(t.damageTaken, t.episodes as real) >= 0.0;
    ProductIsUnit(ComponentsOf(t).winRate, Min(1.0, 0.5 + SafeRatio(t.damageTaken, t.episodes as real)));
  }

  /** The weights sum to one: combat skill lies between its least and its greatest component. */
  lemma SkillBetween(c: Components, low: real, high: real)
    requires low <= c.precision <= high && low <= c.winRate <= high
    requires low <= c.survivability <= high && low <= c.efficiency <= high
    ensures low <= CombatSkill(c) <= high
  {
  }

  /** On the unit interval the clamp changes nothing and the score is the nearest percentage. */
  lemma ScoreIsFaithful(x: real)
    requires Unit(x)
    ensures ClampScore(x) == Round(x * 100.0) && 0 <= ClampScore(x) <= 100
    ensures -0.5 <= ClampScore(x) as real - x * 100.0 <= 0.5
  {
  }

  predicate OnScale(m: Measurement) {
    && 0 <= m.combatSkill <= 100
    && 0 <= m.aggression <= 100 && 0 <= m.patience <= 100 && 0 <= m.adaptability <= 100
    && 0 <= m.resilience <= 100 && 0 <= m.creativity <= 100 && 0 <= m.precision <= 100
  }

  /** The scores are the raw values rounded, with nothing clamped away. */
  predicate Nearest(m: Measurement, skill: real, raw: RawTraits) {
    && m.combatSkill == Round(skill * 100.0)
    && m.aggression == Round(raw.aggression * 100.0)
    && m.patience == Round(raw.patience * 100.0)
    && m.adaptability == Round(raw.adaptability * 100.0)
    && m.resilience == Round(raw.resilience * 100.0)
    && m.creativity == Round(raw.creativity * 100.0)
    && m.precision == Round(raw.precision * 100.0)
  }

  lemma ScoredOnScale(skill: real, raw: RawTraits)
    requires Unit(skill) && UnitTraits(raw)
    ensures OnScale(Scored(skill, raw)) && Nearest(Scored(skill, raw), skill, raw)
  {
    ScoreIsFaithful(skill);
    ScoreIsFaithful(raw.aggression);
    ScoreIsFaithful(raw.patience);
    ScoreIsFaithful(raw.adaptability);
    ScoreIsFaithful(raw.resilience);
    ScoreIsFaithful(raw.creativity);
    ScoreIsFaithful(raw.precision);
    hide ClampScore;
    hide Round;
  }

  /** Genuine play is measured without any clamp taking effect. */
  lemma {:induction false} MeasuredFaithfully(episodes: seq<EpisodeMetrics>, entropy: seq<nat> -> real)
    requires AllGenuine(episodes) && episodes != [] && Unit(entropy(TotalsOf(episodes).actionCounts))
    ensures Measure(episodes, entropy).Ok? && OnScale(Measure(episodes, entropy).value)
    ensures
      var t := TotalsOf(episodes);
      t.wins as real <= t.damageDealt <= t.episodes as real
      && Nearest(Measure(episodes, entropy).value, CombatSkill(ComponentsOf(t)),
                 RawTraitsOf(t, entropy(t.actionCounts)))
  {
    hide ComponentsOf;
    hide RawTraitsOf;
    hide CombatSkill;
    hide TotalsOf;
    hide ClampScore;
    hide Nearest;
    hide OnScale;
    var t := TotalsOf(episodes);
    TotalsAreSound(episodes);
    ComponentsAreUnit(t);
    TraitsAreUnit(t, entropy(t.actionCounts));
    ScoredOnScale(CombatSkill(ComponentsOf(t)), RawTraitsOf(t, entropy(t.actionCounts)));
  }

  lemma {:induction false} RoundTies(y: real, k: int)
    requires y == k as real + 0.5
    ensures Round(y) % 2 == 0
  {
    assert y.Floor == k;
  }

  lemma {:induction false} RoundNear(y: real, k: int)
    requires k as real - 0.5 < y < k as real + 0.5
    ensures Round(y) == k
  {
    assert y.Floor == (if y >= k as real then k else k - 1);
  }

  /** A value half way between two percentages takes the even one, any other the nearer. */
  lemma {:induction false} ScoreTies(x: real, k: nat)
    requires Unit(x)
    ensures x * 100.0 == k as real + 0.5 ==> ClampScore(x) % 2 == 0
    ensures k as real - 0.5 < x * 100.0 < k as real + 0.5 ==> ClampScore(x) == k
  {
    var y := x * 100.0;
    ScoreIsFaithful(x);
    hide ClampScore;
    if y == k as real + 0.5 {
      RoundTies(y, k);
    }
    if k as real - 0.5 < y < k as real + 0.5 {
      RoundNear(y, k);
    }
    hide Round;
  }

  /** Whatever the counters say, a score and the hit points kept are cut off at both ends of their scale. */
  lemma {:induction false} CutAtBothEnds(x: real, t: Totals)
    requires t.episodes > 0
    ensures x >= 1.0 ==> ClampScore(x) == 100
    ensures x <= 0.0 ==> ClampScore(x) == 0
    ensures t.hpRetained >= t.episodes as real ==> ComponentsOf(t).survivability == 1.0
    ensures t.hpRetained <= 0.0 ==> ComponentsOf(t).survivability == 0.0
  {
    if x >= 1.0 {
      assert Max(0.0, Min(1.0, x)) == 1.0;
    }
    var h, n := t.hpRetained, t.episodes as real;
    assert h / n * n == h;
    assert h >= n ==> h / n >= 1.0;
    assert h <= 0.0 ==> h / n <= 0.0;
  }

  /** The four weights: what a gain in one component alone adds to the skill. */
  lemma {:induction false} WeightsAreFixed(c: Components, x: real)
    ensures CombatSkill(c.(precision := c.precision + x)) - CombatSkill(c) == 35.0 / 100.0 * x
    ensures CombatSkill(c.(winRate := c.winRate + x)) - CombatSkill(c) == 30.0 / 100.0 * x
    ensures CombatSkill(c.(survivability := c.survivability + x)) - CombatSkill(c) == 20.0 / 100.0 * x
    ensures CombatSkill(c.(efficiency := c.efficiency + x)) - CombatSkill(c) == 15.0 / 100.0 * x
    ensures CombatSkill(Components(0.0, 0.0, 0.0, 0.0)) == 0.0
  {
  }

  // ── The totals are sums ───────────────────────────────────────────────────

  function SumNat(episodes: seq<EpisodeMetrics>, of: EpisodeMetrics -> nat): nat {
    if episodes == [] then 0 else SumNat(episodes[..|episodes| - 1], of) + of(episodes[|episodes| - 1])
  }

  function SumReal(episodes: seq<EpisodeMetrics>, of: EpisodeMetrics -> real): real {
    if episodes == [] then 0.0 else SumReal(episodes[..|episodes| - 1], of) + of(episodes[|episodes| - 1])
  }

  ghost predicate CountersAdd(t: Totals, es: seq<EpisodeMetrics>) {
    && t.episodes == |es|
    && t.wins == SumNat(es, (m: EpisodeMetrics) => if m.won then 1 else 0)
    && t.steps == SumNat(es, (m: EpisodeMetrics) => m.steps)
    && t.attackAttempts == SumNat(es, (m: EpisodeMetrics) => m.attackAttempts)
    && t.attackHits == SumNat(es, (m: EpisodeMetrics) => m.attackHits)
    && t.abilityAttempts == SumNat(es, (m: EpisodeMetrics) => m.abilityAttempts)
    && t.abilityHits == SumNat(es, (m: EpisodeMetrics) => m.abilityHits)
  }

  ghost predicate AmountsAdd(t: Totals, es: seq<EpisodeMetrics>) {
    && t.fleeUses == SumNat(es, (m: EpisodeMetrics) => m.fleeUses)
    && t.fleeWhileLowHp == SumNat(es, (m: EpisodeMetrics) => m.fleeWhileLowHp)
    && t.healUses == SumNat(es, (m: EpisodeMetrics) => m.healUses)
    && t.healWhileUseful == SumNat(es, (m: EpisodeMetrics) => m.healWhileUseful)
    && t.damageDealt == SumReal(es, (m: EpisodeMetrics) => m.damageDealt)
    && t.damageTaken == SumReal(es, (m: EpisodeMetrics) => m.damageTaken)
    && t.hpRetained == SumReal(es, (m: EpisodeMetrics) => m.hpRetained)
    && t.totalReward == SumReal(es, (m: EpisodeMetrics) => m.totalReward)
  }

  /** Each total is the sum of that number over the episodes, action by action for the action counts. */
  lemma {:induction false} TotalsAreSums(episodes: seq<EpisodeMetrics>)
    requires Counted(episodes)
    ensures CountersAdd(TotalsOf(episodes), episodes) && AmountsAdd(TotalsOf(episodes), episodes)
  {
    if episodes != [] {
      TotalsAreSums(episodes[..|episodes| - 1]);
    }
  }

  lemma {:induction false} ActionsAreSums(episodes: seq<EpisodeMetrics>, k: nat)
    requires Counted(episodes) && k < 7
    ensures TotalsOf(episodes).actionCounts[k]
      == SumNat(episodes, (m: EpisodeMetrics) => if k < |m.actionCounts| then m.actionCounts[k] else 0)
  {
    if episodes != [] {
      ActionsAreSums(episodes[..|episodes| - 1], k);
      assert |episodes[|episodes| - 1].actionCounts| == 7;
    }
  }

  // ── What the scores measure ───────────────────────────────────────────────

  /** The ratios behind the scores. */
  datatype Ratios = Ratios(
    precision: real, winRate: real, survivability: real, efficiency: real,
    aggression: real, patience: real, adaptability: real, absorbed: real)

  /** r is the share that the part is of the whole; of nothing it is zero. */
  predicate Share(r: real, part: real, whole: real) {
    r * whole == part && (whole == 0.0 ==> r == 0.0)
  }

  /** The same share, cut off at one. */
  predicate CutShare(r: real, part: real, whole: real) {
    if part >= whole then r == 1.0 else r * whole == part
  }

  /**
   What each ratio is, as an equation on counters: the share of attempts that hit, of
   episodes won, of steps spent attacking, of situational actions used in time; mean
   hit points kept; damage a step against a tenth, length against 150 steps, and a
   half more than the damage taken an episode, each of these cut off at one.
   */
  ghost predicate Solves(t: Totals, r: Ratios) {
    var attempts, hits := t.attackAttempts + t.abilityAttempts, t.attackHits + t.abilityHits;
    var uses, timely := t.fleeUses + t.healUses, t.fleeWhileLowHp + t.healWhileUseful;
    && Share(r.precision, hits as real, attempts as real)
    && Share(r.winRate, t.wins as real, t.episodes as real)
    && Share(r.survivability, t.hpRetained, t.episodes as real)
    && CutShare(r.efficiency, t.damageDealt * 10.0, t.steps as real)
    && Share(r.aggression, attempts as real, t.steps as real)
    && CutShare(r.patience, t.steps as real, t.episodes as real * 150.0)
    && Share(r.adaptability, timely as real, uses as real)
    && CutShare(r.absorbed, t.damageTaken + t.episodes as real * 0.5, t.episodes as real)
  }

  lemma {:induction false} RatioIsShare(n: real, d: real)
    requires 0.0 <= n <= d
    ensures Share(SafeRatio(n, d), n, d)
  {
  }

  lemma {:induction false} CutIsShare(n: real, d: real)
    requires d > 0.0
    ensures CutShare(Min(1.0, n / d), n, d)
  {
    assert n / d * d == n;
    assert n >= d <==> n / d >= 1.0;
  }

  lemma {:induction false} EfficiencyShare(x: real, d: real)
    requires d > 0.0
    ensures CutShare(Min(1.0, SafeRatio(x, d) / 0.10), x * 10.0, d)
  {
    assert x / d / 0.10 == x * 10.0 / d by {
      assert x / d / 0.10 == x / d * 10.0;
    }
    CutIsShare(x * 10.0, d);
  }

  lemma {:induction false} PatienceShare(x: real, d: real)
    requires d > 0.0
    ensures CutShare(Min(1.0, x / d / 150.0), x, d * 150.0)
  {
    assert x / d / 150.0 == x / (d * 150.0) by {
      assert x / d / 150.0 * (d * 150.0) == x;
    }
    CutIsShare(x, d * 150.0);
  }

  lemma {:induction false} AbsorbedShare(x: real, d: real)
    requires d > 0.0
    ensures CutShare(Min(1.0, 0.5 + SafeRatio(x, d)), x + d * 0.5, d)
  {
    var q := x / d;
    assert q * d == x && (0.5 + q) * d == x + d * 0.5;
    assert 0.5 + q >= 1.0 <==> x + d * 0.5 >= d by {
      assert 0.5 + q >= 1.0 <==> (q - 0.5) * d >= 0.0;
    }
  }

  function RatiosOf(t: Totals): Ratios
    requires t.episodes > 0
  {
    var attempts, hits := t.attackAttempts + t.abilityAttempts, t.attackHits + t.abilityHits;
    Ratios(
      SafeRatio(hits as real, attempts as real),
      SafeRatio(t.wins as real, t.episodes as real),
      SafeRatio(t.hpRetained, t.episodes as real),
      Min(1.0, SafeRatio(t.damageDealt, t.steps as real) / 0.10),
      SafeRatio(attempts as real, t.steps as real),
      Min(1.0, t.steps as real / t.episodes as real / 150.0),
      SafeRatio((t.fleeWhileLowHp + t.healWhileUseful) as real, (t.fleeUses + t.healUses) as real),
      Min(1.0, 0.5 + SafeRatio(t.damageTaken, t.episodes as real)))
  }

  lemma {:induction false} RatiosSolve(t: Totals)
    requires t.episodes > 0 && Sound(t)
    ensures Solves(t, RatiosOf(t))
  {
    hide Share;
    hide CutShare;
    hide SafeRatio;
    hide Min;
    RatioIsShare((t.attackHits + t.abilityHits) as real, (t.attackAttempts + t.abilityAttempts) as real);
    RatioIsShare(t.wins as real, t.episodes as real);
    RatioIsShare(t.hpRetained, t.episodes as real);
    EfficiencyShare(t.damageDealt, t.steps as real);
    RatioIsShare((t.attackAttempts + t.abilityAttempts) as real, t.steps as real);
    PatienceShare(t.steps as real, t.episodes as real);
    RatioIsShare((t.fleeWhileLowHp + t.healWhileUseful) as real, (t.fleeUses + t.healUses) as real);
    AbsorbedShare(t.damageTaken, t.episodes as real);
  }

  lemma {:induction false} RatiosAreMeasured(t: Totals, entropy: real)
    requires t.episodes > 0 && Sound(t)
    ensures
      var c, r := ComponentsOf(t), RatiosOf(t);
      c == Components(r.precision, r.winRate, r.survivability, r.efficiency)
      && RawTraitsOf(t, entropy)
         == RawTraits(r.aggression, r.patience, r.adaptability, r.winRate * r.absorbed, entropy, r.precision)
  {
    ComponentsAreUnit(t);
    assert SafeRatio(t.hpRetained, t.episodes as real) == t.hpRetained / t.episodes as real;
    hide Min;
    hide Max;
    hide SafeRatio;
  }

  lemma {:induction false} SkillInHundredths(p: real, w: real, s: real, e: real)
    ensures CombatSkill(Components(p, w, s, e)) == (35.0 * p + 30.0 * w + 20.0 * s + 15.0 * e) / 100.0
  {
  }

  /**
   Every score of genuine play, from the counters alone: the skill is 35, 30, 20 and
   15 hundredths of precision, win rate, hit points kept and efficiency, each trait is
   its ratio, resilience the win rate times the damage absorbed, all rounded to the
   nearest percentage.
   */
  lemma {:induction false} MeasuredInNumbers(episodes: seq<EpisodeMetrics>, entropy: seq<nat> -> real)
    returns (r: Ratios)
    requires AllGenuine(episodes) && episodes != [] && Unit(entropy(TotalsOf(episodes).actionCounts))
    ensures Solves(TotalsOf(episodes), r) && Measure(episodes, entropy).Ok?
    ensures
      var m := Measure(episodes, entropy).value;
      var skill := (35.0 * r.precision + 30.0 * r.winRate + 20.0 * r.survivability + 15.0 * r.efficiency) / 100.0;
      && m.combatSkill == Round(skill * 100.0)
      && m.aggression == Round(r.aggression * 100.0)
      && m.patience == Round(r.patience * 100.0)
      && m.adaptability == Round(r.adaptability * 100.0)
      && m.resilience == Round(r.winRate * r.absorbed * 100.0)
      && m.creativity == Round(entropy(TotalsOf(episodes).actionCounts) * 100.0)
      && m.precision == Round(r.precision * 100.0)
  {
    hide TotalsOf;
    hide ComponentsOf;
    hide RawTraitsOf;
    hide Measure;
    hide Round;
    hide OnScale;
    hide RatiosOf;
    hide Solves;
    hide Sound;
    var t := TotalsOf(episodes);
    TotalsAreSound(episodes);
    MeasuredFaithfully(episodes, entropy);
    r := RatiosOf(t);
    RatiosSolve(t);
    RatiosAreMeasured(t, entropy(t.actionCounts));
    SkillInHundredths(r.precision, r.winRate, r.survivability, r.efficiency);
    hide CombatSkill;
    var m, raw := Measure(episodes, entropy).value, RawTraitsOf(t, entropy(t.actionCounts));
    assert raw.resilience * 100.0 == r.winRate * r.absorbed * 100.0;
    assert m.resilience == Round(raw.resilience * 100.0) && m.aggression == Round(raw.aggression * 100.0);
    assert m.combatSkill == Round(CombatSkill(ComponentsOf(t)) * 100.0);
  }

  /** Rounding never inverts two scores. */
  lemma ScoreKeepsOrder(x: real, y: real)
    requires x <= y
    ensures ClampScore(x) <= ClampScore(y)
  {
    var u, v := Max(0.0, Min(1.0, x)) * 100.0, Max(0.0, Min(1.0, y)) * 100.0;
    assert u <= v && u.Floor <= v.Floor;
  }

  // ── The whole evaluation ──────────────────────────────────────────────────

  lemma IndexSplits(k: nat, n: nat, m: nat)
    requires k < m * n
    ensures n > 0 && k / n < m && k == k / n * n + k % n
  {
    var q := k / n;
    assert (m - q) * n == m * n - q * n;
  }

  lemma LadderIsGenuine(
      results: seq<EpisodeMetrics>, play: (int, real) -> Play, seeds: seq<int>, difficulties: seq<real>, maxSteps: int)
    requires |results| == |difficulties| * |seeds|
    requires forall s, l :: Fair(play(s, l))
    requires forall i :: 0 <= i < |difficulties| ==> difficulties[i] >= 0.0
    requires forall i, j :: 0 <= i < |difficulties| && 0 <= j < |seeds| ==>
      RanAt(results, i * |seeds| + j, play, seeds[j], difficulties[i], maxSteps)
    ensures AllGenuine(results)
  {
    hide IsEpisode;
    hide Genuine;
    hide Fair;
    forall k | 0 <= k < |results|
      ensures Genuine(results[k])
    {
      var n := |seeds|;
      IndexSplits(k, n, |difficulties|);
      var i, j := k / n, k % n;
      assert RanAt(results, i * n + j, play, seeds[j], difficulties[i], maxSteps);
      EpisodeIsConserved(play(seeds[j], difficulties[i]), seeds[j], difficulties[i], maxSteps, results[k]);
    }
  }

  /** Run the ladder and measure it: any policy, any draws, every score on its scale. */
  method Evaluate(
      play: (int, real) -> Play, seeds: seq<int>, difficulties: seq<real>, maxSteps: int, entropy: seq<nat> -> real)
    returns (r: Result<Measurement, MeasureError>, ghost episodes: seq<EpisodeMetrics>)
    requires forall s, l :: Fair(play(s, l))
    requires forall i :: 0 <= i < |difficulties| ==> difficulties[i] >= 0.0
    requires forall counts :: Unit(entropy(counts))
    ensures r.Ok? <==> seeds != [] && difficulties != []
    ensures |episodes| == |difficulties| * |seeds|
    ensures forall i, j :: 0 <= i < |difficulties| && 0 <= j < |seeds| ==>
      RanAt(episodes, i * |seeds| + j, play, seeds[j], difficulties[i], maxSteps)
    ensures Counted(episodes) && r == Measure(episodes, entropy)
    ensures r.Ok? ==> OnScale(r.value)
  {
    var results := RunEpisodes(play, seeds, difficulties, maxSteps);
    episodes := results;
    LadderIsGenuine(episodes, play, seeds, difficulties, maxSteps);
    assert Counted(episodes) by {
      forall i | 0 <= i < |episodes|
        ensures |episodes[i].actionCounts| == 7
      {
        assert Genuine(episodes[i]);
      }
    }
    assert |difficulties| * |seeds| == 0 <==> seeds == [] || difficulties == [];
    if episodes != [] {
      MeasuredFaithfully(episodes, entropy);
    }
    r := Measure(results, entropy);
  }
}
