/**
 The evaluation harness: one instrumented episode over the simulator, and the
 full ladder of seeds and difficulties.
 */
module Rollout {
  import opened Battle

  datatype EpisodeMetrics = EpisodeMetrics(
    seed: int,
    difficulty: real,
    steps: nat,
    won: bool,
    totalReward: real,
    attackAttempts: nat,
    attackHits: nat,
    abilityAttempts: nat,
    abilityHits: nat,
    damageDealt: real,
    damageTaken: real,
    hpRetained: real,
    fleeUses: nat,
    fleeWhileLowHp: nat,
    healUses: nat,
    healWhileUseful: nat,
    defendUses: nat,
    idleUses: nat,
    actionCounts: seq<nat>)

  const LOW_HP_THRESHOLD := 0.3
  const HEAL_USEFUL_THRESHOLD := 0.7

  function Index(a: Action): (i: nat)
    ensures i < 7
  {
    match a
    case ATTACK => 0
    case DEFEND => 1
    case FLEE => 2
    case SUPPORT => 3
    case ABILITY_1 => 4
    case ABILITY_2 => 5
    case IDLE => 6
  }

  function Blank(seed: int, difficulty: real): EpisodeMetrics {
    EpisodeMetrics(seed, difficulty, 0, false, 0.0, 0, 0, 0, 0, 0.0, 0.0, 0.0, 0, 0, 0, 0, 0, 0, [0, 0, 0, 0, 0, 0, 0])
  }

  function One(b: bool): nat {
    if b then 1 else 0
  }

  /** What the harness books for one step, seeing only hit points before and after it. */
  function Observe(m: EpisodeMetrics, a: Action, before: Fighters, after: Fighters, reward: real): EpisodeMetrics
    requires |m.actionCounts| == 7
  {
    var dealt := Max(0.0, before.enemyHp - after.enemyHp);
    var taken := Max(0.0, before.agentHp - after.agentHp);
    m.(steps := m.steps + 1,
       totalReward := m.totalReward + reward,
       damageDealt := m.damageDealt + dealt,
       damageTaken := m.damageTaken + taken,
       actionCounts := m.actionCounts[Index(a) := m.actionCounts[Index(a)] + 1],
       attackAttempts := m.attackAttempts + One(a.ATTACK?),
       attackHits := m.attackHits + One(a.ATTACK? && dealt > 0.0),
       abilityAttempts := m.abilityAttempts + One(a.ABILITY_1?),
       abilityHits := m.abilityHits + One(a.ABILITY_1? && dealt > 0.0),
       fleeUses := m.fleeUses + One(a.FLEE?),
       fleeWhileLowHp := m.fleeWhileLowHp + One(a.FLEE? && before.agentHp < LOW_HP_THRESHOLD),
       healUses := m.healUses + One(a.ABILITY_2?),
       healWhileUseful := m.healWhileUseful + One(a.ABILITY_2? && before.agentHp < HEAL_USEFUL_THRESHOLD),
       defendUses := m.defendUses + One(a.DEFEND?),
       idleUses := m.idleUses + One(a.IDLE?))
  }

  function Finish(m: EpisodeMetrics, f: Fighters): EpisodeMetrics {
    m.(won := f.enemyHp <= 0.0 && f.agentHp > 0.0, hpRetained := Max(0.0, f.agentHp))
  }

  // ── The episode as a sequence of states ───────────────────────────────────

  /** The choices and draws of an episode, step by step: any policy, any random source. */
  datatype Play = Play(actions: nat -> Action, draws: nat -> Draw)

  ghost predicate Fair(p: Play) {
    forall n: nat :: Drawn(p.draws(n))
  }

  function After(p: Play, difficulty: real, n: nat): (f: Fighters)
    ensures f.steps == n
  {
    if n == 0 then START else Stepped(After(p, difficulty, n - 1), p.actions(n - 1), p.draws(n - 1), difficulty)
  }

  function Observed(p: Play, seed: int, difficulty: real, n: nat): (m: EpisodeMetrics)
    ensures |m.actionCounts| == 7 && m.steps == n && m.seed == seed && m.difficulty == difficulty
  {
    if n == 0 then Blank(seed, difficulty)
    else
      var before := After(p, difficulty, n - 1);
      Observe(Observed(p, seed, difficulty, n - 1), p.actions(n - 1), before, After(p, difficulty, n),
              StepReward(before, p.actions(n - 1), p.draws(n - 1), difficulty))
  }

  predicate Over(p: Play, difficulty: real, maxSteps: int, n: nat) {
    Terminated(After(p, difficulty, n)) || Truncated(After(p, difficulty, n), maxSteps)
  }

  /** The step on which an episode ends: the first of its steps that is over. */
  ghost predicate EndsAt(p: Play, difficulty: real, maxSteps: int, n: nat) {
    n > 0 && Over(p, difficulty, maxSteps, n) && forall k: nat :: 0 < k < n ==> !Over(p, difficulty, maxSteps, k)
  }

  ghost predicate IsEpisode(p: Play, seed: int, difficulty: real, maxSteps: int, m: EpisodeMetrics) {
    && EndsAt(p, difficulty, maxSteps, m.steps)
    && m == Finish(Observed(p, seed, difficulty, m.steps), After(p, difficulty, m.steps))
  }

  /** The harness's book-keeping for one step, field by field. */
  method Record(m: EpisodeMetrics, action: Action, before: Fighters, after: Fighters, reward: real)
    returns (metrics: EpisodeMetrics)
    requires |m.actionCounts| == 7
    ensures metrics == Observe(m, action, before, after, reward)
  {
    var dealt, taken := Max(0.0, before.enemyHp - after.enemyHp), Max(0.0, before.agentHp - after.agentHp);
    var i := Index(action);
    metrics := m.(steps := m.steps + 1,
                  totalReward := m.totalReward + reward,
                  damageDealt := m.damageDealt + dealt,
                  damageTaken := m.damageTaken + taken,
                  actionCounts := m.actionCounts[i := m.actionCounts[i] + 1]);
    match action {
      case ATTACK =>
        metrics := metrics.(attackAttempts := metrics.attackAttempts + 1);
        if dealt > 0.0 {
          metrics := metrics.(attackHits := metrics.attackHits + 1);
        }
      case ABILITY_1 =>
        metrics := metrics.(abilityAttempts := metrics.abilityAttempts + 1);
        if dealt > 0.0 {
          metrics := metrics.(abilityHits := metrics.abilityHits + 1);
        }
      case FLEE =>
        metrics := metrics.(fleeUses := metrics.fleeUses + 1);
        if before.agentHp < LOW_HP_THRESHOLD {
          metrics := metrics.(fleeWhileLowHp := metrics.fleeWhileLowHp + 1);
        }
      case ABILITY_2 =>
        metrics := metrics.(healUses := metrics.healUses + 1);
        if before.agentHp < HEAL_USEFUL_THRESHOLD {
          metrics := metrics.(healWhileUseful := metrics.healWhileUseful + 1);
        }
      case DEFEND =>
        metrics := metrics.(defendUses := metrics.defendUses + 1);
      case IDLE =>
        metrics := metrics.(idleUses := metrics.idleUses + 1);
      case SUPPORT =>
    }
  }

  /** Run one episode: it stops on the first step that is over, within the step limit. */
  method RunEpisode(p: Play, seed: int, difficulty: real, maxSteps: int) returns (m: EpisodeMetrics)
    ensures IsEpisode(p, seed, difficulty, maxSteps, m)
    ensures m.steps <= (if maxSteps < 1 then 1 else maxSteps)
  {
    hide Observe;
    hide Stepped;
    hide StepReward;
    hide Terminated;
    var env := new BattleEnv(maxSteps, difficulty);
    m := Blank(seed, difficulty);
    while true
      invariant env.maxSteps == maxSteps && env.difficulty == difficulty && fresh(env)
      invariant env.Value() == After(p, difficulty, m.steps)
      invariant m == Observed(p, seed, difficulty, m.steps)
      invariant m.steps > 0 ==> m.steps < maxSteps
      invariant forall k: nat :: 0 < k <= m.steps ==> !Over(p, difficulty, maxSteps, k)
      decreases maxSteps - m.steps
    {
      var before, n := env.Value(), m.steps;
      var action := p.actions(n);
      var reward, terminated, truncated := env.Step(action, p.draws(n));
      m := Record(m, action, before, env.Value(), reward);
      assert m == Observed(p, seed, difficulty, n + 1);
      if terminated || truncated {
        m := Finish(m, env.Value());
        return;
      }
    }
  }

  // ── What an episode conserves ─────────────────────────────────────────────

  function TotalActions(counts: seq<nat>): nat
    requires |counts| == 7
  {
    counts[0] + counts[1] + counts[2] + counts[3] + counts[4] + counts[5] + counts[6]
  }

  /** Steps whose attack or ability landed by the simulator's own rule. */
  function Landed(p: Play, difficulty: real, n: nat): nat {
    if n == 0 then 0
    else
      Landed(p, difficulty, n - 1)
      + One(Lands(After(p, difficulty, n - 1), p.actions(n - 1), p.draws(n - 1)))
  }

  /** Running totals after n steps of an episode that is not over before. */
  predicate Balanced(m: EpisodeMetrics, f: Fighters, landed: nat)
    requires |m.actionCounts| == 7
  {
    && InRange(f)
    && m.damageDealt == 1.0 - f.enemyHp
    && m.damageTaken >= 1.0 - f.agentHp
    && m.damageTaken >= 0.0
    && m.attackHits + m.abilityHits == landed
    && TotalActions(m.actionCounts) == m.steps
    && m.actionCounts[0] == m.attackAttempts >= m.attackHits
    && m.actionCounts[4] == m.abilityAttempts >= m.abilityHits
    && m.actionCounts[2] == m.fleeUses >= m.fleeWhileLowHp
    && m.actionCounts[5] == m.healUses >= m.healWhileUseful
    && m.actionCounts[1] == m.defendUses
    && m.actionCounts[6] == m.idleUses
  }

  lemma BalancedStep(m: EpisodeMetrics, f: Fighters, landed: nat, a: Action, d: Draw, difficulty: real, reward: real)
    requires |m.actionCounts| == 7 && Balanced(m, f, landed) && f.enemyHp > 0.0 && Drawn(d) && difficulty >= 0.0
    ensures Balanced(Observe(m, a, f, Stepped(f, a, d, difficulty), reward), Stepped(f, a, d, difficulty),
                     landed + One(Lands(f, a, d)))
  {
    StaysInRange(f, a, d, difficulty);
    DropShowsHit(f, a, d, difficulty);
    hide Stepped;
    hide Lands;
  }

  lemma {:induction false} BalancedAlways(p: Play, seed: int, difficulty: real, maxSteps: int, n: nat)
    requires Fair(p) && difficulty >= 0.0 && forall k: nat :: 0 < k < n ==> !Over(p, difficulty, maxSteps, k)
    ensures Balanced(Observed(p, seed, difficulty, n), After(p, difficulty, n), Landed(p, difficulty, n))
  {
    if n > 0 {
      BalancedAlways(p, seed, difficulty, maxSteps, n - 1);
      var before := After(p, difficulty, n - 1);
      assert Drawn(p.draws(n - 1));
      assert n > 1 ==> !Over(p, difficulty, maxSteps, n - 1);
      BalancedStep(Observed(p, seed, difficulty, n - 1), before, Landed(p, difficulty, n - 1), p.actions(n - 1),
                   p.draws(n - 1), difficulty, StepReward(before, p.actions(n - 1), p.draws(n - 1), difficulty));
    }
  }

  /** What every finished episode's metrics satisfy, whoever played it. */
  predicate Genuine(m: EpisodeMetrics) {
    && m.steps > 0
    && m.attackHits <= m.attackAttempts && m.abilityHits <= m.abilityAttempts
    && m.attackAttempts + m.abilityAttempts <= m.steps
    && m.fleeWhileLowHp <= m.fleeUses && m.healWhileUseful <= m.healUses
    && 0.0 <= m.damageDealt <= 1.0 && m.damageTaken >= 0.0
    && 0.0 <= m.hpRetained <= 1.0
    && (m.won ==> m.damageDealt == 1.0)
    && |m.actionCounts| == 7 && TotalActions(m.actionCounts) == m.steps
  }

  /**
   End to end: damage dealt telescopes to what the enemy lost, every landed blow
   is one counted hit and nothing else is, and the counts add up to the steps.
   */
  lemma EpisodeIsConserved(p: Play, seed: int, difficulty: real, maxSteps: int, m: EpisodeMetrics)
    requires Fair(p) && difficulty >= 0.0 && IsEpisode(p, seed, difficulty, maxSteps, m)
    ensures Genuine(m)
    ensures m.damageDealt == 1.0 - After(p, difficulty, m.steps).enemyHp
    ensures m.attackHits + m.abilityHits == Landed(p, difficulty, m.steps)
    ensures m.won <==> m.damageDealt == 1.0 && m.hpRetained > 0.0
  {
    BalancedAlways(p, seed, difficulty, maxSteps, m.steps);
    hide After;
    hide Observed;
  }

  // ── What every counter counts ─────────────────────────────────────────────

  /** The steps among the first n that a question is answered yes on. */
  function CountSteps(p: Play, difficulty: real, n: nat, asks: (Fighters, Action, Draw) -> bool): nat {
    if n == 0 then 0
    else
      CountSteps(p, difficulty, n - 1, asks)
      + (if asks(After(p, difficulty, n - 1), p.actions(n - 1), p.draws(n - 1)) then 1 else 0)
  }

  /** What the first n steps earned before the fight was decided. */
  function Earned(p: Play, difficulty: real, n: nat): real {
    if n == 0 then 0.0
    else Earned(p, difficulty, n - 1) + ActionReward(After(p, difficulty, n - 1), p.actions(n - 1), p.draws(n - 1))
  }

  /** What the agent lost in the first n steps, heals not set against it. */
  function Lost(p: Play, difficulty: real, n: nat): real {
    if n == 0 then 0.0
    else
      var drop := After(p, difficulty, n - 1).agentHp - After(p, difficulty, n).agentHp;
      Lost(p, difficulty, n - 1) + (if drop > 0.0 then drop else 0.0)
  }

  ghost predicate CountsUse(m: EpisodeMetrics, p: Play, difficulty: real, n: nat) {
    && m.attackAttempts == CountSteps(p, difficulty, n, (f: Fighters, a: Action, d: Draw) => a == ATTACK)
    && m.abilityAttempts == CountSteps(p, difficulty, n, (f: Fighters, a: Action, d: Draw) => a == ABILITY_1)
    && m.fleeUses == CountSteps(p, difficulty, n, (f: Fighters, a: Action, d: Draw) => a == FLEE)
    && m.healUses == CountSteps(p, difficulty, n, (f: Fighters, a: Action, d: Draw) => a == ABILITY_2)
    && m.defendUses == CountSteps(p, difficulty, n, (f: Fighters, a: Action, d: Draw) => a == DEFEND)
    && m.idleUses == CountSteps(p, difficulty, n, (f: Fighters, a: Action, d: Draw) => a == IDLE)
  }

  ghost predicate CountsSuccess(m: EpisodeMetrics, p: Play, difficulty: real, n: nat) {
    && m.attackHits
       == CountSteps(p, difficulty, n, (f: Fighters, a: Action, d: Draw) => a == ATTACK && d.distance < 0.3)
    && m.abilityHits
       == CountSteps(p, difficulty, n, (f: Fighters, a: Action, d: Draw) => a == ABILITY_1 && f.cooldown1 <= 0.0)
    && m.fleeWhileLowHp
       == CountSteps(p, difficulty, n, (f: Fighters, a: Action, d: Draw) => a == FLEE && f.agentHp < 0.3)
    && m.healWhileUseful
       == CountSteps(p, difficulty, n, (f: Fighters, a: Action, d: Draw) => a == ABILITY_2 && f.agentHp < 0.7)
  }

  lemma {:induction false} ObserveUses(m: EpisodeMetrics, a: Action, before: Fighters, after: Fighters, reward: real)
    requires |m.actionCounts| == 7
    ensures
      var o := Observe(m, a, before, after, reward);
      && o.attackAttempts == m.attackAttempts + (if a == ATTACK then 1 else 0)
      && o.abilityAttempts == m.abilityAttempts + (if a == ABILITY_1 then 1 else 0)
      && o.fleeUses == m.fleeUses + (if a == FLEE then 1 else 0)
      && o.healUses == m.healUses + (if a == ABILITY_2 then 1 else 0)
      && o.defendUses == m.defendUses + (if a == DEFEND then 1 else 0)
      && o.idleUses == m.idleUses + (if a == IDLE then 1 else 0)
      && o.damageTaken == m.damageTaken
           + (if before.agentHp - after.agentHp > 0.0 then before.agentHp - after.agentHp else 0.0)
  {
  }

  lemma {:induction false} ObserveSuccesses(
    m: EpisodeMetrics, a: Action, f: Fighters, d: Draw, difficulty: real, reward: real)
    requires |m.actionCounts| == 7 && InRange(f) && Drawn(d) && f.enemyHp > 0.0
    ensures
      var o := Observe(m, a, f, Stepped(f, a, d, difficulty), reward);
      && o.attackHits == m.attackHits + (if a == ATTACK && d.distance < 0.3 then 1 else 0)
      && o.abilityHits == m.abilityHits + (if a == ABILITY_1 && f.cooldown1 <= 0.0 then 1 else 0)
      && o.fleeWhileLowHp == m.fleeWhileLowHp + (if a == FLEE && f.agentHp < 0.3 then 1 else 0)
      && o.healWhileUseful == m.healWhileUseful + (if a == ABILITY_2 && f.agentHp < 0.7 then 1 else 0)
  {
    DropShowsHit(f, a, d, difficulty);
    hide Stepped;
  }

  lemma {:induction false} UsesCounted(p: Play, seed: int, difficulty: real, n: nat)
    ensures CountsUse(Observed(p, seed, difficulty, n), p, difficulty, n)
    ensures Observed(p, seed, difficulty, n).damageTaken == Lost(p, difficulty, n)
  {
    hide After;
    hide Observe;
    hide StepReward;
    if n > 0 {
      UsesCounted(p, seed, difficulty, n - 1);
      var before, after := After(p, difficulty, n - 1), After(p, difficulty, n);
      var a := p.actions(n - 1);
      ObserveUses(Observed(p, seed, difficulty, n - 1), a, before, after,
                  StepReward(before, a, p.draws(n - 1), difficulty));
    }
  }

  lemma {:induction false} NotOverBefore(p: Play, seed: int, difficulty: real, maxSteps: int, n: nat)
    requires Fair(p) && difficulty >= 0.0 && forall k: nat :: 0 < k <= n ==> !Over(p, difficulty, maxSteps, k)
    ensures InRange(After(p, difficulty, n)) && After(p, difficulty, n).enemyHp > 0.0 && Drawn(p.draws(n))
  {
    BalancedAlways(p, seed, difficulty, maxSteps, n);
    assert n > 0 ==> !Over(p, difficulty, maxSteps, n);
  }

  lemma {:induction false} SuccessesCounted(p: Play, seed: int, difficulty: real, maxSteps: int, n: nat)
    requires Fair(p) && difficulty >= 0.0 && forall k: nat :: 0 < k < n ==> !Over(p, difficulty, maxSteps, k)
    ensures CountsSuccess(Observed(p, seed, difficulty, n), p, difficulty, n)
  {
    hide Observe;
    hide StepReward;
    hide Over;
    hide Fair;
    if n > 0 {
      SuccessesCounted(p, seed, difficulty, maxSteps, n - 1);
      NotOverBefore(p, seed, difficulty, maxSteps, n - 1);
      var before := After(p, difficulty, n - 1);
      var a, d := p.actions(n - 1), p.draws(n - 1);
      ObserveSuccesses(Observed(p, seed, difficulty, n - 1), a, before, d, difficulty,
                       StepReward(before, a, d, difficulty));
      assert After(p, difficulty, n) == Stepped(before, a, d, difficulty);
      hide After;
    }
  }

  lemma {:induction false} RewardsAdd(p: Play, seed: int, difficulty: real, maxSteps: int, n: nat)
    requires n > 0 && forall k: nat :: 0 < k < n ==> !Over(p, difficulty, maxSteps, k)
    ensures
      var f := After(p, difficulty, n);
      Observed(p, seed, difficulty, n).totalReward
        == Earned(p, difficulty, n) + (if f.enemyHp <= 0.0 then 10.0 else if f.agentHp <= 0.0 then -10.0 else 0.0)
  {
    if n > 1 {
      RewardsAdd(p, seed, difficulty, maxSteps, n - 1);
      assert !Over(p, difficulty, maxSteps, n - 1);
    }
    OutcomeReward(After(p, difficulty, n - 1), p.actions(n - 1), p.draws(n - 1), difficulty);
    hide Stepped;
    hide StepReward;
    hide ActionReward;
  }

  /**
   Each number of a finished episode is what its name says, counted over the steps
   of the fight itself: attempts, hits by the simulator's rule, timely flights and
   heals, what the agent lost and kept, and a reward of what the actions earned and
   ten for or against the outcome.
   */
  lemma {:induction false} EpisodeCounts(p: Play, seed: int, difficulty: real, maxSteps: int, m: EpisodeMetrics)
    requires Fair(p) && difficulty >= 0.0 && IsEpisode(p, seed, difficulty, maxSteps, m)
    ensures CountsUse(m, p, difficulty, m.steps) && CountsSuccess(m, p, difficulty, m.steps)
    ensures m.damageTaken == Lost(p, difficulty, m.steps)
    ensures
      var f := After(p, difficulty, m.steps);
      && m.seed == seed && m.difficulty == difficulty
      && (m.won <==> f.enemyHp <= 0.0 && f.agentHp > 0.0)
      && m.hpRetained == f.agentHp && m.damageDealt == 1.0 - f.enemyHp
      && m.totalReward == Earned(p, difficulty, m.steps)
           + (if f.enemyHp <= 0.0 then 10.0 else if f.agentHp <= 0.0 then -10.0 else 0.0)
  {
    UsesCounted(p, seed, difficulty, m.steps);
    SuccessesCounted(p, seed, difficulty, maxSteps, m.steps);
    RewardsAdd(p, seed, difficulty, maxSteps, m.steps);
    BalancedAlways(p, seed, difficulty, maxSteps, m.steps);
    hide After;
    hide Observed;
    hide CountSteps;
  }

  /** An episode ends on the first step that leaves a fighter down or reaches the limit. */
  lemma {:induction false} EndsInTime(p: Play, seed: int, difficulty: real, maxSteps: int, m: EpisodeMetrics)
    requires IsEpisode(p, seed, difficulty, maxSteps, m)
    ensures
      var f := After(p, difficulty, m.steps);
      m.steps > 0 && (f.agentHp <= 0.0 || f.enemyHp <= 0.0 || m.steps >= maxSteps)
    ensures forall k: nat :: 0 < k < m.steps ==>
      var f := After(p, difficulty, k); f.agentHp > 0.0 && f.enemyHp > 0.0 && k < maxSteps
  {
    forall k: nat | 0 < k < m.steps
      ensures var f := After(p, difficulty, k); f.agentHp > 0.0 && f.enemyHp > 0.0 && k < maxSteps
    {
      hide After;
      assert !Over(p, difficulty, maxSteps, k);
    }
  }

  // ── The ladder ────────────────────────────────────────────────────────────

  /** Every difficulty faces every seed: the cross product, difficulty by difficulty. */
  method RunEpisodes(play: (int, real) -> Play, seeds: seq<int>, difficulties: seq<real>, maxSteps: int)
    returns (results: seq<EpisodeMetrics>)
    ensures |results| == |difficulties| * |seeds|
    ensures forall i, j :: 0 <= i < |difficulties| && 0 <= j < |seeds| ==>
      RanAt(results, i * |seeds| + j, play, seeds[j], difficulties[i], maxSteps)
  {
    hide IsEpisode;
    results := [];
    for i := 0 to |difficulties|
      invariant |results| == i * |seeds|
      invariant forall x, j :: 0 <= x < i && 0 <= j < |seeds| ==>
        RanAt(results, x * |seeds| + j, play, seeds[j], difficulties[x], maxSteps)
    {
      var rung := [];
      for j := 0 to |seeds|
        invariant |rung| == j
        invariant forall k :: 0 <= k < j ==> RanAt(rung, k, play, seeds[k], difficulties[i], maxSteps)
      {
        var episode := RunEpisode(play(seeds[j], difficulties[i]), seeds[j], difficulties[i], maxSteps);
        ghost var shorter := rung;
        rung := rung + [episode];
        forall k | 0 <= k < j + 1
          ensures RanAt(rung, k, play, seeds[k], difficulties[i], maxSteps)
        {
          assert k < j ==> RanAt(shorter, k, play, seeds[k], difficulties[i], maxSteps);
        }
      }
      RungAppended(results, rung, play, seeds, difficulties, maxSteps, i);
      results := results + rung;
    }
  }

  /** Position k holds the whole episode of this seed and difficulty. */
  ghost predicate RanAt(
      results: seq<EpisodeMetrics>, k: int, play: (int, real) -> Play, seed: int, difficulty: real, maxSteps: int)
  {
    0 <= k < |results| && IsEpisode(play(seed, difficulty), seed, difficulty, maxSteps, results[k])
  }

  lemma RungAppended(
      results: seq<EpisodeMetrics>, rung: seq<EpisodeMetrics>, play: (int, real) -> Play, seeds: seq<int>,
      difficulties: seq<real>, maxSteps: int, i: nat)
    requires i < |difficulties| && |results| == i * |seeds| && |rung| == |seeds|
    requires forall k :: 0 <= k < |rung| ==> RanAt(rung, k, play, seeds[k], difficulties[i], maxSteps)
    requires forall x, j :: 0 <= x < i && 0 <= j < |seeds| ==>
      RanAt(results, x * |seeds| + j, play, seeds[j], difficulties[x], maxSteps)
    ensures |results + rung| == (i + 1) * |seeds|
    ensures forall x, j :: 0 <= x < i + 1 && 0 <= j < |seeds| ==>
      RanAt(results + rung, x * |seeds| + j, play, seeds[j], difficulties[x], maxSteps)
  {
    hide IsEpisode;
    assert (i + 1) * |seeds| == i * |seeds| + |seeds|;
    forall x, j | 0 <= x < i + 1 && 0 <= j < |seeds|
      ensures RanAt(results + rung, x * |seeds| + j, play, seeds[j], difficulties[x], maxSteps)
    {
      if x < i {
        assert RanAt(results, x * |seeds| + j, play, seeds[j], difficulties[x], maxSteps);
      } else {
        assert RanAt(rung, j, play, seeds[j], difficulties[i], maxSteps);
      }
    }
  }
}
