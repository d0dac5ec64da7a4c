/**
 The battle simulator: one agent against a scripted enemy. Distances and random
 draws come in as inputs; hit points, cooldowns, the step counter and rewards are
 computed here. Numbers are real; rounding is not modelled.
 */
module Battle {
  datatype Action = ATTACK | DEFEND | FLEE | SUPPORT | ABILITY_1 | ABILITY_2 | IDLE

  /** What one step draws, and how far apart the fighters stand before each one acts. */
  datatype Draw = Draw(
    distance: real, attack: real, ability: real, heal: real, enemyDistance: real, enemyRoll: real)

  predicate Drawn(d: Draw) {
    && 0.05 <= d.attack <= 0.15
    && 0.1 <= d.ability <= 0.25
    && 0.05 <= d.heal <= 0.15
    && 0.02 <= d.enemyRoll <= 0.08
  }

  datatype Fighters = Fighters(agentHp: real, enemyHp: real, cooldown1: real, cooldown2: real, steps: nat)

  const START := Fighters(1.0, 1.0, 0.0, 0.0, 0)

  function Max(x: real, y: real): real {
    if x < y then y else x
  }

  function Min(x: real, y: real): real {
    if x < y then x else y
  }

  /** An attack lands by distance, the first ability by its cooldown. */
  predicate Lands(f: Fighters, a: Action, d: Draw) {
    (a.ATTACK? && d.distance < 0.3) || (a.ABILITY_1? && f.cooldown1 <= 0.0)
  }

  function AfterAction(f: Fighters, a: Action, d: Draw): Fighters {
    if a.ATTACK? && d.distance < 0.3 then f.(enemyHp := Max(0.0, f.enemyHp - d.attack))
    else if a.ABILITY_1? && f.cooldown1 <= 0.0
    then f.(enemyHp := Max(0.0, f.enemyHp - d.ability), cooldown1 := 3.0)
    else if a.ABILITY_2? && f.cooldown2 <= 0.0
    then f.(agentHp := Min(1.0, f.agentHp + d.heal), cooldown2 := 5.0)
    else f
  }

  function ActionReward(f: Fighters, a: Action, d: Draw): real {
    var change :=
      match a
      case ATTACK => if d.distance < 0.3 then d.attack * 5.0 else -0.05
      case DEFEND => 0.02
      case FLEE => if f.agentHp < 0.3 then 0.01 else -0.02
      case SUPPORT => 0.01
      case ABILITY_1 => if f.cooldown1 <= 0.0 then d.ability * 6.0 else 0.0
      case ABILITY_2 => if f.cooldown2 <= 0.0 then d.heal * 3.0 else 0.0
      case IDLE => -0.03;
    -0.01 + change
  }

  function AfterEnemy(f: Fighters, d: Draw, difficulty: real): Fighters {
    if d.enemyDistance > 0.3 then f else f.(agentHp := Max(0.0, f.agentHp - d.enemyRoll * difficulty))
  }

  function Stepped(f: Fighters, a: Action, d: Draw, difficulty: real): Fighters {
    var g := AfterEnemy(AfterAction(f, a, d), d, difficulty);
    g.(cooldown1 := Max(0.0, g.cooldown1 - 0.1), cooldown2 := Max(0.0, g.cooldown2 - 0.1), steps := f.steps + 1)
  }

  predicate Terminated(f: Fighters) {
    f.agentHp <= 0.0 || f.enemyHp <= 0.0
  }

  predicate Truncated(f: Fighters, maxSteps: int) {
    f.steps >= maxSteps
  }

  function StepReward(f: Fighters, a: Action, d: Draw, difficulty: real): real {
    var g := Stepped(f, a, d, difficulty);
    ActionReward(f, a, d) + (if !Terminated(g) then 0.0 else if g.enemyHp <= 0.0 then 10.0 else -10.0)
  }

  class BattleEnv {
    const maxSteps: int
    const difficulty: real
    var steps: nat
    var agentHp: real
    var enemyHp: real
    var cooldown1: real
    var cooldown2: real

    function Value(): Fighters
      reads this
    {
      Fighters(agentHp, enemyHp, cooldown1, cooldown2, steps)
    }

    constructor (limit: int, level: real)
      ensures maxSteps == limit && difficulty == level && Value() == START
    {
      maxSteps, difficulty := limit, level;
      steps, agentHp, enemyHp, cooldown1, cooldown2 := 0, 1.0, 1.0, 0.0, 0.0;
    }

    method Reset()
      modifies this
      ensures Value() == START
    {
      steps, agentHp, enemyHp, cooldown1, cooldown2 := 0, 1.0, 1.0, 0.0, 0.0;
    }

    method ApplyAction(a: Action, d: Draw) returns (reward: real)
      modifies this
      ensures Value() == AfterAction(old(Value()), a, d)
      ensures reward == ActionReward(old(Value()), a, d)
    {
      reward := -0.01;
      match a {
        case ATTACK =>
          if d.distance < 0.3 {
            enemyHp := Max(0.0, enemyHp - d.attack);
            reward := reward + d.attack * 5.0;
          } else {
            reward := reward - 0.05;
          }
        case DEFEND =>
          reward := reward + 0.02;
        case FLEE =>
          reward := reward + (if agentHp < 0.3 then 0.01 else -0.02);
        case SUPPORT =>
          reward := reward + 0.01;
        case ABILITY_1 =>
          if cooldown1 <= 0.0 {
            enemyHp := Max(0.0, enemyHp - d.ability);
            cooldown1 := 3.0;
            reward := reward + d.ability * 6.0;
          }
        case ABILITY_2 =>
          if cooldown2 <= 0.0 {
            agentHp := Min(1.0, agentHp + d.heal);
            cooldown2 := 5.0;
            reward := reward + d.heal * 3.0;
          }
        case IDLE =>
          reward := reward - 0.03;
      }
    }

    method SimulateEnemy(d: Draw)
      modifies this
      ensures Value() == AfterEnemy(old(Value()), d, difficulty)
    {
      if d.enemyDistance <= 0.3 {
        agentHp := Max(0.0, agentHp - d.enemyRoll * difficulty);
      }
    }

    method Step(a: Action, d: Draw) returns (reward: real, terminated: bool, truncated: bool)
      modifies this
      ensures Value() == Stepped(old(Value()), a, d, difficulty)
      ensures reward == StepReward(old(Value()), a, d, difficulty)
      ensures terminated <==> Terminated(Value())
      ensures truncated <==> Truncated(Value(), maxSteps)
    {
      steps := steps + 1;
      reward := ApplyAction(a, d);
      SimulateEnemy(d);
      cooldown1, cooldown2 := Max(0.0, cooldown1 - 0.1), Max(0.0, cooldown2 - 0.1);
      terminated := agentHp <= 0.0 || enemyHp <= 0.0;
      truncated := steps >= maxSteps;
      if terminated {
        reward := reward + (if enemyHp <= 0.0 then 10.0 else -10.0);
      }
    }
  }

  // ── Hit points ────────────────────────────────────────────────────────────

  predicate InRange(f: Fighters) {
    0.0 <= f.agentHp <= 1.0 && 0.0 <= f.enemyHp <= 1.0
  }

  lemma ProductSign(x: real, y: real)
    requires x > 0.0
    ensures x * y >= 0.0 <==> y >= 0.0
  {
  }

  lemma StaysInRange(f: Fighters, a: Action, d: Draw, difficulty: real)
    requires InRange(f) && Drawn(d) && difficulty >= 0.0
    ensures InRange(Stepped(f, a, d, difficulty))
  {
    ProductSign(d.enemyRoll, difficulty);
  }

  /** A blow of negative strength heals past full. */
  lemma NegativeDifficultyOverheals(difficulty: real)
    requires difficulty < 0.0
    ensures exists f, a, d :: InRange(f) && Drawn(d) && !InRange(Stepped(f, a, d, difficulty))
  {
    var d := Draw(1.0, 0.1, 0.1, 0.1, 0.0, 0.05);
    var g := Stepped(START, IDLE, d, difficulty);
    assert Drawn(d) && InRange(START) && g.agentHp > 1.0;
    assert !InRange(g);
  }

  /** Hit points stay within [0, 1] on every step exactly when the difficulty is not negative. */
  lemma RangeKeptExactly(difficulty: real)
    ensures difficulty >= 0.0 <==>
      forall f, a, d :: InRange(f) && Drawn(d) ==> InRange(Stepped(f, a, d, difficulty))
  {
    if difficulty >= 0.0 {
      forall f, a, d | InRange(f) && Drawn(d)
        ensures InRange(Stepped(f, a, d, difficulty))
      {
        StaysInRange(f, a, d, difficulty);
      }
    } else {
      NegativeDifficultyOverheals(difficulty);
    }
  }

  /**
   Against a living enemy the drop in its hit points tells exactly whether the
   action landed: only attacks and the first ability harm it, and those that land
   always do.
   */
  lemma DropShowsHit(f: Fighters, a: Action, d: Draw, difficulty: real)
    requires InRange(f) && Drawn(d) && f.enemyHp > 0.0
    ensures Stepped(f, a, d, difficulty).enemyHp <= f.enemyHp
    ensures Stepped(f, a, d, difficulty).enemyHp < f.enemyHp <==> Lands(f, a, d)
  {
  }

  /**
   What a step moves, in numbers: a landed blow takes what was drawn for it, a heal
   gives what was drawn for it, the enemy's blow takes its draw times the difficulty,
   none of them past empty or full, and a cooldown runs down by a tenth.
   */
  lemma {:induction false} StepInNumbers(f: Fighters, a: Action, d: Draw, difficulty: real)
    requires InRange(f) && Drawn(d) && difficulty >= 0.0
    ensures
      var g := Stepped(f, a, d, difficulty);
      var blow := if a.ATTACK? && d.distance < 0.3 then d.attack
                  else if a.ABILITY_1? && f.cooldown1 <= 0.0 then d.ability else 0.0;
      var heal := if a.ABILITY_2? && f.cooldown2 <= 0.0 then d.heal else 0.0;
      var hit := if d.enemyDistance <= 0.3 then d.enemyRoll * difficulty else 0.0;
      var healed := if f.agentHp + heal > 1.0 then 1.0 else f.agentHp + heal;
      && g.enemyHp == (if blow >= f.enemyHp then 0.0 else f.enemyHp - blow)
      && g.agentHp == (if hit >= healed then 0.0 else healed - hit)
      && g.steps == f.steps + 1
      && (a.ABILITY_1? && f.cooldown1 <= 0.0 ==> g.cooldown1 == 2.9)
      && (a.ABILITY_2? && f.cooldown2 <= 0.0 ==> g.cooldown2 == 4.9)
      && (!a.ABILITY_1? && f.cooldown1 >= 0.1 ==> g.cooldown1 == f.cooldown1 - 0.1)
      && (!a.ABILITY_2? && f.cooldown2 >= 0.1 ==> g.cooldown2 == f.cooldown2 - 0.1)
  {
    ProductSign(d.enemyRoll, difficulty);
  }

  // ── Rewards ───────────────────────────────────────────────────────────────

  /** What an action is worth before the fight is decided, step penalty included. */
  lemma {:induction false} RewardInNumbers(f: Fighters, a: Action, d: Draw)
    ensures a.ATTACK? && d.distance < 0.3 ==> ActionReward(f, a, d) == 5.0 * d.attack - 0.01
    ensures a.ATTACK? && d.distance >= 0.3 ==> ActionReward(f, a, d) == -0.06
    ensures a.ABILITY_1? && f.cooldown1 <= 0.0 ==> ActionReward(f, a, d) == 6.0 * d.ability - 0.01
    ensures a.ABILITY_2? && f.cooldown2 <= 0.0 ==> ActionReward(f, a, d) == 3.0 * d.heal - 0.01
    ensures a.ABILITY_1? && f.cooldown1 > 0.0 ==> ActionReward(f, a, d) == -0.01
    ensures a.ABILITY_2? && f.cooldown2 > 0.0 ==> ActionReward(f, a, d) == -0.01
    ensures a.DEFEND? ==> ActionReward(f, a, d) == 0.01
    ensures a.SUPPORT? ==> ActionReward(f, a, d) == 0.0
    ensures a.FLEE? ==> ActionReward(f, a, d) == if f.agentHp < 0.3 then 0.0 else -0.03
    ensures a.IDLE? ==> ActionReward(f, a, d) == -0.04
  {
  }

  /**
   The rewards rank what the fight asks for: any landed blow or heal is worth more
   than any action that lands nothing, and a missed attack is worth least of all.
   */
  lemma {:induction false} RewardsRank(f: Fighters, a: Action, d: Draw, g: Fighters, b: Action, e: Draw)
    requires Drawn(d) && Drawn(e)
    requires Lands(f, a, d) || (a.ABILITY_2? && f.cooldown2 <= 0.0)
    requires !Lands(g, b, e) && !(b.ABILITY_2? && g.cooldown2 <= 0.0)
    ensures ActionReward(f, a, d) > ActionReward(g, b, e)
    ensures -0.06 <= ActionReward(g, b, e) <= 0.01
    ensures ActionReward(g, b, e) == -0.06 <==> b.ATTACK?
  {
    RewardInNumbers(f, a, d);
    RewardInNumbers(g, b, e);
    hide ActionReward;
  }

  /** Deciding the fight adds ten if the enemy is down, even with the agent, and takes ten if only the agent is. */
  lemma {:induction false} OutcomeReward(f: Fighters, a: Action, d: Draw, difficulty: real)
    ensures
      var g := Stepped(f, a, d, difficulty);
      var more := StepReward(f, a, d, difficulty) - ActionReward(f, a, d);
      && (more == 10.0 <==> g.enemyHp <= 0.0)
      && (more == -10.0 <==> g.enemyHp > 0.0 && g.agentHp <= 0.0)
      && (more == 0.0 <==> g.enemyHp > 0.0 && g.agentHp > 0.0)
  {
    hide Stepped;
    hide ActionReward;
  }
}
