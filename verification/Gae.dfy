/**
 Generalised advantage estimation over a vector of environments: the reversed
 loop, the sum it computes, and what the sum means. Numbers are real; rounding is
 not modelled.
 */
module Gae {

  /** The rollout buffers, indexed by step and then environment, and the values past the last step. */
  datatype Rollout = Rollout(
    rewards: seq<seq<real>>, dones: seq<seq<bool>>, values: seq<seq<real>>, last: seq<real>)

  /** The buffers of a rollout of the given shape. */
  predicate Shaped(r: Rollout, steps: nat, envs: nat) {
    && |r.rewards| == |r.dones| == |r.values| == steps && |r.last| == envs
    && forall t :: 0 <= t < steps ==> |r.rewards[t]| == |r.dones[t]| == |r.values[t]| == envs
  }

  datatype Discount = Discount(gamma: real, lambda: real)

  function NextValue(r: Rollout, steps: nat, envs: nat, t: nat, e: nat): real
    requires Shaped(r, steps, envs) && t < steps && e < envs
  {
    if t == steps - 1 then r.last[e] else r.values[t + 1][e]
  }

  function NotDone(r: Rollout, steps: nat, envs: nat, t: nat, e: nat): real
    requires Shaped(r, steps, envs) && t < steps && e < envs
  {
    if r.dones[t][e] then 0.0 else 1.0
  }

  /** The temporal-difference error, not bootstrapped past the end of an episode. */
  function Delta(r: Rollout, steps: nat, envs: nat, d: Discount, t: nat, e: nat): real
    requires Shaped(r, steps, envs) && t < steps && e < envs
  {
    r.rewards[t][e] + d.gamma * NextValue(r, steps, envs, t, e) * NotDone(r, steps, envs, t, e) - r.values[t][e]
  }

  function Power(x: real, k: nat): real {
    if k == 0 then 1.0 else Power(x, k - 1) * x
  }

  /** Where the episode that contains step t ends within the rollout. */
  function EpisodeEnd(r: Rollout, steps: nat, envs: nat, t: nat, e: nat): (end: nat)
    requires Shaped(r, steps, envs) && t < steps && e < envs
    ensures t <= end < steps
    ensures forall u :: t <= u < end ==> !r.dones[u][e]
    ensures r.dones[end][e] || end == steps - 1
    decreases steps - t
  {
    if r.dones[t][e] || t == steps - 1 then t else EpisodeEnd(r, steps, envs, t + 1, e)
  }

  /** The first k terms of the (gamma * lambda)-discounted sum of errors from step t on. */
  function DiscountedErrors(r: Rollout, steps: nat, envs: nat, d: Discount, t: nat, e: nat, k: nat): real
    requires Shaped(r, steps, envs) && t + k <= steps && e < envs
  {
    if k == 0 then 0.0
    else
      DiscountedErrors(r, steps, envs, d, t, e, k - 1)
      + Power(d.gamma * d.lambda, k - 1) * Delta(r, steps, envs, d, t + k - 1, e)
  }

  /** The advantage by definition: the discounted errors of the rest of the episode. */
  function Advantage(r: Rollout, steps: nat, envs: nat, d: Discount, t: nat, e: nat): real
    requires Shaped(r, steps, envs) && t <= steps && e < envs
  {
    if t == steps then 0.0
    else DiscountedErrors(r, steps, envs, d, t, e, EpisodeEnd(r, steps, envs, t, e) - t + 1)
  }

  lemma {:induction false} ErrorsShift(r: Rollout, steps: nat, envs: nat, d: Discount, t: nat, e: nat, k: nat)
    requires Shaped(r, steps, envs) && t + k + 1 <= steps && e < envs
    ensures DiscountedErrors(r, steps, envs, d, t, e, k + 1)
         == Delta(r, steps, envs, d, t, e) + d.gamma * d.lambda * DiscountedErrors(r, steps, envs, d, t + 1, e, k)
  {
    var q := d.gamma * d.lambda;
    if k == 0 {
      assert DiscountedErrors(r, steps, envs, d, t, e, 0) == 0.0 && Power(q, 0) == 1.0;
      assert DiscountedErrors(r, steps, envs, d, t + 1, e, 0) == 0.0;
    } else {
      ErrorsShift(r, steps, envs, d, t, e, k - 1);
      var x, y := Power(q, k - 1), Delta(r, steps, envs, d, t + k, e);
      var s := DiscountedErrors(r, steps, envs, d, t + 1, e, k - 1);
      TermShift(q, s, x, y);
    }
  }

  lemma TermShift(q: real, s: real, x: real, y: real)
    ensures q * s + (x * q) * y == q * (s + x * y)
  {
  }

  /** The backward recurrence the loop runs. */
  lemma AdvantageStep(r: Rollout, steps: nat, envs: nat, d: Discount, t: nat, e: nat)
    requires Shaped(r, steps, envs) && t < steps && e < envs
    ensures Advantage(r, steps, envs, d, t, e)
         == Delta(r, steps, envs, d, t, e)
            + d.gamma * d.lambda * NotDone(r, steps, envs, t, e) * Advantage(r, steps, envs, d, t + 1, e)
  {
    var end := EpisodeEnd(r, steps, envs, t, e);
    ErrorsShift(r, steps, envs, d, t, e, end - t);
    if end == t {
      assert DiscountedErrors(r, steps, envs, d, t + 1, e, 0) == 0.0;
      assert r.dones[t][e] || Advantage(r, steps, envs, d, t + 1, e) == 0.0;
    } else {
      assert end == EpisodeEnd(r, steps, envs, t + 1, e);
    }
  }

  /** One turn of the loop, all environments at once. */
  method UpdateStep(
      r: Rollout, steps: nat, envs: nat, d: Discount, step: nat, lastGae: array<real>, advantages: array2<real>)
    requires Shaped(r, steps, envs) && step < steps
    requires lastGae.Length == envs && advantages.Length0 == steps && advantages.Length1 == envs
    requires forall e :: 0 <= e < envs ==> lastGae[e] == Advantage(r, steps, envs, d, step + 1, e)
    modifies lastGae, advantages
    ensures forall e :: 0 <= e < envs ==> lastGae[e] == Advantage(r, steps, envs, d, step, e)
    ensures forall e :: 0 <= e < envs ==> advantages[step, e] == Advantage(r, steps, envs, d, step, e)
    ensures forall t, e :: 0 <= t < steps && t != step && 0 <= e < envs ==> advantages[t, e] == old(advantages[t, e])
  {
    hide Advantage;
    for e := 0 to envs
      invariant forall i :: 0 <= i < e ==> lastGae[i] == Advantage(r, steps, envs, d, step, i)
      invariant forall i :: e <= i < envs ==> lastGae[i] == Advantage(r, steps, envs, d, step + 1, i)
      invariant forall i :: 0 <= i < e ==> advantages[step, i] == Advantage(r, steps, envs, d, step, i)
      invariant forall t, i :: 0 <= t < steps && t != step && 0 <= i < envs ==>
        advantages[t, i] == old(advantages[t, i])
    {
      var nextValue := if step == steps - 1 then r.last[e] else r.values[step + 1][e];
      var notDone := if r.dones[step][e] then 0.0 else 1.0;
      var delta := r.rewards[step][e] + d.gamma * nextValue * notDone - r.values[step][e];
      AdvantageStep(r, steps, envs, d, step, e);
      lastGae[e] := delta + d.gamma * d.lambda * notDone * lastGae[e];
      advantages[step, e] := lastGae[e];
    }
  }

  /** The reversed loop, writing the advantages in place, computes the definition everywhere. */
  method ComputeAdvantages(r: Rollout, steps: nat, envs: nat, d: Discount) returns (advantages: array2<real>)
    requires Shaped(r, steps, envs)
    ensures fresh(advantages) && advantages.Length0 == steps && advantages.Length1 == envs
    ensures forall t, e :: 0 <= t < steps && 0 <= e < envs ==>
      advantages[t, e] == Advantage(r, steps, envs, d, t, e)
  {
    advantages := new real[steps, envs];
    var lastGae := new real[envs](i => 0.0);
    assert forall e :: 0 <= e < envs ==> lastGae[e] == Advantage(r, steps, envs, d, steps, e);
    hide Advantage;
    var step := steps;
    while step > 0
      invariant 0 <= step <= steps
      invariant forall e :: 0 <= e < envs ==> lastGae[e] == Advantage(r, steps, envs, d, step, e)
      invariant forall t, e :: step <= t < steps && 0 <= e < envs ==>
        advantages[t, e] == Advantage(r, steps, envs, d, t, e)
    {
      step := step - 1;
      UpdateStep(r, steps, envs, d, step, lastGae, advantages);
    }
  }

  // ── What the returns are ──────────────────────────────────────────────────

  /** advantages + values; past the last step, the bootstrap value. */
  function Return(r: Rollout, steps: nat, envs: nat, d: Discount, t: nat, e: nat): real
    requires Shaped(r, steps, envs) && t <= steps && e < envs
  {
    if t == steps then r.last[e] else Advantage(r, steps, envs, d, t, e) + r.values[t][e]
  }

  /** The lambda-return recursion: bootstrap from the value by 1 - lambda, from the next return by lambda. */
  lemma LambdaReturn(r: Rollout, steps: nat, envs: nat, d: Discount, t: nat, e: nat)
    requires Shaped(r, steps, envs) && t < steps && e < envs
    ensures Return(r, steps, envs, d, t, e)
         == r.rewards[t][e] + d.gamma * NotDone(r, steps, envs, t, e)
              * ((1.0 - d.lambda) * NextValue(r, steps, envs, t, e) + d.lambda * Return(r, steps, envs, d, t + 1, e))
  {
    AdvantageStep(r, steps, envs, d, t, e);
    Blend(d.gamma, d.lambda, NotDone(r, steps, envs, t, e), NextValue(r, steps, envs, t, e),
          Advantage(r, steps, envs, d, t + 1, e));
  }

  lemma Blend(g: real, l: real, nd: real, v: real, a: real)
    ensures g * v * nd + g * l * nd * a == g * nd * ((1.0 - l) * v + l * (a + v))
  {
    assert (1.0 - l) * v + l * (a + v) == v + l * a;
    assert g * nd * (v + l * a) == g * nd * v + g * nd * (l * a);
    assert g * nd * (l * a) == g * l * nd * a;
  }

  /** The first k terms of the gamma-discounted sum of rewards from step t on. */
  function DiscountedRewards(r: Rollout, steps: nat, envs: nat, gamma: real, t: nat, e: nat, k: nat): real
    requires Shaped(r, steps, envs) && t + k <= steps && e < envs
  {
    if k == 0 then 0.0
    else
      DiscountedRewards(r, steps, envs, gamma, t, e, k - 1) + Power(gamma, k - 1) * r.rewards[t + k - 1][e]
  }

  lemma {:induction false} RewardsShift(r: Rollout, steps: nat, envs: nat, gamma: real, t: nat, e: nat, k: nat)
    requires Shaped(r, steps, envs) && t + k + 1 <= steps && e < envs
    ensures DiscountedRewards(r, steps, envs, gamma, t, e, k + 1)
         == r.rewards[t][e] + gamma * DiscountedRewards(r, steps, envs, gamma, t + 1, e, k)
  {
    if k == 0 {
      assert DiscountedRewards(r, steps, envs, gamma, t, e, 0) == 0.0 && Power(gamma, 0) == 1.0;
      assert DiscountedRewards(r, steps, envs, gamma, t + 1, e, 0) == 0.0;
    } else {
      RewardsShift(r, steps, envs, gamma, t, e, k - 1);
      TermShift(gamma, DiscountedRewards(r, steps, envs, gamma, t + 1, e, k - 1), Power(gamma, k - 1),
                r.rewards[t + k][e]);
    }
  }

  /**
   With lambda 1 the return is the plain discounted return of the rest of the
   episode, plus the discounted bootstrap if the rollout cut the episode short.
   */
  lemma {:induction false} PlainReturn(r: Rollout, steps: nat, envs: nat, d: Discount, t: nat, e: nat)
    requires Shaped(r, steps, envs) && t < steps && e < envs && d.lambda == 1.0
    ensures
      var end := EpisodeEnd(r, steps, envs, t, e);
      Return(r, steps, envs, d, t, e)
      == DiscountedRewards(r, steps, envs, d.gamma, t, e, end - t + 1)
         + (if r.dones[end][e] then 0.0 else Power(d.gamma, end - t + 1) * r.last[e])
    decreases steps - t
  {
    var end := EpisodeEnd(r, steps, envs, t, e);
    LambdaReturn(r, steps, envs, d, t, e);
    RewardsShift(r, steps, envs, d.gamma, t, e, end - t);
    assert Power(d.gamma, end - t + 1) == Power(d.gamma, end - t) * d.gamma;
    if end == t {
      assert DiscountedRewards(r, steps, envs, d.gamma, t + 1, e, 0) == 0.0 && Power(d.gamma, 0) == 1.0;
    } else {
      PlainReturn(r, steps, envs, d, t + 1, e);
      var rewards := DiscountedRewards(r, steps, envs, d.gamma, t + 1, e, end - t);
      var tail := if r.dones[end][e] then 0.0 else Power(d.gamma, end - t) * r.last[e];
      assert d.gamma * (rewards + tail) == d.gamma * rewards + d.gamma * tail;
    }
  }

  // ── Nothing crosses the end of an episode ─────────────────────────────────

  /** Two rollouts that agree in environment e up to and including step t. */
  predicate AgreeTo(r: Rollout, q: Rollout, steps: nat, envs: nat, e: nat, t: nat)
    requires Shaped(r, steps, envs) && Shaped(q, steps, envs) && e < envs && t < steps
  {
    forall u :: 0 <= u <= t ==>
      r.rewards[u][e] == q.rewards[u][e] && r.dones[u][e] == q.dones[u][e] && r.values[u][e] == q.values[u][e]
  }

  /** Whatever happens after a done step leaves the advantages before it alone. */
  lemma {:induction false} EpisodesAreSeparate(
      r: Rollout, q: Rollout, steps: nat, envs: nat, d: Discount, e: nat, end: nat, t: nat)
    requires Shaped(r, steps, envs) && Shaped(q, steps, envs) && e < envs && t <= end < steps
    requires AgreeTo(r, q, steps, envs, e, end) && r.dones[end][e]
    ensures Advantage(r, steps, envs, d, t, e) == Advantage(q, steps, envs, d, t, e)
    decreases end - t
  {
    AdvantageStep(r, steps, envs, d, t, e);
    AdvantageStep(q, steps, envs, d, t, e);
    if !r.dones[t][e] {
      EpisodesAreSeparate(r, q, steps, envs, d, e, end, t + 1);
    }
  }
}
