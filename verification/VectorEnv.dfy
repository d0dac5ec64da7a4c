/**
 The synchronous vector environment's book-keeping: running and finished episode
 returns, and the seeds episodes restart on.
 */
module VectorEnv {
  /** What one sub-environment answers to a step. */
  datatype Outcome = Outcome(reward: real, ended: bool, won: bool)

  function Sum(xs: seq<real>): real {
    if xs == [] then 0.0 else Sum(xs[..|xs| - 1]) + xs[|xs| - 1]
  }

  function Rewards(outcomes: seq<Outcome>): real {
    if outcomes == [] then 0.0 else Rewards(outcomes[..|outcomes| - 1]) + outcomes[|outcomes| - 1].reward
  }

  lemma {:induction false} SumUpdate(xs: seq<real>, i: nat, x: real)
    requires i < |xs|
    ensures Sum(xs[i := x]) == Sum(xs) - xs[i] + x
  {
    var n := |xs| - 1;
    if i < n {
      SumUpdate(xs[..n], i, x);
      assert xs[i := x][..n] == xs[..n][i := x];
    } else {
      assert xs[i := x][..n] == xs[..n];
    }
  }

  lemma SumAppend(xs: seq<real>, x: real)
    ensures Sum(xs + [x]) == Sum(xs) + x
  {
    assert (xs + [x])[..|xs|] == xs;
  }

  lemma {:induction false} SumZeros(xs: seq<real>)
    requires forall i :: 0 <= i < |xs| ==> xs[i] == 0.0
    ensures Sum(xs) == 0.0
  {
    if xs != [] {
      SumZeros(xs[..|xs| - 1]);
    }
  }

  /** The returns of the episodes that the first n answers end, in the order of their sub-environments. */
  function Returned(before: seq<real>, outcomes: seq<Outcome>, n: nat): seq<real>
    requires n <= |outcomes| <= |before|
  {
    if n == 0 then []
    else Returned(before, outcomes, n - 1)
         + (if outcomes[n - 1].ended then [before[n - 1] + outcomes[n - 1].reward] else [])
  }

  /** Which of those episodes were won. */
  function WonBy(outcomes: seq<Outcome>, n: nat): seq<bool>
    requires n <= |outcomes|
  {
    if n == 0 then [] else WonBy(outcomes, n - 1) + (if outcomes[n - 1].ended then [outcomes[n - 1].won] else [])
  }

  const EPISODE_SEED_OFFSET := 100000

  /** The n seeds from a root on. */
  function SeedsFrom(root: int, n: nat): (r: set<int>)
    ensures |r| == n && forall s :: s in r <==> root <= s < root + n
  {
    if n == 0 then {} else SeedsFrom(root, n - 1) + {root + n - 1}
  }

  /** An env built on a root uses one seed for each sub-env, then one for each finished episode. */
  predicate Uses(root: int, envs: nat, finished: nat, s: int) {
    || root <= s < root + envs
    || root + EPISODE_SEED_OFFSET + envs <= s < root + EPISODE_SEED_OFFSET + envs + finished
  }

  class SyncVectorEnv {
    const numEnvs: nat
    const seed: int
    var episodeCounter: nat
    var episodeReturns: array<real>
    var finishedReturns: seq<real>
    var finishedWins: seq<bool>
    ghost var seedsUsed: set<int>

    /** The seeds handed out so far are the ones that the episode counter accounts for. */
    ghost predicate Valid()
      reads this, episodeReturns
    {
      && episodeReturns.Length == numEnvs <= episodeCounter
      && |finishedReturns| == |finishedWins|
      && |seedsUsed| == episodeCounter
      && forall s :: s in seedsUsed <==> Uses(seed, numEnvs, episodeCounter - numEnvs, s)
    }

    ghost function Collected(): real
      reads this, episodeReturns
    {
      Sum(finishedReturns) + Sum(episodeReturns[..])
    }

    constructor (envs: nat, root: int)
      ensures Valid() && fresh(episodeReturns) && numEnvs == envs && seed == root
      ensures finishedReturns == [] && forall i :: 0 <= i < envs ==> episodeReturns[i] == 0.0
      ensures episodeCounter == envs && Collected() == 0.0
    {
      numEnvs, seed, episodeCounter := envs, root, envs;
      episodeReturns := new real[envs](i => 0.0);
      finishedReturns, finishedWins := [], [];
      seedsUsed := SeedsFrom(root, envs);
      new;
      SumZeros(episodeReturns[..]);
    }

    /** Books one sub-environment's answer; a finished episode is stored and restarts on a fresh seed. */
    method Book(i: nat, outcome: Outcome)
      requires Valid() && i < numEnvs
      modifies this, episodeReturns
      ensures Valid() && episodeReturns == old(episodeReturns)
      ensures Collected() == old(Collected()) + outcome.reward
      ensures episodeReturns[i] == if outcome.ended then 0.0 else old(episodeReturns[i]) + outcome.reward
      ensures forall k :: 0 <= k < numEnvs && k != i ==> episodeReturns[k] == old(episodeReturns[k])
      ensures finishedReturns == old(finishedReturns)
        + (if outcome.ended then [old(episodeReturns[i]) + outcome.reward] else [])
      ensures finishedWins == old(finishedWins) + (if outcome.ended then [outcome.won] else [])
      ensures episodeCounter - old(episodeCounter) == |finishedReturns| - |old(finishedReturns)|
    {
      ghost var before := episodeReturns[..];
      var total := episodeReturns[i] + outcome.reward;
      SumUpdate(before, i, if outcome.ended then 0.0 else total);
      if outcome.ended {
        SumAppend(finishedReturns, total);
        finishedReturns := finishedReturns + [total];
        finishedWins := finishedWins + [outcome.won];
        episodeReturns[i] := 0.0;
        ghost var resetSeed := seed + EPISODE_SEED_OFFSET + episodeCounter;
        assert resetSeed !in seedsUsed;
        seedsUsed := seedsUsed + {resetSeed};
        episodeCounter := episodeCounter + 1;
      } else {
        episodeReturns[i] := total;
      }
      assert episodeReturns[..] == before[i := if outcome.ended then 0.0 else total];
    }

    /**
     One step of every sub-environment. Rewards are conserved between finished and
     running episodes, and no two episodes of this env ever share a seed.
     */
    method Step(outcomes: seq<Outcome>) returns (dones: seq<bool>)
      requires Valid() && |outcomes| == numEnvs
      modifies this, episodeReturns
      ensures Valid() && episodeReturns == old(episodeReturns)
      ensures |dones| == numEnvs && forall i :: 0 <= i < numEnvs ==> dones[i] == outcomes[i].ended
      ensures Collected() == old(Collected()) + Rewards(outcomes)
      ensures forall i :: 0 <= i < numEnvs ==>
        episodeReturns[i] == if dones[i] then 0.0 else old(episodeReturns[i]) + outcomes[i].reward
      ensures finishedReturns == old(finishedReturns) + Returned(old(episodeReturns[..]), outcomes, numEnvs)
      ensures finishedWins == old(finishedWins) + WonBy(outcomes, numEnvs)
      ensures episodeCounter - old(episodeCounter) == |finishedReturns| - |old(finishedReturns)|
    {
      ghost var before := episodeReturns[..];
      dones := [];
      for i := 0 to numEnvs
        invariant Valid() && episodeReturns == old(episodeReturns)
        invariant |dones| == i && forall k :: 0 <= k < i ==> dones[k] == outcomes[k].ended
        invariant Collected() == old(Collected()) + Rewards(outcomes[..i])
        invariant forall k :: 0 <= k < i ==>
          episodeReturns[k] == if dones[k] then 0.0 else before[k] + outcomes[k].reward
        invariant forall k :: i <= k < numEnvs ==> episodeReturns[k] == before[k]
        invariant finishedReturns == old(finishedReturns) + Returned(before, outcomes, i)
        invariant finishedWins == old(finishedWins) + WonBy(outcomes, i)
        invariant episodeCounter - old(episodeCounter) == |finishedReturns| - |old(finishedReturns)|
      {
        assert outcomes[..i + 1][..i] == outcomes[..i];
        Book(i, outcomes[i]);
        dones := dones + [outcomes[i].ended];
      }
      assert outcomes[..numEnvs] == outcomes;
    }
  }

  // ── Seeds across the envs of a training run ───────────────────────────────

  const ITERATION_SEED_STEP := 1000

  function IterationSeed(seed: int, iteration: nat): int {
    seed + iteration * ITERATION_SEED_STEP
  }

  /**
   Where two envs whose roots lie apart by a distance hand out one seed: among the
   first seeds, between the later seeds of the earlier env and the first ones of
   the later env, or among the later seeds of both.
   */
  predicate Collide(envs: nat, apart: nat, earlier: nat, later: nat) {
    || apart < envs
    || (envs > 0 && earlier > 0 && EPISODE_SEED_OFFSET < apart < EPISODE_SEED_OFFSET + envs + earlier)
    || (later > 0 && apart < earlier)
  }

  ghost predicate ShareSeed(a: int, b: int, envs: nat, earlier: nat, later: nat) {
    exists s :: Uses(a, envs, earlier, s) && Uses(b, envs, later, s)
  }

  lemma RootsCollide(a: int, apart: nat, envs: nat, earlier: nat, later: nat)
    requires apart > 0
    ensures ShareSeed(a, a + apart, envs, earlier, later) <==> Collide(envs, apart, earlier, later)
  {
    var s :=
      if apart < envs then a + apart
      else if later > 0 && apart < earlier then a + apart + EPISODE_SEED_OFFSET + envs
      else if apart >= EPISODE_SEED_OFFSET + envs then a + apart
      else a + EPISODE_SEED_OFFSET + envs;
    assert Collide(envs, apart, earlier, later) ==>
      Uses(a, envs, earlier, s) && Uses(a + apart, envs, later, s);
  }

  /** Each iteration builds its own env; two of them repeat a seed if and only if their roots are too close for that. */
  lemma SeedsRepeatExactly(seed: int, envs: nat, i: nat, j: nat, earlier: nat, later: nat)
    requires i < j
    ensures ShareSeed(IterationSeed(seed, i), IterationSeed(seed, j), envs, earlier, later)
       <==> Collide(envs, (j - i) * ITERATION_SEED_STEP, earlier, later)
  {
    RootsCollide(IterationSeed(seed, i), (j - i) * ITERATION_SEED_STEP, envs, earlier, later);
  }

  /** Up to a hundred iterations, up to a thousand envs, up to a thousand finished episodes each: no seed twice. */
  lemma SeedsStayApart(seed: int, envs: nat, i: nat, j: nat, earlier: nat, later: nat)
    requires i < j <= 100 && envs <= 1000 && earlier <= 1000
    ensures !ShareSeed(IterationSeed(seed, i), IterationSeed(seed, j), envs, earlier, later)
  {
    SeedsRepeatExactly(seed, envs, i, j, earlier, later);
  }
}
