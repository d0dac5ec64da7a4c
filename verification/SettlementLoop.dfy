/**
 The settlement loop: one pass over the jobs waiting for a verdict, and the
 in-memory backoff that keeps a failing job from being retried every tick.
 */
module SettlementLoop {
  import opened Arithmetic
  import opened Prelude

  type JobId = nat

  const FIRST_BACKOFF_MS := 60000
  const MAX_BACKOFF_MS := 30 * 60000

  datatype Entry = Entry(retryAt: int, failures: nat)

  type Backoff = map<JobId, Entry>

  /** The wait after the given number of failures in a row. */
  function Delay(failures: nat): int
    requires failures > 0
  {
    var delay := FIRST_BACKOFF_MS * Pow2(failures - 1);
    if delay < MAX_BACKOFF_MS then delay else MAX_BACKOFF_MS
  }

  predicate Skipped(b: Backoff, job: JobId, now: int) {
    job in b && now < b[job].retryAt
  }

  function AfterFailure(b: Backoff, job: JobId, now: int): Backoff {
    var failures := (if job in b then b[job].failures else 0) + 1;
    b[job := Entry(now + Delay(failures), failures)]
  }

  /** verifyAndSettle on one job: whether it settles, and the clock when it has answered. */
  datatype Attempt = Attempt(job: JobId, settled: bool, at: int)

  function AfterAttempt(b: Backoff, a: Attempt): Backoff {
    if a.settled then b - {a.job} else AfterFailure(b, a.job, a.at)
  }

  function AfterAttempts(b: Backoff, attempts: seq<Attempt>): Backoff {
    if attempts == [] then b else AfterAttempt(AfterAttempts(b, attempts[..|attempts| - 1]), attempts[|attempts| - 1])
  }

  /** The pending jobs whose wait is over, in order. */
  function Due(b: Backoff, pending: seq<JobId>, now: int): seq<JobId> {
    if pending == [] then []
    else
      var head := Due(b, pending[..|pending| - 1], now);
      if Skipped(b, pending[|pending| - 1], now) then head else head + [pending[|pending| - 1]]
  }

  class Loop {
    var backoff: Backoff

    constructor ()
      ensures backoff == map[]
    {
      backoff := map[];
    }

    predicate ShouldSkip(job: JobId, now: int)
      reads this
    {
      Skipped(backoff, job, now)
    }

    method RecordFailure(job: JobId, now: int) returns (delay: int)
      requires forall j :: j in backoff ==> backoff[j].failures > 0
      modifies this
      ensures backoff == AfterFailure(old(backoff), job, now)
      ensures delay == backoff[job].retryAt - now
      ensures forall t :: now <= t < now + FIRST_BACKOFF_MS ==> ShouldSkip(job, t)
    {
      var failures := (if job in backoff then backoff[job].failures else 0) + 1;
      delay := Delay(failures);
      DelayBounds(failures);
      backoff := backoff[job := Entry(now + delay, failures)];
    }

    /** Every due job is tried exactly once, in order, one at a time; answer(job) is what its attempt comes to. */
    method SettleOnce(pending: seq<JobId>, now: int, answer: JobId -> (bool, int)) returns (attempts: seq<Attempt>)
      requires forall j :: j in backoff ==> backoff[j].failures > 0
      modifies this
      ensures attempts == Answered(Due(old(backoff), pending, now), answer)
      ensures backoff == AfterAttempts(old(backoff), attempts)
      ensures forall j :: j in backoff ==> backoff[j].failures > 0
    {
      var due := [];
      for i := 0 to |pending|
        invariant due == Due(backoff, pending[..i], now)
      {
        assert pending[..i + 1][..i] == pending[..i];
        if !ShouldSkip(pending[i], now) {
          due := due + [pending[i]];
        }
      }
      assert pending[..|pending|] == pending;
      attempts := [];
      for i := 0 to |due|
        invariant attempts == Answered(due[..i], answer)
        invariant backoff == AfterAttempts(old(backoff), attempts)
        invariant forall j :: j in backoff ==> backoff[j].failures > 0
      {
        var job := due[i];
        var (settled, at) := answer(job);
        assert due[..i + 1][..i] == due[..i];
        ghost var before := attempts;
        attempts := attempts + [Attempt(job, settled, at)];
        assert attempts[..|attempts| - 1] == before;
        if settled {
          backoff := backoff - {job};
        } else {
          var _ := RecordFailure(job, at);
        }
      }
      assert due[..|due|] == due;
    }
  }

  function Answered(jobs: seq<JobId>, answer: JobId -> (bool, int)): seq<Attempt> {
    if jobs == [] then []
    else
      var job := jobs[|jobs| - 1];
      Answered(jobs[..|jobs| - 1], answer) + [Attempt(job, answer(job).0, answer(job).1)]
  }

  lemma {:induction false} Pow2Grows(j: nat, k: nat)
    requires j <= k
    ensures Pow2(j) <= Pow2(k)
  {
    if j < k {
      Pow2Grows(j, k - 1);
    }
  }

  /** The wait starts at a minute, doubles with each failure and stops growing at half an hour. */
  lemma DelayBounds(failures: nat)
    requires failures > 0
    ensures FIRST_BACKOFF_MS <= Delay(failures) <= MAX_BACKOFF_MS
    ensures failures <= 5 ==> Delay(failures) == FIRST_BACKOFF_MS * Pow2(failures - 1)
    ensures failures > 5 ==> Delay(failures) == MAX_BACKOFF_MS
  {
    assert Pow2(1) == 2 && Pow2(2) == 4 && Pow2(3) == 8 && Pow2(4) == 16 && Pow2(5) == 32;
    if failures <= 5 {
      Pow2Grows(failures - 1, 4);
    } else {
      Pow2Grows(5, failures - 1);
    }
  }

  /** The waits in minutes: 1, 2, 4, 8, 16, and half an hour ever after. */
  lemma {:induction false} DelaysInMinutes(failures: nat)
    requires failures > 0
    ensures Delay(1) == 60000 && Delay(2) == 120000 && Delay(3) == 240000 && Delay(4) == 480000 && Delay(5) == 960000
    ensures failures > 5 ==> Delay(failures) == 1800000
  {
    assert Pow2(0) == 1 && Pow2(1) == 2 && Pow2(2) == 4 && Pow2(3) == 8 && Pow2(4) == 16;
    DelayBounds(failures);
    hide Delay;
    DelayBounds(1);
    DelayBounds(2);
    DelayBounds(3);
    DelayBounds(4);
    DelayBounds(5);
  }

  /** Which of the pending jobs a pass tries: those that never failed since they last settled, or whose wait is over. */
  lemma {:induction false} DueExactly(b: Backoff, pending: seq<JobId>, now: int, job: JobId)
    ensures job in Due(b, pending, now) <==> job in pending && (job !in b || now >= b[job].retryAt)
  {
    if pending != [] {
      DueExactly(b, pending[..|pending| - 1], now, job);
      assert pending == pending[..|pending| - 1] + [pending[|pending| - 1]];
    }
  }

  /** What one attempt leaves: a settled job is forgotten, a failed one waits from when it answered, others stay. */
  lemma {:induction false} AttemptInNumbers(b: Backoff, a: Attempt, job: JobId)
    ensures a.settled ==> a.job !in AfterAttempt(b, a)
    ensures !a.settled ==>
      a.job in AfterAttempt(b, a)
      && AfterAttempt(b, a)[a.job].failures == (if a.job in b then b[a.job].failures else 0) + 1
      && AfterAttempt(b, a)[a.job].retryAt == a.at + Delay(AfterAttempt(b, a)[a.job].failures)
    ensures job != a.job ==>
      (job in AfterAttempt(b, a) <==> job in b) && (job in b ==> AfterAttempt(b, a)[job] == b[job])
  {
    hide Delay;
  }

  /** Passes over one job: when each starts, and the attempt it makes if it is due. */
  ghost predicate Follows(b: Backoff, job: JobId, at: seq<int>, answers: seq<int>)
    requires |at| == |answers|
  {
    if at == [] then true
    else
      var n := |at| - 1;
      && Follows(b, job, at[..n], answers[..n])
      && !Skipped(Failing(b, job, answers[..n]), job, at[n]) && at[n] <= answers[n]
  }

  /** The backoff after failures answered at the given times. */
  function Failing(b: Backoff, job: JobId, answers: seq<int>): Backoff {
    if answers == [] then b else AfterFailure(Failing(b, job, answers[..|answers| - 1]), job, answers[|answers| - 1])
  }

  lemma {:induction false} FailureCount(b: Backoff, job: JobId, answers: seq<int>)
    requires job !in b && answers != []
    ensures var m := Failing(b, job, answers);
      job in m && m[job].failures == |answers| && m[job].retryAt == answers[|answers| - 1] + Delay(|answers|)
  {
    if |answers| > 1 {
      FailureCount(b, job, answers[..|answers| - 1]);
    } else {
      assert answers[..0] == [];
    }
  }

  lemma FollowsPrefix(b: Backoff, job: JobId, at: seq<int>, answers: seq<int>, n: nat)
    requires |at| == |answers| && n <= |at| && Follows(b, job, at, answers)
    ensures Follows(b, job, at[..n], answers[..n])
    decreases |at| - n
  {
    if n < |at| {
      FollowsPrefix(b, job, at, answers, n + 1);
      assert at[..n + 1][..n] == at[..n] && answers[..n + 1][..n] == answers[..n];
    } else {
      assert at[..n] == at && answers[..n] == answers;
    }
  }

  /**
   A job that keeps failing is tried at most once a minute, and from its sixth
   failure in a row at most once every half hour.
   */
  lemma AttemptsSpread(b: Backoff, job: JobId, at: seq<int>, answers: seq<int>, k: nat)
    requires job !in b && |at| == |answers| && Follows(b, job, at, answers) && 0 < k < |at|
    ensures at[k] >= answers[k - 1] + Delay(k) >= at[k - 1] + Delay(k)
    ensures k > 5 ==> at[k] - at[k - 1] >= MAX_BACKOFF_MS
  {
    FollowsPrefix(b, job, at, answers, k + 1);
    assert at[..k + 1][k] == at[k] && answers[..k + 1][..k] == answers[..k] && at[..k + 1][..k] == at[..k];
    FailureCount(b, job, answers[..k]);
    assert at[..k][k - 1] == at[k - 1] && answers[..k][k - 1] == answers[k - 1];
    FollowsPrefix(b, job, at, answers, k);
    DelayBounds(k);
  }
}
