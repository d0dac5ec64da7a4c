/**
 The training job queue: the rows, the worker's UPDATE statements over them, and
 what any number of claiming, reporting, sweeping and dying workers keep.
 */
module TrainingQueue {
  import opened Prelude

  type JobId = nat
  type Worker = nat

  datatype JobStatus = QUEUED | RUNNING | COMPLETED | FAILED | CANCELLED

  /** trainable: the type is one of the two this worker serves; paid: config has a marketplaceJobId. */
  datatype Job = Job(
    status: JobStatus,
    trainable: bool,
    paid: bool,
    priority: int,
    createdAt: int,
    claimedBy: Option<Worker>,
    heartbeatAt: Option<int>)

  type Table = map<JobId, Job>

  // ── The statements ────────────────────────────────────────────────────────

  predicate Eligible(j: Job, paidOnly: bool) {
    j.status.QUEUED? && j.trainable && (paidOnly ==> j.paid)
  }

  /** ORDER BY priority, createdAt. */
  predicate Before(a: Job, b: Job) {
    a.priority < b.priority || (a.priority == b.priority && a.createdAt <= b.createdAt)
  }

  function Claimed(j: Job, w: Worker, now: int): Job {
    j.(status := RUNNING, claimedBy := Some(w), heartbeatAt := Some(now))
  }

  /** A null heartbeat is never stale. */
  predicate Stale(j: Job, now: int, limit: int) {
    j.status.RUNNING? && j.heartbeatAt.Some? && j.heartbeatAt.value < now - limit
  }

  function Requeued(j: Job): Job {
    j.(status := QUEUED, claimedBy := None)
  }

  function Swept(jobs: Table, now: int, limit: int): Table {
    map id | id in jobs :: if Stale(jobs[id], now, limit) then Requeued(jobs[id]) else jobs[id]
  }

  function Reported(j: Job, now: int): Job {
    j.(heartbeatAt := Some(now))
  }

  function Finished(j: Job, status: JobStatus, now: int): Job {
    j.(status := status, heartbeatAt := Some(now))
  }

  /** What the claim statement may pick among the rows nobody holds a lock on. */
  ghost predicate Picks(jobs: Table, locked: set<JobId>, paidOnly: bool, id: JobId) {
    && id in jobs && id !in locked && Eligible(jobs[id], paidOnly)
    && forall k :: k in jobs && k !in locked && Eligible(jobs[k], paidOnly) ==> Before(jobs[id], jobs[k])
  }

  class Queue {
    var jobs: Table

    constructor (rows: Table)
      ensures jobs == rows
    {
      jobs := rows;
    }

    /** Select and update in one statement: rows locked by other claims are skipped, not waited for. */
    method ClaimNextJob(worker: Worker, now: int, locked: set<JobId>, paidOnly: bool) returns (claim: Option<JobId>)
      modifies this
      ensures claim.None? ==>
        jobs == old(jobs) && forall k :: k in jobs && k !in locked ==> !Eligible(jobs[k], paidOnly)
      ensures claim.Some? ==>
        Picks(old(jobs), locked, paidOnly, claim.value)
        && jobs == old(jobs)[claim.value := Claimed(old(jobs)[claim.value], worker, now)]
      ensures claim.Some? ==>
        var was := old(jobs)[claim.value];
        && claim.value !in locked && was.status == QUEUED && was.trainable && (paidOnly ==> was.paid)
        && jobs[claim.value]
           == was.(status := RUNNING, claimedBy := Some(worker), heartbeatAt := Some(now))
        && forall k :: k in old(jobs) && k !in locked && Eligible(old(jobs)[k], paidOnly) ==>
             was.priority <= old(jobs)[k].priority
             && (was.priority == old(jobs)[k].priority ==> was.createdAt <= old(jobs)[k].createdAt)
    {
      claim := None;
      var todo := jobs.Keys - locked;
      while todo != {}
        invariant jobs == old(jobs) && todo <= jobs.Keys - locked
        invariant claim.None? ==> forall k :: k in jobs.Keys - locked - todo ==> !Eligible(jobs[k], paidOnly)
        invariant claim.Some? ==>
          claim.value in jobs.Keys - locked - todo && Eligible(jobs[claim.value], paidOnly)
        invariant claim.Some? ==>
          forall k :: k in jobs.Keys - locked - todo && Eligible(jobs[k], paidOnly) ==>
            Before(jobs[claim.value], jobs[k])
        decreases |todo|
      {
        var id :| id in todo;
        todo := todo - {id};
        if Eligible(jobs[id], paidOnly) && (claim.None? || !Before(jobs[claim.value], jobs[id])) {
          claim := Some(id);
        }
      }
      if claim.Some? {
        assert Picks(jobs, locked, paidOnly, claim.value);
        jobs := jobs[claim.value := Claimed(jobs[claim.value], worker, now)];
      }
    }

    method RequeueStaleJobs(now: int, limit: int) returns (requeued: nat)
      modifies this
      ensures jobs == Swept(old(jobs), now, limit)
      ensures requeued == |set id | id in old(jobs) && Stale(old(jobs)[id], now, limit)|
      ensures limit >= 0 ==> forall id :: id in jobs ==> !Stale(jobs[id], now, limit)
      ensures jobs.Keys == old(jobs).Keys
      ensures forall id :: id in jobs ==>
        var was := old(jobs)[id];
        jobs[id] ==
          if was.status == RUNNING && was.heartbeatAt.Some? && was.heartbeatAt.value + limit < now
          then was.(status := QUEUED, claimedBy := None) else was
    {
      var stale := set id | id in jobs && Stale(jobs[id], now, limit);
      requeued := |stale|;
      jobs := Swept(jobs, now, limit);
    }

    /**
     Progress goes to the row by id alone: it does not ask who holds the claim. A
     running job is then safe from sweeps for exactly the limit.
     */
    method ReportProgress(id: JobId, now: int)
      requires id in jobs
      modifies this
      ensures jobs == old(jobs)[id := Reported(old(jobs)[id], now)]
      ensures forall t: int, limit: int ::
        Stale(jobs[id], t, limit) <==> old(jobs)[id].status.RUNNING? && t > now + limit
      ensures forall paidOnly :: Eligible(jobs[id], paidOnly) <==> Eligible(old(jobs)[id], paidOnly)
      ensures jobs[id].heartbeatAt == Some(now) && jobs[id].status == old(jobs)[id].status
    {
      jobs := jobs[id := Reported(jobs[id], now)];
    }

    /** A finished job is no claim's and no sweep's business again, whatever its row said before. */
    method Finish(id: JobId, completed: bool, now: int)
      requires id in jobs
      modifies this
      ensures jobs == old(jobs)[id := Finished(old(jobs)[id], if completed then COMPLETED else FAILED, now)]
      ensures jobs[id].status == (if completed then COMPLETED else FAILED)
      ensures forall paidOnly :: !Eligible(jobs[id], paidOnly)
      ensures forall t: int, limit: int :: !Stale(jobs[id], t, limit)
    {
      jobs := jobs[id := Finished(jobs[id], if completed then COMPLETED else FAILED, now)];
    }
  }

  // ── Runs of many workers ──────────────────────────────────────────────────

  /** at[w]: the job a live worker is executing, if any. Stopped workers are not in the map. */
  datatype State = State(jobs: Table, at: map<Worker, Option<JobId>>, now: int)

  datatype Step =
    | Tick(now: int)
    | Enqueue(id: JobId, job: Job)
    | Cancel(id: JobId)
    | Arrive(w: Worker)
    | Claim(w: Worker, locked: set<JobId>, paidOnly: bool, id: JobId)
    | Report(w: Worker)
    | Finish(w: Worker, completed: bool)
    | Sweep(w: Worker)
    | Crash(w: Worker)

  ghost predicate Enabled(s: State, st: Step) {
    match st
    case Tick(now) => s.now <= now
    case Enqueue(id, job) => id !in s.jobs && job.status.QUEUED?
    case Cancel(id) => id in s.jobs && (s.jobs[id].status.QUEUED? || s.jobs[id].status.RUNNING?)
    case Arrive(w) => w !in s.at
    case Claim(w, locked, paidOnly, id) => w in s.at && s.at[w].None? && Picks(s.jobs, locked, paidOnly, id)
    case Report(w) => w in s.at && s.at[w].Some? && s.at[w].value in s.jobs
    case Finish(w, _) => w in s.at && s.at[w].Some? && s.at[w].value in s.jobs
    case Sweep(w) => w in s.at && s.at[w].None?
    case Crash(w) => w in s.at
  }

  ghost function Next(s: State, st: Step, limit: int): State
    requires Enabled(s, st)
  {
    match st
    case Tick(now) => s.(now := now)
    case Enqueue(id, job) => s.(jobs := s.jobs[id := job])
    case Cancel(id) => s.(jobs := s.jobs[id := s.jobs[id].(status := CANCELLED)])
    case Arrive(w) => s.(at := s.at[w := None])
    case Claim(w, _, _, id) =>
      s.(jobs := s.jobs[id := Claimed(s.jobs[id], w, s.now)], at := s.at[w := Some(id)])
    case Report(w) => s.(jobs := s.jobs[s.at[w].value := Reported(s.jobs[s.at[w].value], s.now)])
    case Finish(w, completed) =>
      var id := s.at[w].value;
      s.(jobs := s.jobs[id := Finished(s.jobs[id], if completed then COMPLETED else FAILED, s.now)],
         at := s.at[w := None])
    case Sweep(w) => s.(jobs := Swept(s.jobs, s.now, limit))
    case Crash(w) => s.(at := s.at - {w})
  }

  /** Whenever a sweep looks, every live worker has reported within the limit. */
  ghost predicate HeartbeatsFresh(s: State, st: Step, limit: int) {
    st.Sweep? ==>
      forall w :: w in s.at && s.at[w].Some? && s.at[w].value in s.jobs ==> !Stale(s.jobs[s.at[w].value], s.now, limit)
  }

  datatype Run = Begin(rows: Table, now: int) | Then(prev: Run, step: Step)

  ghost function End(r: Run, limit: int): State {
    match r
    case Begin(rows, now) => State(rows, map[], now)
    case Then(prev, st) => if Enabled(End(prev, limit), st) then Next(End(prev, limit), st, limit) else End(prev, limit)
  }

  ghost predicate Valid(r: Run, limit: int, punctual: bool) {
    match r
    case Begin(rows, _) => forall id :: id in rows ==> !rows[id].status.RUNNING?
    case Then(prev, st) =>
      && Valid(prev, limit, punctual) && Enabled(End(prev, limit), st)
      && (punctual ==> HeartbeatsFresh(End(prev, limit), st, limit))
  }

  // ── Nothing is lost ───────────────────────────────────────────────────────

  /** A RUNNING row carries a heartbeat, which lets a sweep return it, and was taken by a worker that can serve it. */
  ghost predicate Returnable(s: State) {
    forall id :: id in s.jobs && s.jobs[id].status.RUNNING? ==> s.jobs[id].heartbeatAt.Some? && s.jobs[id].trainable
  }

  ghost predicate JobsExist(s: State) {
    forall w :: w in s.at && s.at[w].Some? ==> s.at[w].value in s.jobs
  }

  lemma {:induction false} ReturnableKept(s: State, st: Step, limit: int)
    requires Returnable(s) && JobsExist(s) && Enabled(s, st)
    ensures Returnable(Next(s, st, limit)) && JobsExist(Next(s, st, limit))
  {
  }

  lemma {:induction false} ReturnableAlways(r: Run, limit: int, punctual: bool)
    requires Valid(r, limit, punctual)
    ensures Returnable(End(r, limit)) && JobsExist(End(r, limit))
  {
    match r
    case Begin(_, _) =>
    case Then(prev, st) =>
      ReturnableAlways(prev, limit, punctual);
      ReturnableKept(End(prev, limit), st, limit);
  }

  // ── A silent job returns ──────────────────────────────────────────────────

  /** The step writes the row of job id, or takes it. */
  predicate Touches(s: State, st: Step, id: JobId) {
    match st
    case Cancel(k) => k == id
    case Claim(_, _, _, k) => k == id
    case Report(w) => w in s.at && s.at[w] == Some(id)
    case Finish(w, _) => w in s.at && s.at[w] == Some(id)
    case _ => false
  }

  /** The run goes on from mark without a sign of life from job id. */
  ghost predicate QuietSince(r: Run, mark: Run, limit: int, id: JobId) {
    r == mark || (r.Then? && QuietSince(r.prev, mark, limit, id) && !Touches(End(r.prev, limit), r.step, id))
  }

  /** Since mark some worker swept, at a time past the deadline. */
  ghost predicate SweptPast(r: Run, mark: Run, limit: int, deadline: int) {
    r != mark && r.Then?
    && (SweptPast(r.prev, mark, limit, deadline) || (r.step.Sweep? && End(r.prev, limit).now > deadline))
  }

  /**
   Whatever the other workers, sweeps and clocks do in between, with or without the
   heartbeat assumption: a running job that gives no sign of life is back in the
   queue, in its old place, if and only if a sweep came after its last heartbeat
   and the limit; until then its row is as it was.
   */
  lemma {:induction false} SilentJobReturnsExactly(r: Run, mark: Run, limit: int, punctual: bool, id: JobId)
    requires Valid(r, limit, punctual) && QuietSince(r, mark, limit, id)
    requires id in End(mark, limit).jobs && End(mark, limit).jobs[id].status.RUNNING?
    ensures Valid(mark, limit, punctual)
    ensures id in End(r, limit).jobs && End(mark, limit).jobs[id].heartbeatAt.Some?
    ensures
      var job := End(mark, limit).jobs[id];
      End(r, limit).jobs[id]
        == if SweptPast(r, mark, limit, job.heartbeatAt.value + limit) then Requeued(job) else job
  {
    if r == mark {
      ReturnableAlways(r, limit, punctual);
    } else {
      SilentJobReturnsExactly(r.prev, mark, limit, punctual, id);
    }
  }

  /**
   and then a worker gets it: once no other open job stands before it, every claim
   that may serve it answers with it and with nothing else.
   */
  lemma {:induction false} ReturnedJobIsClaimed(r: Run, mark: Run, limit: int, punctual: bool, id: JobId,
                             w: Worker, locked: set<JobId>, paidOnly: bool)
    requires Valid(r, limit, punctual) && QuietSince(r, mark, limit, id)
    requires id in End(mark, limit).jobs && End(mark, limit).jobs[id].status.RUNNING?
    requires
      var job := End(mark, limit).jobs[id];
      job.heartbeatAt.Some? && SweptPast(r, mark, limit, job.heartbeatAt.value + limit) && (paidOnly ==> job.paid)
    requires id !in locked && w in End(r, limit).at && End(r, limit).at[w].None?
    requires
      var jobs := End(r, limit).jobs;
      forall k :: k in jobs && k !in locked && k != id && Eligible(jobs[k], paidOnly) ==>
        id in jobs && !Before(jobs[k], jobs[id])
    ensures forall k :: Picks(End(r, limit).jobs, locked, paidOnly, k) <==> k == id
    ensures Enabled(End(r, limit), Claim(w, locked, paidOnly, id))
    ensures Next(End(r, limit), Claim(w, locked, paidOnly, id), limit).at[w] == Some(id)
  {
    SilentJobReturnsExactly(r, mark, limit, punctual, id);
    ReturnableAlways(mark, limit, punctual);
  }

  // ── A job worked through ──────────────────────────────────────────────────

  /**
   What a worker does with a job when nothing disturbs it: it takes the one that goes
   first, by the smaller priority number and then by the earlier creation, reports, and
   leaves it COMPLETED or FAILED as the work went; then it is free again.
   */
  lemma {:induction false} WorkedThrough(s: State, w: Worker, locked: set<JobId>, paidOnly: bool, id: JobId,
                                         completed: bool, limit: int)
    requires Enabled(s, Claim(w, locked, paidOnly, id))
    ensures s.jobs[id].status == QUEUED && s.jobs[id].trainable && (paidOnly ==> s.jobs[id].paid)
    ensures forall k :: k in s.jobs && k !in locked && Eligible(s.jobs[k], paidOnly) ==>
      s.jobs[id].priority < s.jobs[k].priority
      || (s.jobs[id].priority == s.jobs[k].priority && s.jobs[id].createdAt <= s.jobs[k].createdAt)
    ensures
      var claimed := Next(s, Claim(w, locked, paidOnly, id), limit);
      && claimed.at[w] == Some(id) && claimed.jobs[id].claimedBy == Some(w)
      && Enabled(claimed, Report(w)) && Enabled(claimed, Step.Finish(w, completed)) && !Enabled(claimed, Sweep(w))
      && var reported := Next(claimed, Report(w), limit);
         var done := Next(reported, Step.Finish(w, completed), limit);
         && reported.jobs[id].status == RUNNING && reported.jobs[id].heartbeatAt == Some(s.now)
         && done.jobs[id].status == (if completed then COMPLETED else FAILED) && done.at[w] == None
         && Enabled(done, Sweep(w))
  {
  }

  /** A job can be cancelled while it is queued and while it is running, and then no claim takes it. */
  lemma {:induction false} Cancellable(s: State, id: JobId, limit: int)
    ensures Enabled(s, Cancel(id)) <==> id in s.jobs && (s.jobs[id].status == QUEUED || s.jobs[id].status == RUNNING)
    ensures Enabled(s, Cancel(id)) ==>
      Next(s, Cancel(id), limit).jobs[id].status == CANCELLED
      && forall paidOnly :: !Eligible(Next(s, Cancel(id), limit).jobs[id], paidOnly)
  {
  }

  // ── One live worker a job ─────────────────────────────────────────────────

  ghost predicate OneWorkerEach(s: State) {
    forall v, w :: v in s.at && w in s.at && s.at[v].Some? && s.at[v] == s.at[w] ==> v == w
  }

  /** A job being executed is claimed by its worker and not up for claiming. */
  ghost predicate ClaimsHeld(s: State) {
    forall w :: w in s.at && s.at[w].Some? ==> Held(s, w, s.at[w].value)
  }

  predicate Held(s: State, w: Worker, id: JobId) {
    id in s.jobs && s.jobs[id].claimedBy == Some(w) && (s.jobs[id].status.RUNNING? || s.jobs[id].status.CANCELLED?)
  }

  lemma {:induction false} HeldKept(s: State, st: Step, limit: int, w: Worker)
    requires OneWorkerEach(s) && ClaimsHeld(s) && Enabled(s, st) && HeartbeatsFresh(s, st, limit)
    requires w in Next(s, st, limit).at && Next(s, st, limit).at[w].Some?
    ensures Held(Next(s, st, limit), w, Next(s, st, limit).at[w].value)
  {
    if w in s.at && s.at[w].Some? {
      assert Held(s, w, s.at[w].value);
    }
  }

  lemma {:induction false} ExclusiveKept(s: State, st: Step, limit: int)
    requires OneWorkerEach(s) && ClaimsHeld(s) && Enabled(s, st) && HeartbeatsFresh(s, st, limit)
    ensures OneWorkerEach(Next(s, st, limit)) && ClaimsHeld(Next(s, st, limit))
  {
    var s' := Next(s, st, limit);
    forall w | w in s'.at && s'.at[w].Some?
      ensures Held(s', w, s'.at[w].value)
    {
      HeldKept(s, st, limit, w);
    }
  }

  lemma {:induction false} ExclusiveAlways(r: Run, limit: int)
    requires Valid(r, limit, true)
    ensures OneWorkerEach(End(r, limit)) && ClaimsHeld(End(r, limit))
  {
    match r
    case Begin(_, _) =>
    case Then(prev, st) =>
      ExclusiveAlways(prev, limit);
      ExclusiveKept(End(prev, limit), st, limit);
  }

  /**
   If live workers report within the limit, no job is ever executed by two of
   them, whatever claims, sweeps, crashes and cancellations are interleaved, and
   no claim picks a job a live worker has.
   */
  lemma {:induction false} NoJobTwice(r: Run, limit: int, st: Step)
    requires Valid(r, limit, true) && Enabled(End(r, limit), st) && st.Claim?
    ensures forall v, w :: v in End(r, limit).at && w in End(r, limit).at && v != w && End(r, limit).at[v].Some? ==>
      End(r, limit).at[v] != End(r, limit).at[w]
    ensures forall w :: w in End(r, limit).at ==> End(r, limit).at[w] != Some(st.id)
  {
    ExclusiveAlways(r, limit);
    var s := End(r, limit);
    forall w | w in s.at
      ensures s.at[w] != Some(st.id)
    {
      assert s.at[w].Some? ==> Held(s, w, s.at[w].value);
    }
  }

  // ── Without the assumption ────────────────────────────────────────────────

  const PAID := Job(QUEUED, true, true, 1, 0, None, None)

  lemma {:induction false} Extend(r: Run, st: Step, limit: int, s: State) returns (longer: Run)
    requires Valid(r, limit, false) && Enabled(End(r, limit), st) && Next(End(r, limit), st, limit) == s
    ensures Valid(longer, limit, false) && End(longer, limit) == s
  {
    longer := Then(r, st);
  }

  /** A worker that is slow, not dead, shares its job with whoever claims it after a sweep. */
  lemma {:induction false} SlowWorkerSharesJob() returns (r: Run)
    ensures Valid(r, 300, false)
    ensures 0 in End(r, 300).at && 1 in End(r, 300).at && End(r, 300).at[0] == End(r, 300).at[1] == Some(5)
  {
    r := Begin(map[5 := PAID], 0);
    r := Extend(r, Arrive(0), 300, State(map[5 := PAID], map[0 := None], 0));
    assert Picks(map[5 := PAID], {}, true, 5);
    r := Extend(r, Claim(0, {}, true, 5), 300, State(map[5 := Claimed(PAID, 0, 0)], map[0 := Some(5)], 0));
    r := SecondArrives(r);
  }

  lemma {:induction false} SecondArrives(r: Run) returns (r': Run)
    requires Valid(r, 300, false)
    requires End(r, 300) == State(map[5 := Claimed(PAID, 0, 0)], map[0 := Some(5)], 0)
    ensures Valid(r', 300, false)
    ensures 0 in End(r', 300).at && 1 in End(r', 300).at && End(r', 300).at[0] == End(r', 300).at[1] == Some(5)
  {
    hide Valid;
    hide End;
    var held := Claimed(PAID, 0, 0);
    r' := Extend(r, Tick(301), 300, State(map[5 := held], map[0 := Some(5)], 301));
    r' := Extend(r', Arrive(1), 300, State(map[5 := held], map[0 := Some(5), 1 := None], 301));
    assert Swept(map[5 := held], 301, 300) == map[5 := Requeued(held)];
    r' := Extend(r', Sweep(1), 300, State(map[5 := Requeued(held)], map[0 := Some(5), 1 := None], 301));
    assert Picks(map[5 := Requeued(held)], {}, true, 5);
    r' := Extend(r', Claim(1, {}, true, 5), 300,
                 State(map[5 := Claimed(held, 1, 301)], map[0 := Some(5), 1 := Some(5)], 301));
  }
}
