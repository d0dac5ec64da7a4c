/**
 The marketplace job's database row from its draft to its verdict, and every write
 the services make to its status. Each write is one UPDATE.
 */
module JobRow {
  import opened Prelude

  datatype JobStatus =
    DRAFT | POSTING | POSTED | FAILED | NEGOTIATING | ESCROWED | EXECUTING | DELIVERED | SETTLED | REFUNDED

  type TrainingId = nat
  type SnapshotId = nat
  type Digest = nat

  const VERIFICATION_CLAIM_MS := 15 * 60 * 1000

  /** The columns that decide something; the claim is the verification worker's. */
  datatype Row = Row(
    status: JobStatus,
    training: Option<TrainingId>,
    deliverable: Option<Digest>,
    snapshot: Option<SnapshotId>,
    claimedAt: Option<int>,
    accepted: Option<bool>,
    verified: Option<real>)

  const NEW_JOB := Row(DRAFT, None, None, None, None, None, None)

  predicate Terminal(status: JobStatus) {
    status.SETTLED? || status.REFUNDED?
  }

  /** The statuses of a job whose work has not been handed over. */
  predicate Early(status: JobStatus) {
    !status.DELIVERED? && !Terminal(status)
  }

  // ── Who takes a row up ────────────────────────────────────────────────────

  /** startExecution begins work on it. */
  predicate Startable(r: Row) {
    r.status.ESCROWED? && r.training.None?
  }

  /** pollExecution follows its training. */
  predicate Pollable(r: Row) {
    r.status.EXECUTING? && r.training.Some?
  }

  /** The WHERE clause of the verification claim. */
  predicate Claimable(r: Row, now: int) {
    && r.status.DELIVERED? && r.snapshot.None?
    && (r.claimedAt.None? || r.claimedAt.value < now - VERIFICATION_CLAIM_MS)
  }

  /** The WHERE clause of the settlement loop. */
  predicate PendingVerdict(r: Row) {
    r.status.DELIVERED? && r.snapshot.Some? && r.accepted.None?
  }

  // ── The writes ────────────────────────────────────────────────────────────

  function WithStatus(r: Row, status: JobStatus): Row {
    r.(status := status)
  }

  function Started(r: Row, t: TrainingId): Row {
    r.(training := Some(t), status := EXECUTING)
  }

  function Delivered(r: Row, d: Digest): Row {
    r.(status := DELIVERED, deliverable := Some(d))
  }

  function Claimed(r: Row, now: int): Row {
    r.(claimedAt := Some(now))
  }

  function Verified(r: Row, id: SnapshotId): Row {
    r.(snapshot := Some(id), claimedAt := None)
  }

  function Settled(r: Row, accepted: bool, measured: real): Row {
    r.(status := if accepted then SETTLED else REFUNDED, accepted := Some(accepted), verified := Some(measured))
  }

  class A2AJob {
    var status: JobStatus
    var training: Option<TrainingId>
    var deliverable: Option<Digest>
    var snapshot: Option<SnapshotId>
    var claimedAt: Option<int>
    var accepted: Option<bool>
    var verified: Option<real>

    function Value(): Row
      reads this
    {
      Row(status, training, deliverable, snapshot, claimedAt, accepted, verified)
    }

    constructor ()
      ensures Value() == NEW_JOB
    {
      status, training, deliverable, snapshot := DRAFT, None, None, None;
      claimedAt, accepted, verified := None, None, None;
    }

    /**
     The funding route's write looks at nothing. It opens an untouched job to
     startExecution; a job whose training has begun is left to nobody: neither
     startExecution nor pollExecution nor verification takes it up again.
     */
    method RecordFunding()
      modifies this
      ensures Value() == WithStatus(old(Value()), ESCROWED)
      ensures Startable(Value()) <==> old(training) == None
      ensures old(training) != None ==>
        !Startable(Value()) && !Pollable(Value()) && !PendingVerdict(Value()) && forall t :: !Claimable(Value(), t)
    {
      status := ESCROWED;
    }

    /**
     Unconditional: whatever the row has become since it was read, it is EXECUTING
     again. From here only the poller takes it up, and a second start finds it begun.
     */
    method RecordStart(t: TrainingId)
      modifies this
      ensures Value() == Started(old(Value()), t)
      ensures status == EXECUTING && training == Some(t)
      ensures Pollable(Value()) && !Startable(Value())
      ensures !PendingVerdict(Value()) && forall now :: !Claimable(Value(), now)
    {
      training, status := Some(t), EXECUTING;
    }

    /**
     The poller is done with the row, and the verification workers may have it: at
     any time if nobody holds a claim, and never if it is verified already.
     */
    method RecordDelivery(d: Digest)
      modifies this
      ensures Value() == Delivered(old(Value()), d)
      ensures status == DELIVERED && deliverable == Some(d)
      ensures !Pollable(Value()) && !Startable(Value())
      ensures old(snapshot) == None && old(claimedAt) == None ==> forall now :: Claimable(Value(), now)
      ensures old(snapshot) != None ==> forall now :: !Claimable(Value(), now)
    {
      status, deliverable := DELIVERED, Some(d);
    }

    /** Claim and select in one statement; a claim stands until its quarter of an hour is over. */
    method ClaimVerification(now: int) returns (claimed: bool)
      modifies this
      ensures claimed <==> Claimable(old(Value()), now)
      ensures Value() == if claimed then Claimed(old(Value()), now) else old(Value())
      ensures claimed <==>
        old(status) == DELIVERED && old(snapshot).None?
        && (old(claimedAt).None? || now > old(claimedAt).value + 900000)
      ensures claimed ==> forall t :: Claimable(Value(), t) <==> t > now + 900000
    {
      var staleBefore := now - VERIFICATION_CLAIM_MS;
      claimed := status == DELIVERED && snapshot == None && (claimedAt == None || claimedAt.value < staleBefore);
      if claimed {
        claimedAt := Some(now);
      }
    }

    /** A failed verification keeps the claim as its backoff, or parks it far in the future. */
    method FailVerification(until: int)
      modifies this
      ensures Value() == Claimed(old(Value()), until)
      ensures forall now :: now <= until + VERIFICATION_CLAIM_MS ==> !Claimable(Value(), now)
    {
      claimedAt := Some(until);
    }

    /** Nobody can claim a verified job again, and a delivered one is now the settlement loop's. */
    method AttachSnapshot(id: SnapshotId)
      modifies this
      ensures Value() == Verified(old(Value()), id)
      ensures snapshot == Some(id) && claimedAt == None
      ensures forall now :: !Claimable(Value(), now)
      ensures old(status) == DELIVERED && old(accepted) == None ==> PendingVerdict(Value())
    {
      snapshot, claimedAt := Some(id), None;
    }

    /** The end of the row's work: nobody takes it up again, and its verdict is the one its status tells. */
    method RecordVerdict(verdict: bool, measured: real)
      modifies this
      ensures Value() == Settled(old(Value()), verdict, measured)
      ensures status == (if verdict then SETTLED else REFUNDED)
      ensures accepted == Some(verdict) && verified == Some(measured)
      ensures !PendingVerdict(Value()) && !Startable(Value()) && !Pollable(Value())
      ensures forall now :: !Claimable(Value(), now)
    {
      status := if verdict then SETTLED else REFUNDED;
      accepted, verified := Some(verdict), Some(measured);
    }
  }
}
