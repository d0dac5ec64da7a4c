/**
 Settlement where its assumptions fail: every early write can come late and reopen
 a settled row, a repeated funding call without any race at all, and a verification
 that outlives its claim leaves a settled row naming a snapshot that misses the
 target.
 */
module SettlementFaults {
  import opened Prelude
  import opened JobRow
  import opened Settlement
  import opened SettlementProgress

  const GOAL := Target(GTE, 80.0)

  type Processes = map<Process, Pc>
  type Snapshots = map<SnapshotId, Snapshot>

  // ── Up to the escrow ──────────────────────────────────────────────────────

  const BLANK := Chain(OnNone, None, [])
  const LISTED := Chain(OnPosted, None, [])
  const FUNDED := Chain(OnEscrowed, None, [])
  const COMMITTED := Chain(OnDelivered, Some(7), [])

  /** 0 posts, 1 opens, 2 funds and starts, 3 polls, 4 and 6 verify, 5 judges; 7 to 12 are the others. */
  function EntryOf(c: Process): (pc: Pc)
    ensures Entry(pc)
  {
    if c == 0 || 7 <= c <= 9 then Listing(Confirming)
    else if c == 1 || c == 10 then Listing(Opening)
    else if c == 2 || c == 12 then Listing(Funding)
    else if c == 3 then Polling
    else if c == 5 then Judging
    else if c == 11 then Starting
    else Claiming
  }

  const PROCESSES: Processes := map c: Process | c <= 12 :: EntryOf(c)

  /** The workers of the later stages, still where they began. */
  predicate Waiting(ps: Processes) {
    && (forall c :: 2 <= c <= 6 ==> c in ps)
    && ps[3] == Polling && ps[4] == Claiming && ps[5] == Judging && ps[6] == Claiming
  }

  /** Callers 7 to 11, each about to write a status it decided on long ago. */
  predicate Poised(ps: Processes) {
    && (forall c :: 7 <= c <= 11 ==> c in ps)
    && ps[7] == Listing(RecordingPosting) && ps[8] == Listing(RecordingPosted)
    && ps[9] == Listing(RecordingPostFailed) && ps[10] == Listing(RecordingOpening) && ps[11] == RecordingStart(101)
  }

  function Listed(status: JobStatus): Row {
    WithStatus(NEW_JOB, status)
  }

  /** Everybody at the entry of its pass. */
  predicate Entering(ps: Processes) {
    && Waiting(ps) && 0 in ps && 1 in ps && (forall c :: 7 <= c <= 12 ==> c in ps)
    && ps[0] == ps[7] == ps[8] == ps[9] == Listing(Confirming)
    && ps[1] == ps[10] == Listing(Opening) && ps[2] == ps[12] == Listing(Funding) && ps[11] == Starting
  }

  lemma {:induction false} Drafted(a: Assumptions) returns (r: Run)
    ensures Valid(r, a) && End(r) == State(NEW_JOB, BLANK, map[], map[], GOAL, End(r).pcs)
    ensures Entering(End(r).pcs)
  {
    r := Begin(GOAL, PROCESSES);
    assert Valid(r, a);
    hide Valid;
    hide Entry;
  }

  /** Everybody in order: posted, opened, funded. */
  lemma {:induction false} ListedInOrder(a: Assumptions) returns (r: Run)
    ensures Valid(r, a)
    ensures End(r) == State(Listed(ESCROWED), FUNDED, map[], map[], GOAL, End(r).pcs)
    ensures Waiting(End(r).pcs) && End(r).pcs[2] == Starting
  {
    hide Valid;
    hide End;
    r := Drafted(a);
    r := PostingPass(r, a, 0);
    r := OpeningPass(r, a, 1);
    r := FundingPass(r, a, 2);
  }

  predicate Reading(ps: Processes) {
    Waiting(ps) && 0 in ps && 1 in ps && 10 in ps && 11 in ps && 12 in ps
    && ps[2] == Listing(Funding) && ps[1] == Listing(Opening) && ps[10] == Listing(Opening)
    && ps[11] == Starting && ps[12] == Listing(Funding)
  }

  lemma {:induction false} DraftsRead(a: Assumptions) returns (r: Run)
    requires !a.writesFresh
    ensures Valid(r, a) && End(r) == State(NEW_JOB, BLANK, map[], map[], GOAL, End(r).pcs)
    ensures
      var ps := End(r).pcs;
      && Reading(ps) && 7 in ps && 8 in ps && 9 in ps && ps[0] == Listing(RecordingPosting)
      && ps[7] == Listing(RecordingPosting) && ps[8] == Listing(RecordingPosting) && ps[9] == Listing(RecordingPosting)
  {
    hide Valid;
    hide End;
    r := Drafted(a);
    r := Lists(r, a, 0, ReadForPosting);
    r := Lists(r, a, 7, ReadForPosting);
    r := Lists(r, a, 8, ReadForPosting);
    r := Lists(r, a, 9, ReadForPosting);
  }

  lemma {:induction false} PostsSent(a: Assumptions) returns (r: Run)
    requires !a.writesFresh
    ensures Valid(r, a) && End(r) == State(Listed(POSTING), LISTED, map[], map[], GOAL, End(r).pcs)
    ensures
      var ps := End(r).pcs;
      && Reading(ps) && 7 in ps && 8 in ps && 9 in ps && ps[0] == Listing(RecordingPosting)
      && ps[7] == Listing(RecordingPosting) && ps[8] == Listing(RecordingPosted)
      && ps[9] == Listing(RecordingPostFailed)
  {
    hide Valid;
    hide End;
    r := DraftsRead(a);
    r := Lists(r, a, 8, RecordPosting);
    r := Lists(r, a, 8, SendPost(true, true));
    r := Lists(r, a, 9, RecordPosting);
    r := Lists(r, a, 9, SendPost(false, false));
  }

  lemma {:induction false} OpeningsRead(a: Assumptions) returns (r: Run)
    requires !a.writesFresh
    ensures Valid(r, a) && End(r) == State(Listed(POSTED), LISTED, map[], map[], GOAL, End(r).pcs)
    ensures
      var ps := End(r).pcs;
      && Waiting(ps) && (forall c :: 0 <= c <= 12 ==> c in ps)
      && ps[1] == Listing(RecordingOpening) && ps[2] == Listing(Funding)
      && ps[7] == Listing(RecordingPosting) && ps[8] == Listing(RecordingPosted)
      && ps[9] == Listing(RecordingPostFailed) && ps[10] == Listing(RecordingOpening)
      && ps[11] == Starting && ps[12] == Listing(Funding)
  {
    hide Valid;
    hide End;
    r := PostsSent(a);
    r := Lists(r, a, 0, RecordPosting);
    r := Lists(r, a, 0, SendPost(false, true));
    r := Lists(r, a, 0, RecordPosted);
    r := Lists(r, a, 1, ReadForOpening);
    r := Lists(r, a, 10, ReadForOpening);
  }

  /** Funded and started once, with five others poised to write what they decided before. */
  lemma {:induction false} ListedWithLaggards(a: Assumptions) returns (r: Run)
    requires !a.writesFresh
    ensures Valid(r, a)
    ensures End(r) == State(Listed(ESCROWED), FUNDED, map[101 := QUEUED], map[], GOAL, End(r).pcs)
    ensures Waiting(End(r).pcs) && Poised(End(r).pcs) && End(r).pcs[2] == Starting
    ensures 12 in End(r).pcs && End(r).pcs[12] == Listing(Funding)
  {
    hide Valid;
    hide End;
    r := OpeningsRead(a);
    r := Lists(r, a, 1, RecordOpening);
    r := FundingPass(r, a, 2);
    r := Moves(r, ReadForStart(11), a, Creating);
    r := Creates(r, a, 11, 101);
  }

  // ── A settled row reopened ────────────────────────────────────────────────

  lemma {:induction false} SettledWithLaggards() returns (r: Run)
    ensures Valid(r, NONE.(leaseHonoured := true, outcomesRepeat := true))
    ensures End(r).row.status == SETTLED
    ensures Poised(End(r).pcs) && 12 in End(r).pcs && End(r).pcs[12] == Listing(Funding)
  {
    hide Valid;
    hide End;
    var a := NONE.(leaseHonoured := true, outcomesRepeat := true);
    r := ListedWithLaggards(a);
    r := HandedOver(r, a, 2, 3, 100, 500, 7);
    var v;
    r, v := VerifiedAndJudged(r, a, 4, 5, 100, 7, 90.0, 600);
  }

  /** A funding call on a finished job is answered as funded already. */
  lemma {:induction false} FundedAlready(r: Run, a: Assumptions, c: Process) returns (longer: Run)
    requires Valid(r, a) && Terminal(End(r).row.status) && c in End(r).pcs && End(r).pcs[c] == Listing(Funding)
    ensures Valid(longer, a) && End(longer) == Move(End(r), c, Listing(RecordingFunding))
  {
    StoresAgree(r, a);
    hide Valid;
    hide End;
    longer := Lists(r, a, c, RelayFunding);
  }

  lemma {:induction false} FundingWritten(r: Run, a: Assumptions, c: Process) returns (longer: Run)
    requires Valid(r, a) && !a.writesFresh && c in End(r).pcs && End(r).pcs[c] == Listing(RecordingFunding)
    ensures Valid(longer, a)
    ensures End(longer) == Write(End(r), c, WithStatus(End(r).row, ESCROWED), Starting)
  {
    hide Valid;
    hide End;
    longer := Lists(r, a, c, RecordFunding);
  }

  /**
   Every one of the six early writes can come to a settled row: one run after
   which each of them is the next step of some caller.
   */
  lemma {:induction false} EveryEarlyWriteCanReopen() returns (r: Run)
    ensures Valid(r, NONE.(leaseHonoured := true, outcomesRepeat := true)) && End(r).row.status == SETTLED
    ensures Enabled(End(r), List(7, RecordPosting)) && Enabled(End(r), List(8, RecordPosted))
    ensures Enabled(End(r), List(9, RecordPostFailed)) && Enabled(End(r), List(10, RecordOpening))
    ensures Enabled(End(r), List(12, RecordFunding)) && Enabled(End(r), RecordStart(11))
  {
    hide Valid;
    hide End;
    r := SettledWithLaggards();
    r := FundedAlready(r, NONE.(leaseHonoured := true, outcomesRepeat := true), 12);
    hide Next;
    hide NextAt;
    hide Waiting;
    hide Entering;
  }

  /**
   No race is needed: a funding call that begins after the job is settled is
   answered as funded already, and the row is ESCROWED again.
   */
  lemma {:induction false} RepeatedFundingReopens(r: Run, a: Assumptions, c: Process) returns (longer: Run)
    requires Valid(r, a) && !a.writesFresh && Terminal(End(r).row.status)
    requires c in End(r).pcs && End(r).pcs[c] == Listing(Funding)
    ensures Valid(longer, a) && End(longer).row == WithStatus(End(r).row, ESCROWED)
    ensures End(longer).chain == End(r).chain
  {
    hide Valid;
    hide End;
    longer := FundedAlready(r, a, c);
    longer := FundingWritten(longer, a, c);
  }

  // ── A settled row contradicted ────────────────────────────────────────────

  const OWN := Snapshot(FINAL, Some(100), Some(7), None)
  const GOOD := Snapshot(VERIFICATION, Some(100), Some(7), Some(90.0))
  const POOR := Snapshot(VERIFICATION, Some(100), Some(7), Some(10.0))

  const HANDED_OVER := Row(DELIVERED, Some(100), Some(7), None, None, None, None)
  const RETAKEN := Claimed(HANDED_OVER, 900001)

  /** The state of a run whose processes are as given. */
  function World(row: Row, snapshots: Snapshots, ps: Processes): State {
    State(row, COMMITTED, map[100 := QUEUED][100 := COMPLETED], snapshots, GOAL, ps)
  }

  lemma {:induction false} TwoMeasure(a: Assumptions) returns (r: Run, ps: Processes)
    requires !a.leaseHonoured
    ensures Valid(r, a) && End(r) == World(RETAKEN, map[500 := OWN], ps)
    ensures 4 in ps && 5 in ps && 6 in ps && ps[4] == Persisting(Some(100), 7, Some(90.0))
    ensures ps[5] == Judging && ps[6] == Persisting(Some(100), 7, Some(10.0))
  {
    hide Valid;
    hide End;
    r := ListedInOrder(a);
    r := HandedOver(r, a, 2, 3, 100, 500, 7);
    r := VerificationBegins(r, a, 4, 100, 7, Some(90.0), 0);
    r := Retaken(r, a);
    ps := End(r).pcs;
  }

  lemma {:induction false} Retaken(r: Run, a: Assumptions) returns (r': Run)
    requires Valid(r, a) && End(r).row == Claimed(HANDED_OVER, 0)
    requires !a.leaseHonoured && 6 in End(r).pcs && End(r).pcs[6] == Claiming
    ensures Valid(r', a)
    ensures Became(End(r), End(r'), RETAKEN, End(r).chain, 6, Persisting(Some(100), 7, Some(10.0)))
  {
    hide Valid;
    hide End;
    r' := Writes(r, ClaimVerification(6, 900001), a, RETAKEN, Evaluating(Some(100), Some(7)));
    r' := Moves(r', Evaluate(6, 7, Some(10.0)), a, Persisting(Some(100), 7, Some(10.0)));
    Overridden(End(r).pcs, 6, Evaluating(Some(100), Some(7)), Persisting(Some(100), 7, Some(10.0)));
  }

  lemma {:induction false} TwoSnapshots(a: Assumptions) returns (r: Run, ps: Processes)
    requires !a.leaseHonoured
    ensures Valid(r, a)
    ensures End(r) == World(RETAKEN, map[500 := OWN, 600 := GOOD, 601 := POOR], ps)
    ensures 4 in ps && 5 in ps && 6 in ps
    ensures ps[4] == Attaching(600) && ps[5] == Judging && ps[6] == Attaching(601)
  {
    hide Valid;
    hide End;
    r, ps := TwoMeasure(a);
    ps := ps[4 := Attaching(600)];
    r := Extend(r, Persist(4, 600), a, World(RETAKEN, map[500 := OWN, 600 := GOOD], ps));
    ps := ps[6 := Attaching(601)];
    r := Extend(r, Persist(6, 601), a, World(RETAKEN, map[500 := OWN, 600 := GOOD, 601 := POOR], ps));
  }

  lemma {:induction false} Attaches(r: Run, a: Assumptions, c: Process, id: SnapshotId) returns (longer: Run)
    requires Valid(r, a) && c in End(r).pcs && End(r).pcs[c] == Attaching(id)
    requires !a.outcomesRepeat || End(r).row.snapshot.None?
    ensures Valid(longer, a) && End(longer) == Write(End(r), c, Verified(End(r).row, id), Stopped)
  {
    hide Valid;
    hide End;
    longer := Writes(r, Attach(c), a, Verified(End(r).row, id), Stopped);
  }

  /** A second measurement, attached after the first one settled the job, leaves the row contradicting itself. */
  lemma {:induction false} LateSnapshotBeliesSettled() returns (r: Run)
    ensures Valid(r, NONE.(writesFresh := true))
    ensures
      var s := End(r);
      && s.row.status == SETTLED && s.row.snapshot == Some(601)
      && 601 in s.snapshots && s.snapshots[601].measured == Some(10.0)
      && MeetsTarget(10.0, s.target) == Some(false) && !Agrees(s)
  {
    hide Valid;
    hide End;
    var a := NONE.(writesFresh := true);
    var ps, v;
    r, ps := TwoSnapshots(a);
    r := Attaches(r, a, 4, 600);
    r, v := VerdictPass(r, a, 5, 600, 90.0);
    r := Attaches(r, a, 6, 601);
  }
}
