/**
 What an undisturbed pass of each service achieves, from any state in which it may
 begin, and the whole life of a job made of such passes: whatever is measured, the
 money ends up where a plain comparison with the target says.
 */
module SettlementProgress {
  import opened Prelude
  import opened JobRow
  import opened Settlement

  // ── Steps of a run ────────────────────────────────────────────────────────

  lemma {:induction false} Extend(r: Run, st: Step, a: Assumptions, s: State) returns (longer: Run)
    requires Valid(r, a) && Enabled(End(r), st) && Respects(End(r), st, a) && Next(End(r), st) == s
    ensures Valid(longer, a) && End(longer) == s && longer == Then(r, st)
  {
    hide Enabled;
    hide Respects;
    hide Next;
    longer := Then(r, st);
  }

  lemma {:induction false} Lists(r: Run, a: Assumptions, c: Process, act: ListingAct) returns (longer: Run)
    requires Valid(r, a) && c in End(r).pcs && End(r).pcs[c].Listing?
    requires ListingEnabled(End(r).chain, End(r).pcs[c].at, act)
    requires a.writesFresh ==> ListingFresh(End(r).row.status, act)
    ensures Valid(longer, a)
    ensures
      var s := End(r);
      End(longer) == State(WithStatus(s.row, ListedStatus(s.row.status, act)), ListedChain(s.chain, act),
                           s.trainings, s.snapshots, s.target, s.pcs[c := ListedPc(s.row.status, s.chain, act)])
  {
    hide ListedStatus;
    hide ListedChain;
    hide ListedPc;
    hide ListingEnabled;
    hide ListingFresh;
    longer := Then(r, List(c, act));
  }

  lemma {:induction false} Creates(r: Run, a: Assumptions, c: Process, t: TrainingId) returns (longer: Run)
    requires Valid(r, a) && c in End(r).pcs && End(r).pcs[c] == Creating && t !in End(r).trainings
    ensures Valid(longer, a)
    ensures
      var s := End(r);
      End(longer) ==
        State(s.row, s.chain, s.trainings[t := QUEUED], s.snapshots, s.target, s.pcs[c := RecordingStart(t)])
  {
    hide Valid;
    hide End;
    var s := End(r);
    longer := Extend(r, CreateTraining(c, t), a,
                     State(s.row, s.chain, s.trainings[t := QUEUED], s.snapshots, s.target,
                           s.pcs[c := RecordingStart(t)]));
  }

  /** A step after which process c stands at pc and nothing else has changed. */
  lemma {:induction false} Moves(r: Run, st: Step, a: Assumptions, pc: Pc) returns (longer: Run)
    requires Valid(r, a) && Enabled(End(r), st) && OwnStep(st)
    requires !st.ClaimVerification? && !st.Attach? && !EarlyWrite(st)
    requires Next(End(r), st) == Move(End(r), st.c, pc)
    ensures Valid(longer, a) && End(longer) == Move(End(r), st.c, pc) && longer == Then(r, st)
  {
    hide Valid;
    hide End;
    hide Enabled;
    hide Next;
    longer := Extend(r, st, a, Move(End(r), st.c, pc));
  }

  /** A step after which process c stands at pc and the row is the given one. */
  lemma {:induction false} Writes(r: Run, st: Step, a: Assumptions, row: Row, pc: Pc) returns (longer: Run)
    requires Valid(r, a) && Enabled(End(r), st) && OwnStep(st) && Respects(End(r), st, a)
    requires Next(End(r), st) == Write(End(r), st.c, row, pc)
    ensures Valid(longer, a) && End(longer) == Write(End(r), st.c, row, pc) && longer == Then(r, st)
  {
    hide Valid;
    hide End;
    hide Enabled;
    hide Respects;
    hide Next;
    longer := Extend(r, st, a, Write(End(r), st.c, row, pc));
  }

  lemma {:induction false} Overridden(ps: map<Process, Pc>, c: Process, x: Pc, y: Pc)
    ensures ps[c := x][c := y] == ps[c := y]
  {
  }

  /** The given fields, and of the processes only c elsewhere. */
  ghost predicate Became(s: State, s': State, row: Row, chain: Chain, c: Process, pc: Pc) {
    s' == State(row, chain, s.trainings, s.snapshots, s.target, s.pcs[c := pc])
  }

  // ── Posting and funding ───────────────────────────────────────────────────

  lemma {:induction false} PostingBegins(r: Run, a: Assumptions, c: Process) returns (longer: Run)
    requires Valid(r, a) && c in End(r).pcs && End(r).pcs[c] == Listing(Confirming)
    requires End(r).row.status.DRAFT? || End(r).row.status.FAILED?
    ensures Valid(longer, a)
    ensures Became(End(r), End(longer), End(r).row.(status := POSTING), End(r).chain, c, Listing(SendingPost))
  {
    hide Valid;
    hide End;
    longer := Lists(r, a, c, ReadForPosting);
    longer := Lists(longer, a, c, RecordPosting);
    Overridden(End(r).pcs, c, Listing(RecordingPosting), Listing(SendingPost));
  }

  lemma {:induction false} PostingEnds(r: Run, a: Assumptions, c: Process) returns (longer: Run)
    requires Valid(r, a) && c in End(r).pcs && End(r).pcs[c] == Listing(SendingPost)
    requires End(r).row.status.POSTING? && End(r).chain.status.OnNone?
    ensures Valid(longer, a)
    ensures Became(End(r), End(longer), End(r).row.(status := POSTED), End(r).chain.(status := OnPosted), c, Stopped)
  {
    hide Valid;
    hide End;
    longer := Lists(r, a, c, SendPost(true, true));
    longer := Lists(longer, a, c, RecordPosted);
    Overridden(End(r).pcs, c, Listing(RecordingPosted), Stopped);
  }

  /** An answered pass of confirmAndPost posts a draft, or a job whose posting failed before. */
  lemma {:induction false} PostingPass(r: Run, a: Assumptions, c: Process) returns (longer: Run)
    requires Valid(r, a) && c in End(r).pcs && End(r).pcs[c] == Listing(Confirming)
    requires (End(r).row.status.DRAFT? || End(r).row.status.FAILED?) && End(r).chain.status.OnNone?
    ensures Valid(longer, a)
    ensures Became(End(r), End(longer), End(r).row.(status := POSTED), End(r).chain.(status := OnPosted), c, Stopped)
  {
    hide Valid;
    hide End;
    longer := PostingBegins(r, a, c);
    longer := PostingEnds(longer, a, c);
    Overridden(End(r).pcs, c, Listing(SendingPost), Stopped);
  }

  /** A pass of openNegotiation makes a posted job NEGOTIATING. */
  lemma {:induction false} OpeningPass(r: Run, a: Assumptions, c: Process) returns (longer: Run)
    requires Valid(r, a) && c in End(r).pcs && End(r).pcs[c] == Listing(Opening) && End(r).row.status.POSTED?
    ensures Valid(longer, a)
    ensures Became(End(r), End(longer), End(r).row.(status := NEGOTIATING), End(r).chain, c, Stopped)
  {
    hide Valid;
    hide End;
    longer := Lists(r, a, c, ReadForOpening);
    longer := Lists(longer, a, c, RecordOpening);
    Overridden(End(r).pcs, c, Listing(RecordingOpening), Stopped);
  }

  lemma {:induction false} FundingSent(r: Run, a: Assumptions, c: Process) returns (longer: Run)
    requires Valid(r, a) && c in End(r).pcs && End(r).pcs[c] == Listing(Funding) && End(r).chain.status.OnPosted?
    ensures Valid(longer, a)
    ensures Became(End(r), End(longer), End(r).row, End(r).chain.(status := OnEscrowed), c, Listing(RecordingFunding))
  {
    hide Valid;
    hide End;
    longer := Lists(r, a, c, RelayFunding);
    longer := Lists(longer, a, c, SendFunding(false));
    Overridden(End(r).pcs, c, Listing(SendingFunding), Listing(RecordingFunding));
  }

  /** An answered funding call puts a posted job's price in escrow, and goes on to start the work. */
  lemma {:induction false} FundingPass(r: Run, a: Assumptions, c: Process) returns (longer: Run)
    requires Valid(r, a) && c in End(r).pcs && End(r).pcs[c] == Listing(Funding) && End(r).chain.status.OnPosted?
    requires End(r).row.status.POSTED? || End(r).row.status.NEGOTIATING?
    ensures Valid(longer, a)
    ensures Became(End(r), End(longer), End(r).row.(status := ESCROWED), End(r).chain.(status := OnEscrowed), c,
                   Starting)
  {
    hide Valid;
    hide End;
    longer := FundingSent(r, a, c);
    longer := Lists(longer, a, c, RecordFunding);
    Overridden(End(r).pcs, c, Listing(RecordingFunding), Starting);
  }

  // ── The work ──────────────────────────────────────────────────────────────

  lemma {:induction false} StartBegins(r: Run, a: Assumptions, c: Process, t: TrainingId) returns (longer: Run)
    requires Valid(r, a) && c in End(r).pcs && End(r).pcs[c] == Starting && t !in End(r).trainings
    requires End(r).row.status.ESCROWED? && End(r).row.training.None?
    ensures Valid(longer, a)
    ensures
      var s := End(r);
      End(longer) ==
        State(s.row, s.chain, s.trainings[t := QUEUED], s.snapshots, s.target, s.pcs[c := RecordingStart(t)])
  {
    hide Valid;
    hide End;
    longer := Moves(r, ReadForStart(c), a, Creating);
    longer := Creates(longer, a, c, t);
    Overridden(End(r).pcs, c, Creating, RecordingStart(t));
  }

  lemma {:induction false} StartEnds(r: Run, a: Assumptions, c: Process, t: TrainingId) returns (longer: Run)
    requires Valid(r, a) && c in End(r).pcs && End(r).pcs[c] == RecordingStart(t)
    requires End(r).row.status.ESCROWED? && End(r).chain.status.OnEscrowed?
    ensures Valid(longer, a)
    ensures
      var s := End(r);
      Became(s, End(longer), s.row.(status := EXECUTING, training := Some(t)), s.chain.(status := OnExecuting), c,
             Stopped)
  {
    hide Valid;
    hide End;
    var s := End(r);
    longer := Writes(r, RecordStart(c), a, s.row.(status := EXECUTING, training := Some(t)), Marking);
    Overridden(s.pcs, c, Marking, Stopped);
    longer := Extend(longer, MarkExecuting(c), a,
                     State(s.row.(status := EXECUTING, training := Some(t)), s.chain.(status := OnExecuting),
                           s.trainings, s.snapshots, s.target, s.pcs[c := Stopped]));
  }

  /** A pass of startExecution over an escrowed job queues its training and makes it EXECUTING, in both stores. */
  lemma {:induction false} StartPass(r: Run, a: Assumptions, c: Process, t: TrainingId) returns (longer: Run)
    requires Valid(r, a) && c in End(r).pcs && End(r).pcs[c] == Starting && t !in End(r).trainings
    requires End(r).row.status.ESCROWED? && End(r).row.training.None? && End(r).chain.status.OnEscrowed?
    ensures Valid(longer, a)
    ensures
      var s := End(r);
      End(longer) ==
        State(s.row.(status := EXECUTING, training := Some(t)), s.chain.(status := OnExecuting),
              s.trainings[t := QUEUED], s.snapshots, s.target, s.pcs[c := Stopped])
  {
    hide Valid;
    hide End;
    longer := StartBegins(r, a, c, t);
    longer := StartEnds(longer, a, c, t);
    Overridden(End(r).pcs, c, RecordingStart(t), Stopped);
  }

  /** The final snapshot of a completed training names the digest. */
  predicate Completed(s: State, t: TrainingId, final: SnapshotId, d: Digest) {
    && t in s.trainings && s.trainings[t].COMPLETED?
    && final in s.snapshots && s.snapshots[final].kind.FINAL? && s.snapshots[final].training == Some(t)
    && s.snapshots[final].digest == Some(d)
  }

  lemma {:induction false} DeliveryBegins(
    r: Run, a: Assumptions, c: Process, t: TrainingId, final: SnapshotId, d: Digest) returns (longer: Run)
    requires Valid(r, a) && c in End(r).pcs && End(r).pcs[c] == Polling
    requires End(r).row.status.EXECUTING? && End(r).row.training == Some(t) && Completed(End(r), t, final, d)
    ensures Valid(longer, a) && Became(End(r), End(longer), End(r).row, End(r).chain, c, Sending(d))
  {
    hide Valid;
    hide End;
    longer := Moves(r, ReadForPoll(c), a, AwaitingTraining(t));
    longer := Moves(longer, ReadTraining(c), a, SeekingFinal(t));
    longer := Moves(longer, ReadFinal(c, final), a, Sending(d));
    Overridden(End(r).pcs, c, AwaitingTraining(t), SeekingFinal(t));
    Overridden(End(r).pcs, c, SeekingFinal(t), Sending(d));
  }

  lemma {:induction false} DeliveryEnds(r: Run, a: Assumptions, c: Process, d: Digest) returns (longer: Run)
    requires Valid(r, a) && c in End(r).pcs && End(r).pcs[c] == Sending(d)
    requires End(r).chain.status.OnEscrowed? || End(r).chain.status.OnExecuting?
    ensures Valid(longer, a)
    ensures
      var s := End(r);
      Became(s, End(longer), s.row.(status := DELIVERED, deliverable := Some(d)),
             s.chain.(status := OnDelivered, deliverable := Some(d)), c, Stopped)
  {
    hide Valid;
    hide End;
    var s := End(r);
    longer := Extend(r, SendDeliverable(c, false), a,
                     State(s.row, s.chain.(status := OnDelivered, deliverable := Some(d)), s.trainings, s.snapshots,
                           s.target, s.pcs[c := RecordingDelivery(d)]));
    longer := Writes(longer, RecordDelivery(c), a, s.row.(status := DELIVERED, deliverable := Some(d)), Stopped);
    Overridden(s.pcs, c, RecordingDelivery(d), Stopped);
  }

  /** A pass of pollExecution over a job whose training is complete commits the checkpoint it produced. */
  lemma {:induction false} DeliveryPass(
    r: Run, a: Assumptions, c: Process, t: TrainingId, final: SnapshotId, d: Digest) returns (longer: Run)
    requires Valid(r, a) && c in End(r).pcs && End(r).pcs[c] == Polling
    requires End(r).row.status.EXECUTING? && End(r).row.training == Some(t) && Completed(End(r), t, final, d)
    requires End(r).chain.status.OnEscrowed? || End(r).chain.status.OnExecuting?
    ensures Valid(longer, a)
    ensures
      var s := End(r);
      Became(s, End(longer), s.row.(status := DELIVERED, deliverable := Some(d)),
             s.chain.(status := OnDelivered, deliverable := Some(d)), c, Stopped)
  {
    hide Valid;
    hide End;
    longer := DeliveryBegins(r, a, c, t, final, d);
    longer := DeliveryEnds(longer, a, c, d);
    Overridden(End(r).pcs, c, Sending(d), Stopped);
  }

  // ── Verification and verdict ──────────────────────────────────────────────

  lemma {:induction false} VerificationBegins(
    r: Run, a: Assumptions, c: Process, t: TrainingId, d: Digest, m: Option<real>, now: int) returns (longer: Run)
    requires Valid(r, a) && c in End(r).pcs && End(r).pcs[c] == Claiming
    requires End(r).row.status.DELIVERED? && End(r).row.snapshot.None? && End(r).row.claimedAt.None?
    requires End(r).row.training == Some(t) && End(r).row.deliverable == Some(d)
    ensures Valid(longer, a)
    ensures Became(End(r), End(longer), End(r).row.(claimedAt := Some(now)), End(r).chain, c, Persisting(Some(t), d, m))
  {
    hide Valid;
    hide End;
    var row := End(r).row.(claimedAt := Some(now));
    longer := Writes(r, ClaimVerification(c, now), a, row, Evaluating(Some(t), Some(d)));
    longer := Moves(longer, Evaluate(c, d, m), a, Persisting(Some(t), d, m));
    Overridden(End(r).pcs, c, Evaluating(Some(t), Some(d)), Persisting(Some(t), d, m));
  }

  lemma {:induction false} VerificationEnds(
    r: Run, a: Assumptions, c: Process, t: TrainingId, d: Digest, m: Option<real>, id: SnapshotId)
    returns (longer: Run)
    requires Valid(r, a) && c in End(r).pcs && End(r).pcs[c] == Persisting(Some(t), d, m)
    requires id !in End(r).snapshots && End(r).row.snapshot.None?
    ensures Valid(longer, a)
    ensures
      var s := End(r);
      End(longer) ==
        State(s.row.(snapshot := Some(id), claimedAt := None), s.chain, s.trainings,
              s.snapshots[id := Snapshot(VERIFICATION, Some(t), Some(d), m)], s.target, s.pcs[c := Stopped])
  {
    hide Valid;
    hide End;
    var s := End(r);
    longer := Extend(r, Persist(c, id), a,
                     State(s.row, s.chain, s.trainings, s.snapshots[id := Snapshot(VERIFICATION, Some(t), Some(d), m)],
                           s.target, s.pcs[c := Attaching(id)]));
    longer := Writes(longer, Attach(c), a, s.row.(snapshot := Some(id), claimedAt := None), Stopped);
    Overridden(s.pcs, c, Attaching(id), Stopped);
  }

  /** A pass of the verification worker over a delivered job measures the committed artifact and attaches the result. */
  lemma {:induction false} VerificationPass(
    r: Run, a: Assumptions, c: Process, t: TrainingId, d: Digest, m: Option<real>, now: int, id: SnapshotId)
    returns (longer: Run)
    requires Valid(r, a) && c in End(r).pcs && End(r).pcs[c] == Claiming && id !in End(r).snapshots
    requires End(r).row.status.DELIVERED? && End(r).row.snapshot.None? && End(r).row.claimedAt.None?
    requires End(r).row.training == Some(t) && End(r).row.deliverable == Some(d)
    ensures Valid(longer, a)
    ensures
      var s := End(r);
      End(longer) ==
        State(s.row.(snapshot := Some(id), claimedAt := None), s.chain, s.trainings,
              s.snapshots[id := Snapshot(VERIFICATION, Some(t), Some(d), m)], s.target, s.pcs[c := Stopped])
  {
    hide Valid;
    hide End;
    longer := VerificationBegins(r, a, c, t, d, m, now);
    longer := VerificationEnds(longer, a, c, t, d, m, id);
    Overridden(End(r).pcs, c, Persisting(Some(t), d, m), Stopped);
  }

  /**
   verifyAndSettle has something to judge: a job delivered on chain whose row, whatever
   its status, names a measurement of this value.
   */
  predicate Judgeable(s: State, id: SnapshotId, m: real) {
    && s.chain.status.OnDelivered?
    && s.row.snapshot == Some(id) && id in s.snapshots
    && s.snapshots[id].kind.VERIFICATION? && s.snapshots[id].measured == Some(m)
    && !s.target.op.UNKNOWN?
  }

  /** v is the plain comparison of m with the target. */
  predicate Compares(t: Target, m: real, v: bool) {
    && (t.op.GTE? ==> (v <==> m >= t.value))
    && (t.op.GT? ==> (v <==> m > t.value))
    && (t.op.LTE? ==> (v <==> m <= t.value))
    && (t.op.LT? ==> (v <==> m < t.value))
    && (t.op.EQ? ==> (v <==> m == t.value))
  }

  lemma {:induction false} JudgingBegins(r: Run, a: Assumptions, c: Process, id: SnapshotId, m: real)
    returns (longer: Run, v: bool)
    requires Valid(r, a) && c in End(r).pcs && End(r).pcs[c] == Judging && Judgeable(End(r), id, m)
    ensures Valid(longer, a) && longer == Then(Then(r, ReadForVerdict(c)), LoadSnapshot(c))
    ensures Became(End(r), End(longer), End(r).row, End(r).chain, c, Deciding(id, End(r).row.deliverable, m, v))
    ensures Compares(End(r).target, m, v)
  {
    hide Valid;
    hide End;
    var s := End(r);
    longer := Moves(r, ReadForVerdict(c), a, Loading(id, s.row.deliverable));
    v := MeetsTarget(m, s.target).value;
    longer := Moves(longer, LoadSnapshot(c), a, Deciding(id, s.row.deliverable, m, v));
    Overridden(s.pcs, c, Loading(id, s.row.deliverable), Deciding(id, s.row.deliverable, m, v));
  }

  lemma {:induction false} JudgingEnds(
    r: Run, a: Assumptions, c: Process, id: SnapshotId, d: Option<Digest>, m: real, v: bool) returns (longer: Run)
    requires Valid(r, a) && c in End(r).pcs && End(r).pcs[c] == Deciding(id, d, m, v)
    requires End(r).chain.status.OnDelivered?
    ensures Valid(longer, a)
    ensures longer == Then(Then(r, ReadChain(c)), SendVerdict(c, false))
    ensures
      var s := End(r);
      Became(s, End(longer), s.row,
             Chain(if v then OnSettled else OnRefunded, s.chain.deliverable, s.chain.verdicts + [v]),
             c, RecordingVerdict(id, m, v))
  {
    hide Valid;
    hide End;
    var s := End(r);
    longer := Moves(r, ReadChain(c), a, Pronouncing(id, m, v));
    Overridden(s.pcs, c, Pronouncing(id, m, v), RecordingVerdict(id, m, v));
    longer := Extend(longer, SendVerdict(c, false), a,
                     State(s.row,
                           Chain(if v then OnSettled else OnRefunded, s.chain.deliverable, s.chain.verdicts + [v]),
                           s.trainings, s.snapshots, s.target, s.pcs[c := RecordingVerdict(id, m, v)]));
  }

  lemma {:induction false} VerdictWritten(r: Run, a: Assumptions, c: Process, id: SnapshotId, m: real, v: bool)
    returns (longer: Run)
    requires Valid(r, a) && c in End(r).pcs && End(r).pcs[c] == RecordingVerdict(id, m, v)
    ensures Valid(longer, a) && longer == Then(r, RecordVerdict(c))
    ensures
      var s := End(r);
      Became(s, End(longer),
             s.row.(status := if v then SETTLED else REFUNDED, accepted := Some(v), verified := Some(m)),
             s.chain, c, Stopped)
  {
    hide Valid;
    hide End;
    var s := End(r);
    longer := Writes(r, RecordVerdict(c), a,
                     s.row.(status := if v then SETTLED else REFUNDED, accepted := Some(v), verified := Some(m)),
                     Stopped);
  }

  /**
   An undisturbed pass of verifyAndSettle that has something to judge always ends in a
   verdict, for a measurement that misses the target as for one that meets it: the one
   the plain comparison gives, on chain and in the row alike.
   */
  lemma {:induction false} VerdictPass(r: Run, a: Assumptions, c: Process, id: SnapshotId, m: real)
    returns (longer: Run, v: bool)
    requires Valid(r, a) && c in End(r).pcs && End(r).pcs[c] == Judging && Judgeable(End(r), id, m)
    ensures Valid(longer, a) && Compares(End(r).target, m, v)
    ensures longer ==
      Then(Then(Then(Then(Then(r, ReadForVerdict(c)), LoadSnapshot(c)), ReadChain(c)), SendVerdict(c, false)),
           RecordVerdict(c))
    ensures
      var s := End(r);
      Became(s, End(longer),
             s.row.(status := if v then SETTLED else REFUNDED, accepted := Some(v), verified := Some(m)),
             Chain(if v then OnSettled else OnRefunded, s.chain.deliverable, [v]), c, Stopped)
  {
    hide Valid;
    hide End;
    longer, v := JudgingBegins(r, a, c, id, m);
    NoVerdictYet(r, a);
    longer := JudgingEnds(longer, a, c, id, End(r).row.deliverable, m, v);
    longer := VerdictWritten(longer, a, c, id, m, v);
    Overridden(End(r).pcs, c, Deciding(id, End(r).row.deliverable, m, v), RecordingVerdict(id, m, v));
    Overridden(End(r).pcs, c, RecordingVerdict(id, m, v), Stopped);
    hide Judgeable;
    hide Compares;
  }

  lemma {:induction false} NoVerdictYet(r: Run, a: Assumptions)
    requires Valid(r, a) && End(r).chain.status.OnDelivered?
    ensures End(r).chain.verdicts == []
  {
    InvAlways(r, a);
    hide Valid;
    hide End;
  }

  // ── The whole life of a job ───────────────────────────────────────────────

  /** The trainer finishes a training and stores what it produced. */
  lemma {:induction false} Trained(r: Run, a: Assumptions, t: TrainingId, final: SnapshotId, d: Digest)
    returns (longer: Run)
    requires Valid(r, a) && t in End(r).trainings && final !in End(r).snapshots
    ensures Valid(longer, a)
    ensures
      var s := End(r);
      End(longer) ==
        State(s.row, s.chain, s.trainings[t := COMPLETED],
              s.snapshots[final := Snapshot(FINAL, Some(t), Some(d), None)], s.target, s.pcs)
  {
    hide Valid;
    hide End;
    var s := End(r);
    var own := Snapshot(FINAL, Some(t), Some(d), None);
    longer := Extend(r, AdvanceTraining(t, COMPLETED), a, s.(trainings := s.trainings[t := COMPLETED]));
    longer := Extend(longer, RecordMeasurement(final, own), a,
                     State(s.row, s.chain, s.trainings[t := COMPLETED], s.snapshots[final := own], s.target, s.pcs));
  }

  /** A job in escrow on which nothing has been done. */
  predicate Untouched(s: State) {
    s.row == Row(ESCROWED, None, None, None, None, None, None) && s.chain == Chain(OnEscrowed, None, [])
  }

  lemma {:induction false} HandedOver(
    r: Run, a: Assumptions, starter: Process, poller: Process, t: TrainingId, final: SnapshotId, d: Digest)
    returns (longer: Run)
    requires Valid(r, a) && Untouched(End(r)) && t !in End(r).trainings && final !in End(r).snapshots
    requires starter in End(r).pcs && End(r).pcs[starter] == Starting
    requires poller in End(r).pcs && End(r).pcs[poller] == Polling
    ensures Valid(longer, a)
    ensures
      var s := End(r);
      End(longer) ==
        State(Row(DELIVERED, Some(t), Some(d), None, None, None, None), Chain(OnDelivered, Some(d), []),
              s.trainings[t := QUEUED][t := COMPLETED], s.snapshots[final := Snapshot(FINAL, Some(t), Some(d), None)],
              s.target, s.pcs[starter := Stopped][poller := Stopped])
  {
    hide Valid;
    hide End;
    longer := StartPass(r, a, starter, t);
    longer := Trained(longer, a, t, final, d);
    longer := DeliveryPass(longer, a, poller, t, final, d);
  }

  lemma {:induction false} VerifiedAndJudged(
    r: Run, a: Assumptions, worker: Process, judge: Process, t: TrainingId, d: Digest, m: real, id: SnapshotId)
    returns (longer: Run, v: bool)
    requires Valid(r, a) && End(r).row == Row(DELIVERED, Some(t), Some(d), None, None, None, None)
    requires End(r).chain == Chain(OnDelivered, Some(d), []) && !End(r).target.op.UNKNOWN? && id !in End(r).snapshots
    requires worker in End(r).pcs && End(r).pcs[worker] == Claiming
    requires judge in End(r).pcs && End(r).pcs[judge] == Judging
    ensures Valid(longer, a) && Compares(End(r).target, m, v)
    ensures
      var s := End(r);
      End(longer) ==
        State(Row(if v then SETTLED else REFUNDED, Some(t), Some(d), Some(id), None, Some(v), Some(m)),
              Chain(if v then OnSettled else OnRefunded, Some(d), [v]), s.trainings,
              s.snapshots[id := Snapshot(VERIFICATION, Some(t), Some(d), Some(m))], s.target,
              s.pcs[worker := Stopped][judge := Stopped])
  {
    hide Valid;
    hide End;
    hide Compares;
    longer := VerificationPass(r, a, worker, t, d, Some(m), 0, id);
    longer, v := VerdictPass(longer, a, judge, id, m);
  }

  const CREW: map<Process, Pc> :=
    map[0 := Listing(Confirming), 1 := Listing(Opening), 2 := Listing(Funding), 3 := Polling, 4 := Claiming,
        5 := Judging]

  lemma {:induction false} Funded(target: Target, a: Assumptions) returns (r: Run)
    ensures Valid(r, a) && Untouched(End(r))
    ensures
      End(r) == State(End(r).row, End(r).chain, map[], map[], target, CREW[0 := Stopped][1 := Stopped][2 := Starting])
  {
    r := Begin(target, CREW);
    assert Valid(r, a) && End(r) == Init(target, CREW);
    hide Valid;
    hide End;
    r := PostingPass(r, a, 0);
    r := OpeningPass(r, a, 1);
    r := FundingPass(r, a, 2);
  }

  /**
   For every target, every artifact and every measurement of it, a job can be taken
   from its draft to its verdict with nothing going wrong on the way, and then it is
   paid or refunded as the plain comparison of the measurement with the target says.
   */
  lemma {:induction false} WholeLife(target: Target, a: Assumptions, d: Digest, m: real) returns (r: Run, v: bool)
    requires !target.op.UNKNOWN?
    ensures Valid(r, a) && Compares(target, m, v)
    ensures End(r).row.status == (if v then SETTLED else REFUNDED) && End(r).chain.verdicts == [v]
    ensures End(r).chain.status == if v then OnSettled else OnRefunded
    ensures End(r).chain.deliverable == Some(d) == End(r).row.deliverable
    ensures End(r).row.accepted == Some(v) && End(r).row.verified == Some(m) && End(r).target == target
  {
    hide Valid;
    hide End;
    hide Compares;
    r := Funded(target, a);
    r := HandedOver(r, a, 2, 3, 100, 500, d);
    r, v := VerifiedAndJudged(r, a, 4, 5, 100, d, m, 600);
  }

  /** In particular a measurement of 10 against a target of at least 80 is refunded, all assumptions holding. */
  lemma {:induction false} MissedTargetIsRefunded() returns (r: Run)
    ensures Valid(r, Assumptions(true, true, true)) && End(r).target == Target(GTE, 80.0)
    ensures End(r).row.status == REFUNDED && End(r).row.verified == Some(10.0)
    ensures End(r).chain.status == OnRefunded && End(r).chain.verdicts == [false]
  {
    hide Valid;
    hide End;
    var v;
    r, v := WholeLife(Target(GTE, 80.0), Assumptions(true, true, true), 7, 10.0);
  }

  // ── What is taken up, and what is left alone ──────────────────────────────

  /** The step leaves everything but its process as it was, and that one is done. */
  ghost predicate TurnsAway(s: State, st: Step)
    requires Enabled(s, st) && OwnStep(st)
  {
    var s' := Next(s, st);
    s'.(pcs := s.pcs) == s && st.c in s'.pcs && s'.pcs[st.c] == Stopped
  }

  /** Before the escrow: which jobs each caller goes on with, told by row and chain; it leaves all others alone. */
  lemma {:induction false} ListedExactly(s: State, c: Process)
    requires c in s.pcs && s.pcs[c].Listing?
    ensures s.pcs[c].at.Confirming? ==>
      (TurnsAway(s, List(c, ReadForPosting)) <==> s.row.status != DRAFT && s.row.status != FAILED)
    ensures s.pcs[c].at.Opening? ==> (TurnsAway(s, List(c, ReadForOpening)) <==> s.row.status != POSTED)
    ensures s.pcs[c].at.Funding? ==>
      (TurnsAway(s, List(c, RelayFunding)) <==> s.chain.status == OnNone || s.chain.status == OnCancelled)
    ensures s.pcs[c].at.SendingFunding? ==>
      (TurnsAway(s, List(c, SendFunding(false))) <==> s.chain.status != OnPosted)
  {
  }

  /** startExecution and pollExecution. */
  lemma {:induction false} WorkedExactly(s: State, c: Process)
    requires c in s.pcs
    ensures s.pcs[c].Starting? ==>
      (TurnsAway(s, ReadForStart(c)) <==> s.row.training.Some? || s.row.status != ESCROWED)
    ensures s.pcs[c].Polling? ==>
      (TurnsAway(s, ReadForPoll(c)) <==> s.row.training.None? || s.row.status != EXECUTING)
    ensures s.pcs[c].AwaitingTraining? ==>
      (TurnsAway(s, ReadTraining(c)) <==>
         s.pcs[c].t !in s.trainings || s.trainings[s.pcs[c].t] != COMPLETED)
    ensures s.pcs[c].Sending? ==>
      (TurnsAway(s, SendDeliverable(c, false)) <==> s.chain.status != OnEscrowed && s.chain.status != OnExecuting)
  {
  }

  /** The verification worker and verifyAndSettle. */
  lemma {:induction false} JudgedExactly(s: State, c: Process, now: int)
    requires c in s.pcs
    ensures s.pcs[c].Claiming? ==>
      (TurnsAway(s, ClaimVerification(c, now)) <==>
         s.row.status != DELIVERED || s.row.snapshot.Some?
         || (s.row.claimedAt.Some? && s.row.claimedAt.value >= now - 900000))
    ensures s.pcs[c].Judging? ==> (TurnsAway(s, ReadForVerdict(c)) <==> s.row.snapshot.None?)
    ensures s.pcs[c].Loading? ==>
      (TurnsAway(s, LoadSnapshot(c)) <==>
         s.pcs[c].id !in s.snapshots || s.snapshots[s.pcs[c].id].kind != VERIFICATION
         || s.snapshots[s.pcs[c].id].measured.None? || s.target.op == UNKNOWN)
    ensures s.pcs[c].Pronouncing? ==> (TurnsAway(s, SendVerdict(c, false)) <==> s.chain.status != OnDelivered)
  {
  }

  lemma {:induction false} DecidedExactly(s: State, c: Process)
    requires c in s.pcs && s.pcs[c].Deciding?
    ensures TurnsAway(s, ReadChain(c)) <==>
      s.chain.status != OnDelivered
      && (s.pcs[c].committed.None? || (s.chain.status != OnEscrowed && s.chain.status != OnExecuting))
  {
  }

  /** Whoever has stopped does nothing more, and anyone may stop at any time. */
  lemma {:induction false} StopsForGood(s: State, c: Process, st: Step)
    ensures Enabled(s, Stop(c)) <==> c in s.pcs
    ensures Enabled(s, Stop(c)) ==> TurnsAway(s, Stop(c))
    ensures c in s.pcs && s.pcs[c].Stopped? && OwnStep(st) && st.c == c ==> (Enabled(s, st) <==> st.Stop?)
  {
  }

  /**
   A transaction whose answer is lost has landed all the same: the chain moves, its
   sender stops, and the row hears nothing of it.
   */
  lemma {:induction false} LostAnswers(s: State, c: Process)
    requires c in s.pcs
    ensures s.pcs[c] == Listing(SendingFunding) && s.chain.status == OnPosted ==>
      Next(s, List(c, SendFunding(true)))
        == s.(chain := s.chain.(status := OnEscrowed), pcs := s.pcs[c := Stopped])
    ensures s.pcs[c].Sending? && s.chain.status == OnExecuting ==>
      Next(s, SendDeliverable(c, true))
        == s.(chain := Chain(OnDelivered, Some(s.pcs[c].d), s.chain.verdicts), pcs := s.pcs[c := Stopped])
    ensures s.pcs[c].Pronouncing? && s.chain.status == OnDelivered ==>
      Next(s, SendVerdict(c, true))
        == s.(chain := Chain(if s.pcs[c].accepted then OnSettled else OnRefunded, s.chain.deliverable,
                             s.chain.verdicts + [s.pcs[c].accepted]),
              pcs := s.pcs[c := Stopped])
  {
  }

  /** A posting the chain does not answer for leaves the row FAILED, from where a later call posts it after all. */
  lemma {:induction false} FailedPostingPass(r: Run, a: Assumptions, c: Process) returns (longer: Run)
    requires Valid(r, a) && c in End(r).pcs && End(r).pcs[c] == Listing(SendingPost)
    requires a.writesFresh ==> End(r).row.status.POSTING?
    ensures Valid(longer, a)
    ensures Became(End(r), End(longer), End(r).row.(status := FAILED), End(r).chain, c, Stopped)
  {
    hide Valid;
    hide End;
    longer := Lists(r, a, c, SendPost(false, false));
    longer := Lists(longer, a, c, RecordPostFailed);
    Overridden(End(r).pcs, c, Listing(RecordingPostFailed), Stopped);
  }

  /**
   The posting call: it is answered only if the transaction lands or the chain knows the
   job already, and it posts nothing the chain knows.
   */
  lemma {:induction false} PostingAnswered(s: State, c: Process, landed: bool, answered: bool)
    requires c in s.pcs
    ensures
      var send := List(c, SendPost(landed, answered));
      && (Enabled(s, send) <==>
            s.pcs[c] == Listing(SendingPost) && (answered ==> landed || s.chain.status != OnNone))
      && (Enabled(s, send) ==>
            Next(s, send) ==
              s.(chain := if landed && s.chain.status == OnNone then s.chain.(status := OnPosted) else s.chain,
                 pcs := s.pcs[c := Listing(if answered then RecordingPosted else RecordingPostFailed)]))
  {
  }

  /** The trainer works on what was queued and queues nothing; what it measures is fresh and no verification. */
  lemma {:induction false} TrainerExactly(s: State, t: TrainingId, status: TrainingStatus, id: SnapshotId, n: Snapshot)
    ensures Enabled(s, AdvanceTraining(t, status)) <==> t in s.trainings && status != QUEUED
    ensures Enabled(s, AdvanceTraining(t, status)) ==>
      Next(s, AdvanceTraining(t, status)) == s.(trainings := s.trainings[t := status])
    ensures Enabled(s, RecordMeasurement(id, n)) <==> id !in s.snapshots && n.kind != VERIFICATION
    ensures Enabled(s, RecordMeasurement(id, n)) ==>
      Next(s, RecordMeasurement(id, n)) == s.(snapshots := s.snapshots[id := n])
  {
  }

  /** The creator's way out: until there is a verdict, a funded job can be refunded by timeout, and only such a job. */
  lemma {:induction false} TimeoutExactly(s: State)
    ensures Enabled(s, TimeoutRefund) <==>
      s.chain.status == OnEscrowed || s.chain.status == OnExecuting || s.chain.status == OnDelivered
    ensures Enabled(s, TimeoutRefund) ==> Next(s, TimeoutRefund) == s.(chain := s.chain.(status := OnRefunded))
    ensures Enabled(s, CancelPosted) <==> s.chain.status == OnPosted
    ensures Enabled(s, CancelPosted) ==> Next(s, CancelPosted) == s.(chain := s.chain.(status := OnCancelled))
  {
  }
}
