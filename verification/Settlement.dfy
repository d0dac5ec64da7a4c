/**
 One job from its draft to its verdict, as interleaved steps over a row, a chain
 and the snapshot table: any number of passes of confirmAndPost, openNegotiation,
 the funding route, startExecution, pollExecution, the verification worker and
 verifyAndSettle, each of which may stop at any await, and any of whose
 transactions may land unanswered.
 */
module Settlement {
  import opened Prelude
  import opened JobRow

  type Process = nat

  // ── The two stores ────────────────────────────────────────────────────────

  datatype ChainStatus =
    OnNone | OnPosted | OnCancelled | OnEscrowed | OnExecuting | OnDelivered | OnSettled | OnRefunded

  /** The escrow as its callers see it, and the verdicts it has accepted. */
  datatype Chain = Chain(status: ChainStatus, deliverable: Option<Digest>, verdicts: seq<bool>)

  predicate TakesDeliverable(ch: Chain) {
    ch.status.OnEscrowed? || ch.status.OnExecuting?
  }

  function WithDeliverable(ch: Chain, d: Digest): Chain {
    Chain(OnDelivered, Some(d), ch.verdicts)
  }

  predicate TakesVerdict(ch: Chain) {
    ch.status.OnDelivered?
  }

  function WithVerdict(ch: Chain, accepted: bool): Chain {
    Chain(if accepted then OnSettled else OnRefunded, ch.deliverable, ch.verdicts + [accepted])
  }

  datatype SnapshotKind = BASELINE | FINAL | VERIFICATION

  /** A capability snapshot: the checkpoint it measured and its value of the job's target metric. */
  datatype Snapshot = Snapshot(
    kind: SnapshotKind, training: Option<TrainingId>, digest: Option<Digest>, measured: Option<real>)

  datatype TrainingStatus = QUEUED | RUNNING | COMPLETED | ENDED

  datatype Operator = GTE | GT | LTE | LT | EQ | UNKNOWN

  datatype Target = Target(op: Operator, value: real)

  /** None is the exception for an operator that is none of the five. */
  function MeetsTarget(measured: real, t: Target): Option<bool> {
    match t.op
    case GTE => Some(measured >= t.value)
    case GT => Some(measured > t.value)
    case LTE => Some(measured <= t.value)
    case LT => Some(measured < t.value)
    case EQ => Some(measured == t.value)
    case UNKNOWN => None
  }

  // ── Processes and steps ───────────────────────────────────────────────────

  datatype ListingPc =
    | Confirming
    | RecordingPosting
    | SendingPost
    | RecordingPosted
    | RecordingPostFailed
    | Opening
    | RecordingOpening
    | Funding
    | SendingFunding
    | RecordingFunding

  datatype Pc =
    // confirmAndPost, openNegotiation and the funding route, which goes on to startExecution
    | Listing(at: ListingPc)
    // startExecution
    | Starting
    | Creating
    | RecordingStart(t: TrainingId)
    | Marking
    // pollExecution
    | Polling
    | AwaitingTraining(t: TrainingId)
    | SeekingFinal(t: TrainingId)
    | Sending(d: Digest)
    | RecordingDelivery(d: Digest)
    // the verification worker
    | Claiming
    | Evaluating(training: Option<TrainingId>, committed: Option<Digest>)
    | Persisting(training: Option<TrainingId>, actual: Digest, measured: Option<real>)
    | Attaching(id: SnapshotId)
    // verifyAndSettle
    | Judging
    | Loading(id: SnapshotId, committed: Option<Digest>)
    | Deciding(id: SnapshotId, committed: Option<Digest>, value: real, accepted: bool)
    | Committing(id: SnapshotId, d: Digest, value: real, accepted: bool)
    | Pronouncing(id: SnapshotId, value: real, accepted: bool)
    | RecordingVerdict(id: SnapshotId, value: real, accepted: bool)
    | Stopped

  predicate Entry(pc: Pc) {
    || (pc.Listing? && (pc.at.Confirming? || pc.at.Opening? || pc.at.Funding?))
    || pc.Starting? || pc.Polling? || pc.Claiming? || pc.Judging?
  }

  datatype State = State(
    row: Row,
    chain: Chain,
    trainings: map<TrainingId, TrainingStatus>,
    snapshots: map<SnapshotId, Snapshot>,
    target: Target,
    pcs: map<Process, Pc>)

  /** The steps before a job's work begins. */
  datatype ListingAct =
    | ReadForPosting
    | RecordPosting
    | SendPost(landed: bool, answered: bool)
    | RecordPosted
    | RecordPostFailed
    | ReadForOpening
    | RecordOpening
    | RelayFunding
    | SendFunding(lost: bool)
    | RecordFunding

  datatype Step =
    | List(c: Process, act: ListingAct)
    | ReadForStart(c: Process)
    | CreateTraining(c: Process, t: TrainingId)
    | RecordStart(c: Process)
    | MarkExecuting(c: Process)
    | ReadForPoll(c: Process)
    | ReadTraining(c: Process)
    | ReadFinal(c: Process, id: SnapshotId)
    | SendDeliverable(c: Process, lost: bool)
    | RecordDelivery(c: Process)
    | ClaimVerification(c: Process, now: int)
    | Evaluate(c: Process, actual: Digest, measured: Option<real>)
    | FailVerification(c: Process, until: int)
    | Persist(c: Process, id: SnapshotId)
    | Attach(c: Process)
    | ReadForVerdict(c: Process)
    | LoadSnapshot(c: Process)
    | ReadChain(c: Process)
    | CommitFallback(c: Process)
    | SendVerdict(c: Process, lost: bool)
    | RecordVerdict(c: Process)
    | Stop(c: Process)
    | AdvanceTraining(t: TrainingId, status: TrainingStatus)
    | RecordMeasurement(id: SnapshotId, snapshot: Snapshot)
    | CancelPosted
    | TimeoutRefund

  function Init(target: Target, processes: map<Process, Pc>): State {
    State(NEW_JOB, Chain(OnNone, None, []), map[], map[], target, processes)
  }

  predicate OwnStep(st: Step) {
    !st.AdvanceTraining? && !st.RecordMeasurement? && !st.CancelPosted? && !st.TimeoutRefund?
  }

  predicate Enabled(s: State, st: Step) {
    if OwnStep(st) then st.c in s.pcs && EnabledAt(s, s.pcs[st.c], st)
    else if st.AdvanceTraining? then st.t in s.trainings && !st.status.QUEUED?
    // Only the verification worker writes VERIFICATION snapshots.
    else if st.RecordMeasurement? then st.id !in s.snapshots && !st.snapshot.kind.VERIFICATION?
    else if st.CancelPosted? then s.chain.status.OnPosted?
    else TakesDeliverable(s.chain) || TakesVerdict(s.chain)
  }

  predicate ListingEnabled(ch: Chain, at: ListingPc, act: ListingAct) {
    match act
    case ReadForPosting => at.Confirming?
    case RecordPosting => at.RecordingPosting?
    // An existing record counts as success; a job nobody knows of cannot be answered for.
    case SendPost(landed, answered) => at.SendingPost? && (answered ==> landed || !ch.status.OnNone?)
    case RecordPosted => at.RecordingPosted?
    case RecordPostFailed => at.RecordingPostFailed?
    case ReadForOpening => at.Opening?
    case RecordOpening => at.RecordingOpening?
    case RelayFunding => at.Funding?
    case SendFunding(_) => at.SendingFunding?
    case RecordFunding => at.RecordingFunding?
  }

  predicate EnabledAt(s: State, pc: Pc, st: Step)
    requires OwnStep(st)
  {
    match st
    case List(_, act) => pc.Listing? && ListingEnabled(s.chain, pc.at, act)
    case ReadForStart(_) => pc.Starting?
    case CreateTraining(_, t) => pc.Creating? && t !in s.trainings
    case RecordStart(_) => pc.RecordingStart?
    case MarkExecuting(_) => pc.Marking?
    case ReadForPoll(_) => pc.Polling?
    case ReadTraining(_) => pc.AwaitingTraining?
    case ReadFinal(_, id) =>
      && pc.SeekingFinal? && id in s.snapshots && s.snapshots[id].kind.FINAL?
      && s.snapshots[id].training == Some(pc.t)
    case SendDeliverable(_, _) => pc.Sending?
    case RecordDelivery(_) => pc.RecordingDelivery?
    case ClaimVerification(_, _) => pc.Claiming?
    // The worker measures only the artifact that was committed.
    case Evaluate(_, actual, _) =>
      pc.Evaluating? && pc.training.Some? && (pc.committed.None? || pc.committed.value == actual)
    case FailVerification(_, _) => pc.Evaluating? || pc.Persisting? || pc.Attaching?
    case Persist(_, id) => pc.Persisting? && id !in s.snapshots
    case Attach(_) => pc.Attaching?
    case ReadForVerdict(_) => pc.Judging?
    case LoadSnapshot(_) => pc.Loading?
    case ReadChain(_) => pc.Deciding?
    case CommitFallback(_) => pc.Committing?
    case SendVerdict(_, _) => pc.Pronouncing?
    case RecordVerdict(_) => pc.RecordingVerdict?
    case Stop(_) => true
  }

  function Move(s: State, c: Process, pc: Pc): State {
    s.(pcs := s.pcs[c := pc])
  }

  function Write(s: State, c: Process, row: Row, pc: Pc): State {
    s.(row := row, pcs := s.pcs[c := pc])
  }

  function Next(s: State, st: Step): State
    requires Enabled(s, st)
  {
    if OwnStep(st) then NextAt(s, s.pcs[st.c], st)
    else if st.AdvanceTraining? then s.(trainings := s.trainings[st.t := st.status])
    else if st.RecordMeasurement? then s.(snapshots := s.snapshots[st.id := st.snapshot])
    else if st.CancelPosted? then s.(chain := s.chain.(status := OnCancelled))
    else s.(chain := s.chain.(status := OnRefunded))
  }

  /** What a listing step leaves in the row's status; every write is unconditional, whatever was read before it. */
  function ListedStatus(status: JobStatus, act: ListingAct): JobStatus {
    match act
    case RecordPosting => POSTING
    case RecordPosted => POSTED
    case RecordPostFailed => FAILED
    case RecordOpening => NEGOTIATING
    case RecordFunding => ESCROWED
    case _ => status
  }

  function ListedChain(ch: Chain, act: ListingAct): Chain {
    if act.SendPost? && act.landed && ch.status.OnNone? then ch.(status := OnPosted)
    else if act.SendFunding? && ch.status.OnPosted? then ch.(status := OnEscrowed)
    else ch
  }

  function ListedPc(status: JobStatus, ch: Chain, act: ListingAct): Pc {
    match act
    case ReadForPosting => if status.DRAFT? || status.FAILED? then Listing(RecordingPosting) else Stopped
    case RecordPosting => Listing(SendingPost)
    case SendPost(_, answered) => Listing(if answered then RecordingPosted else RecordingPostFailed)
    case RecordPosted => Stopped
    case RecordPostFailed => Stopped
    case ReadForOpening => if status.POSTED? then Listing(RecordingOpening) else Stopped
    case RecordOpening => Stopped
    // Whatever lies past POSTED is reported as funded already.
    case RelayFunding =>
      if ch.status.OnNone? || ch.status.OnCancelled? then Stopped
      else Listing(if ch.status.OnPosted? then SendingFunding else RecordingFunding)
    case SendFunding(lost) => if lost || !ch.status.OnPosted? then Stopped else Listing(RecordingFunding)
    case RecordFunding => Starting
  }

  function NextAt(s: State, pc: Pc, st: Step): State
    requires OwnStep(st) && EnabledAt(s, pc, st)
  {
    match st
    case List(c, act) =>
      Write(s, c, WithStatus(s.row, ListedStatus(s.row.status, act)), ListedPc(s.row.status, s.chain, act))
        .(chain := ListedChain(s.chain, act))
    case ReadForStart(c) =>
      Move(s, c, if s.row.training.None? && s.row.status.ESCROWED? then Creating else Stopped)
    case CreateTraining(c, t) => Move(s, c, RecordingStart(t)).(trainings := s.trainings[t := QUEUED])
    case RecordStart(c) => Write(s, c, Started(s.row, pc.t), Marking)
    case MarkExecuting(c) =>
      Move(s, c, Stopped).(chain := if s.chain.status.OnEscrowed? then s.chain.(status := OnExecuting) else s.chain)
    case ReadForPoll(c) =>
      Move(s, c, if s.row.status.EXECUTING? && s.row.training.Some?
                 then AwaitingTraining(s.row.training.value) else Stopped)
    case ReadTraining(c) =>
      Move(s, c, if pc.t in s.trainings && s.trainings[pc.t].COMPLETED? then SeekingFinal(pc.t) else Stopped)
    case ReadFinal(c, id) =>
      var digest := s.snapshots[id].digest;
      Move(s, c, if digest.Some? then Sending(digest.value) else Stopped)
    case SendDeliverable(c, lost) =>
      if !TakesDeliverable(s.chain) then Move(s, c, Stopped)
      else
        Move(s, c, if lost then Stopped else RecordingDelivery(pc.d)).(chain := WithDeliverable(s.chain, pc.d))
    case RecordDelivery(c) => Write(s, c, Delivered(s.row, pc.d), Stopped)
    case ClaimVerification(c, now) =>
      if Claimable(s.row, now)
      then Write(s, c, Claimed(s.row, now), Evaluating(s.row.training, s.row.deliverable))
      else Move(s, c, Stopped)
    case Evaluate(c, actual, measured) => Move(s, c, Persisting(pc.training, actual, measured))
    case FailVerification(c, until) => Write(s, c, Claimed(s.row, until), Stopped)
    case Persist(c, id) =>
      var snapshot := Snapshot(VERIFICATION, pc.training, Some(pc.actual), pc.measured);
      Move(s, c, Attaching(id)).(snapshots := s.snapshots[id := snapshot])
    case Attach(c) => Write(s, c, Verified(s.row, pc.id), Stopped)
    case ReadForVerdict(c) =>
      Move(s, c, if s.row.snapshot.Some? then Loading(s.row.snapshot.value, s.row.deliverable) else Stopped)
    case LoadSnapshot(c) =>
      if pc.id !in s.snapshots || !s.snapshots[pc.id].kind.VERIFICATION? || s.snapshots[pc.id].measured.None?
      then Move(s, c, Stopped)
      else
        var value := s.snapshots[pc.id].measured.value;
        var accepted := MeetsTarget(value, s.target);
        Move(s, c, if accepted.None? then Stopped else Deciding(pc.id, pc.committed, value, accepted.value))
    case ReadChain(c) =>
      if TakesVerdict(s.chain) then Move(s, c, Pronouncing(pc.id, pc.value, pc.accepted))
      else if TakesDeliverable(s.chain) && pc.committed.Some?
      then Move(s, c, Committing(pc.id, pc.committed.value, pc.value, pc.accepted))
      else Move(s, c, Stopped)
    case CommitFallback(c) =>
      if !TakesDeliverable(s.chain) then Move(s, c, Stopped)
      else Move(s, c, Pronouncing(pc.id, pc.value, pc.accepted)).(chain := WithDeliverable(s.chain, pc.d))
    case SendVerdict(c, lost) =>
      if !TakesVerdict(s.chain) then Move(s, c, Stopped)
      else
        Move(s, c, if lost then Stopped else RecordingVerdict(pc.id, pc.value, pc.accepted))
          .(chain := WithVerdict(s.chain, pc.accepted))
    case RecordVerdict(c) => Write(s, c, Settled(s.row, pc.accepted, pc.value), Stopped)
    case Stop(c) => Move(s, c, Stopped)
  }

  /** The five operators are the one order on measurements, read in its five ways. */
  lemma {:induction false} OperatorsAgree(measured: real, value: real)
    ensures MeetsTarget(measured, Target(GTE, value)) == Some(true)
      <==> MeetsTarget(measured, Target(LT, value)) == Some(false)
    ensures MeetsTarget(measured, Target(LTE, value)) == Some(true)
      <==> MeetsTarget(measured, Target(GT, value)) == Some(false)
    ensures MeetsTarget(measured, Target(EQ, value)) == Some(true)
      <==> MeetsTarget(measured, Target(GTE, value)) == Some(true) == MeetsTarget(measured, Target(LTE, value))
    ensures MeetsTarget(value + 1.0, Target(GT, value)) == Some(true)
  {
  }

  // ── Runs ──────────────────────────────────────────────────────────────────

  /** Workers between a successful claim and attaching their snapshot. */
  predicate Verifying(pc: Pc) {
    pc.Evaluating? || pc.Persisting? || pc.Attaching?
  }

  datatype Assumptions = Assumptions(leaseHonoured: bool, outcomesRepeat: bool, writesFresh: bool)

  const NONE := Assumptions(false, false, false)

  /** A verification claim is retaken as stale only after its holder has stopped. */
  ghost predicate LeaseHonoured(s: State, st: Step) {
    st.ClaimVerification? && Claimable(s.row, st.now) && s.row.claimedAt.Some? ==>
      forall d :: d in s.pcs ==> !Verifying(s.pcs[d])
  }

  /** What a snapshot's measurement says of the target. */
  function Outcome(s: State, id: SnapshotId): Option<bool> {
    if id in s.snapshots && s.snapshots[id].measured.Some? then MeetsTarget(s.snapshots[id].measured.value, s.target)
    else None
  }

  /** A snapshot that replaces the one a row names has its outcome. */
  predicate OutcomesRepeat(s: State, st: Step) {
    st.Attach? && st.c in s.pcs && s.pcs[st.c].Attaching? && s.row.snapshot.Some? ==>
      Outcome(s, s.pcs[st.c].id) == Outcome(s, s.row.snapshot.value)
  }

  predicate StatusWrite(act: ListingAct) {
    || act.RecordPosting? || act.RecordPosted? || act.RecordPostFailed? || act.RecordOpening? || act.RecordFunding?
  }

  /** The writes that put a job back among those whose work is not handed over. */
  predicate EarlyWrite(st: Step) {
    st.RecordStart? || (st.List? && StatusWrite(st.act))
  }

  predicate ListingFresh(status: JobStatus, act: ListingAct) {
    match act
    case RecordPosting => status.DRAFT? || status.FAILED?
    case RecordPosted => status.POSTING?
    case RecordPostFailed => status.POSTING?
    case RecordOpening => status.POSTED?
    case RecordFunding => status.POSTED? || status.NEGOTIATING?
    case _ => true
  }

  /** An early write finds the row in the status it was decided in. */
  predicate WriteFresh(s: State, st: Step) {
    && (st.RecordStart? ==> s.row.status.ESCROWED?)
    && (st.List? ==> ListingFresh(s.row.status, st.act))
  }

  ghost predicate Respects(s: State, st: Step, a: Assumptions) {
    && (a.leaseHonoured ==> LeaseHonoured(s, st))
    && (a.outcomesRepeat ==> OutcomesRepeat(s, st))
    && (a.writesFresh ==> WriteFresh(s, st))
  }

  /** The state after a step, if the step can be taken and respects the assumptions. */
  ghost function After(s: State, st: Step, a: Assumptions): Option<State> {
    if Enabled(s, st) && Respects(s, st, a) then Some(Next(s, st)) else None
  }

  datatype Run = Begin(target: Target, processes: map<Process, Pc>) | Then(prev: Run, step: Step)

  ghost function End(r: Run): State {
    match r
    case Begin(target, processes) => Init(target, processes)
    case Then(prev, st) => if Enabled(End(prev), st) then Next(End(prev), st) else End(prev)
  }

  ghost predicate Valid(r: Run, a: Assumptions) {
    match r
    case Begin(_, processes) => forall c :: c in processes ==> Entry(processes[c])
    case Then(prev, st) => Valid(prev, a) && After(End(prev), st, a).Some?
  }

  // ── What every interleaving keeps ─────────────────────────────────────────

  ghost predicate ChainOk(ch: Chain) {
    match ch.status
    case OnDelivered => ch.deliverable.Some? && ch.verdicts == []
    case OnSettled => ch.deliverable.Some? && ch.verdicts == [true]
    case OnRefunded => ch.verdicts == [] || (ch.deliverable.Some? && ch.verdicts == [false])
    case _ => ch.deliverable.None? && ch.verdicts == []
  }

  /** An independent measurement of the very artifact committed on chain. */
  predicate Judged(s: State, id: SnapshotId) {
    && id in s.snapshots && s.snapshots[id].kind.VERIFICATION?
    && s.chain.deliverable.Some? && s.snapshots[id].digest == s.chain.deliverable
  }

  /** A verdict follows from such a measurement. */
  predicate Backs(s: State, id: SnapshotId, value: real, accepted: bool) {
    Judged(s, id) && s.snapshots[id].measured == Some(value) && MeetsTarget(value, s.target) == Some(accepted)
  }

  ghost predicate RowOk(s: State) {
    && (s.row.deliverable.Some? ==> s.chain.deliverable == s.row.deliverable)
    && (s.row.status.DELIVERED? ==> s.row.deliverable.Some?)
    && (s.row.snapshot.Some? ==> s.row.deliverable.Some? && Judged(s, s.row.snapshot.value))
    && (s.row.accepted.Some? ==>
          s.row.deliverable.Some? && s.row.snapshot.Some? && s.row.verified.Some?
          && s.chain.verdicts == [s.row.accepted.value]
          && MeetsTarget(s.row.verified.value, s.target) == s.row.accepted)
    && (s.row.status.SETTLED? ==> s.row.accepted == Some(true))
    && (s.row.status.REFUNDED? ==> s.row.accepted == Some(false))
  }

  ghost predicate PcOk(s: State, pc: Pc) {
    match pc
    case RecordingDelivery(d) => s.chain.deliverable == Some(d) && s.row.deliverable.None?
    case Evaluating(_, committed) => committed.Some? && s.row.deliverable == committed
    case Persisting(_, actual, _) => s.row.deliverable == Some(actual)
    case Attaching(id) => s.row.deliverable.Some? && Judged(s, id)
    case Loading(id, _) => Handed(s.row) && Judged(s, id)
    case Deciding(id, _, value, accepted) => Handed(s.row) && Backs(s, id, value, accepted)
    case Committing(_, _, _, _) => false
    case Pronouncing(id, value, accepted) => Handed(s.row) && Backs(s, id, value, accepted)
    case RecordingVerdict(id, value, accepted) =>
      Handed(s.row) && Backs(s, id, value, accepted) && s.chain.verdicts == [accepted]
    case _ => true
  }

  /** Delivered and verified, whatever its status says by now. */
  predicate Handed(r: Row) {
    r.deliverable.Some? && r.snapshot.Some?
  }

  ghost predicate PcsOk(s: State) {
    forall c :: c in s.pcs ==> PcOk(s, s.pcs[c])
  }

  /** One delivery is being written down at most. */
  ghost predicate OneDelivery(s: State) {
    forall c, d :: c in s.pcs && d in s.pcs && s.pcs[c].RecordingDelivery? && s.pcs[d].RecordingDelivery? ==> c == d
  }

  ghost predicate VerdictBacked(s: State) {
    s.chain.verdicts != [] ==> exists id, value :: Backs(s, id, value, s.chain.verdicts[0])
  }

  ghost predicate Inv(s: State) {
    ChainOk(s.chain) && RowOk(s) && PcsOk(s) && OneDelivery(s) && VerdictBacked(s)
  }

  /** Commitments, snapshots, verdicts and the target never change once they exist. */
  ghost predicate Extends(s: State, s': State) {
    && s'.target == s.target
    && (s.chain.deliverable.Some? ==> s'.chain.deliverable == s.chain.deliverable)
    && (forall id :: id in s.snapshots ==> id in s'.snapshots && s'.snapshots[id] == s.snapshots[id])
    && (s.chain.verdicts != [] ==> s'.chain.verdicts == s.chain.verdicts)
  }

  predicate Unfunded(ch: Chain) {
    ch.status.OnNone? || ch.status.OnPosted?
  }

  lemma {:induction false} ListingFrame(status: JobStatus, ch: Chain, act: ListingAct)
    ensures
      var ch' := ListedChain(ch, act);
      ch' == ch || (Unfunded(ch) && (ch'.status.OnPosted? || ch'.status.OnEscrowed?)
                    && ch' == ch.(status := ch'.status))
    ensures ListedPc(status, ch, act).Listing? || ListedPc(status, ch, act).Starting?
      || ListedPc(status, ch, act).Stopped?
    ensures StatusWrite(act) ==> Early(ListedStatus(status, act))
    ensures !StatusWrite(act) ==> ListedStatus(status, act) == status
  {
  }

  lemma {:induction false} ChainMoves(s: State, pc: Pc, st: Step)
    requires OwnStep(st) && EnabledAt(s, pc, st)
    ensures
      var ch, ch' := s.chain, NextAt(s, pc, st).chain;
      || ch' == ch
      || (st.MarkExecuting? && ch.status.OnEscrowed? && ch' == ch.(status := OnExecuting))
      || (TakesDeliverable(ch) && (st.SendDeliverable? || st.CommitFallback?) && ch' == WithDeliverable(ch, pc.d))
      || (TakesVerdict(ch) && st.SendVerdict? && ch' == WithVerdict(ch, pc.accepted))
      || (st.List? && Unfunded(ch) && (ch'.status.OnPosted? || ch'.status.OnEscrowed?)
          && ch' == ch.(status := ch'.status))
  {
    if st.List? {
      ListingFrame(s.row.status, s.chain, st.act);
    }
    hide ListedStatus;
    hide ListedChain;
    hide ListedPc;
  }

  lemma {:induction false} RowMoves(s: State, pc: Pc, st: Step)
    requires OwnStep(st) && EnabledAt(s, pc, st)
    ensures NextAt(s, pc, st).row ==
      match st
      case RecordStart(_) => Started(s.row, pc.t)
      case RecordDelivery(_) => Delivered(s.row, pc.d)
      case ClaimVerification(_, now) => if Claimable(s.row, now) then Claimed(s.row, now) else s.row
      case FailVerification(_, until) => Claimed(s.row, until)
      case Attach(_) => Verified(s.row, pc.id)
      case RecordVerdict(_) => Settled(s.row, pc.accepted, pc.value)
      case List(_, act) => WithStatus(s.row, ListedStatus(s.row.status, act))
      case _ => s.row
  {
    hide ListedStatus;
    hide ListedChain;
    hide ListedPc;
  }

  lemma {:induction false} PcsMove(s: State, pc: Pc, st: Step)
    requires OwnStep(st) && EnabledAt(s, pc, st) && st.c in s.pcs
    ensures NextAt(s, pc, st).pcs.Keys == s.pcs.Keys
    ensures forall d :: d in s.pcs && d != st.c ==> NextAt(s, pc, st).pcs[d] == s.pcs[d]
    ensures NextAt(s, pc, st).pcs[st.c].RecordingDelivery? ==> st.SendDeliverable? && TakesDeliverable(s.chain)
  {
    if st.List? {
      ListingFrame(s.row.status, s.chain, st.act);
    }
    hide ListedStatus;
    hide ListedChain;
    hide ListedPc;
  }

  lemma {:induction false} SnapshotsGrow(s: State, pc: Pc, st: Step)
    requires OwnStep(st) && EnabledAt(s, pc, st)
    ensures NextAt(s, pc, st).target == s.target
    ensures forall id :: id in s.snapshots ==>
      id in NextAt(s, pc, st).snapshots && NextAt(s, pc, st).snapshots[id] == s.snapshots[id]
  {
    if st.List? {
      ListingFrame(s.row.status, s.chain, st.act);
    }
    hide ListedStatus;
    hide ListedChain;
    hide ListedPc;
  }

  lemma {:induction false} NextExtends(s: State, st: Step)
    requires Enabled(s, st) && ChainOk(s.chain)
    ensures Extends(s, Next(s, st))
  {
    hide NextAt;
    hide EnabledAt;
    if OwnStep(st) {
      ChainMoves(s, s.pcs[st.c], st);
      SnapshotsGrow(s, s.pcs[st.c], st);
    }
  }

  lemma {:induction false} ChainOkKept(s: State, st: Step)
    requires Inv(s) && Enabled(s, st)
    ensures ChainOk(Next(s, st).chain)
  {
    hide NextAt;
    hide EnabledAt;
    if OwnStep(st) {
      ChainMoves(s, s.pcs[st.c], st);
    }
  }

  lemma {:induction false} RowOkKept(s: State, st: Step)
    requires Inv(s) && Enabled(s, st)
    ensures RowOk(Next(s, st))
  {
    hide NextAt;
    hide EnabledAt;
    hide PcOk;
    NextExtends(s, st);
    if OwnStep(st) {
      var pc := s.pcs[st.c];
      assert PcOk(s, pc);
      RowMoves(s, pc, st);
      RowWriteOk(s, Next(s, st), pc, st);
    }
  }

  lemma {:induction false} RowWriteOk(s: State, s': State, pc: Pc, st: Step)
    requires RowOk(s) && ChainOk(s.chain) && PcOk(s, pc) && Extends(s, s') && OwnStep(st) && EnabledAt(s, pc, st)
    requires s'.row == NextAt(s, pc, st).row
    ensures RowOk(s')
  {
    RowMoves(s, pc, st);
    hide NextAt;
  }

  lemma {:induction false} BacksStays(s: State, s': State)
    requires Extends(s, s') && s.chain.verdicts != [] && VerdictBacked(s)
    ensures VerdictBacked(s')
  {
    var id, value :| Backs(s, id, value, s.chain.verdicts[0]);
    assert Backs(s', id, value, s'.chain.verdicts[0]);
  }

  lemma {:induction false} FirstVerdict(s: State, s': State, pc: Pc)
    requires Extends(s, s') && pc.Pronouncing? && PcOk(s, pc) && s.chain.verdicts == []
    requires s'.chain == WithVerdict(s.chain, pc.accepted)
    ensures VerdictBacked(s')
  {
    assert s'.chain.verdicts[0] == pc.accepted;
    assert Backs(s', pc.id, pc.value, s'.chain.verdicts[0]);
  }

  lemma {:induction false} VerdictBackedKept(s: State, st: Step)
    requires Inv(s) && Enabled(s, st)
    ensures VerdictBacked(Next(s, st))
  {
    hide NextAt;
    hide RowOk;
    NextExtends(s, st);
    if s.chain.verdicts != [] {
      BacksStays(s, Next(s, st));
    } else if OwnStep(st) {
      var pc := s.pcs[st.c];
      assert PcOk(s, pc);
      hide PcOk;
      ChainMoves(s, pc, st);
      if st.SendVerdict? && TakesVerdict(s.chain) && Next(s, st).chain != s.chain {
        FirstVerdict(s, Next(s, st), pc);
      }
    }
  }

  lemma {:induction false} MovesOnly(s: State, st: Step, c: Process)
    requires Enabled(s, st)
    ensures Next(s, st).pcs.Keys == s.pcs.Keys
    ensures c in s.pcs && (!OwnStep(st) || st.c != c) ==> Next(s, st).pcs[c] == s.pcs[c]
  {
    hide NextAt;
    if OwnStep(st) {
      PcsMove(s, s.pcs[st.c], st);
    }
  }

  /** A second delivery finds the first one's commitment on chain. */
  lemma {:induction false} OneDeliveryKept(s: State, st: Step)
    requires Inv(s) && Enabled(s, st)
    ensures OneDelivery(Next(s, st))
  {
    hide NextAt;
    hide EnabledAt;
    hide RowOk;
    var s' := Next(s, st);
    forall c, d | c in s'.pcs && d in s'.pcs && s'.pcs[c].RecordingDelivery? && s'.pcs[d].RecordingDelivery?
      ensures c == d
    {
      MovesOnly(s, st, c);
      MovesOnly(s, st, d);
      assert PcOk(s, s.pcs[c]) && PcOk(s, s.pcs[d]);
      if OwnStep(st) {
        PcsMove(s, s.pcs[st.c], st);
      }
    }
  }

  /** The row's delivered artifact is written once, and a verified row stays verified. */
  lemma {:induction false} DeliverableStays(s: State, st: Step)
    requires Inv(s) && Enabled(s, st)
    ensures s.row.snapshot.Some? ==> Next(s, st).row.snapshot.Some?
    ensures s.row.deliverable.Some? ==> Next(s, st).row.deliverable == s.row.deliverable
    ensures s.row.deliverable.None? && Next(s, st).row.deliverable.Some? ==> st.RecordDelivery?
  {
    hide NextAt;
    if OwnStep(st) {
      assert PcOk(s, s.pcs[st.c]);
      RowMoves(s, s.pcs[st.c], st);
    }
  }

  lemma {:induction false} PcOkStable(s: State, s': State, pc: Pc)
    requires PcOk(s, pc) && Extends(s, s')
    requires s.row.deliverable.Some? ==> s'.row.deliverable == s.row.deliverable
    requires s.row.snapshot.Some? ==> s'.row.snapshot.Some?
    requires pc.RecordingDelivery? ==> s'.row.deliverable.None?
    ensures PcOk(s', pc)
  {
  }

  lemma {:induction false} StandingPcOk(s: State, st: Step, c: Process)
    requires Inv(s) && Enabled(s, st) && c in s.pcs && (OwnStep(st) ==> st.c != c)
    ensures PcOk(Next(s, st), s.pcs[c])
  {
    hide Next;
    hide RowOk;
    NextExtends(s, st);
    DeliverableStays(s, st);
    assert PcOk(s, s.pcs[c]);
    PcOkStable(s, Next(s, st), s.pcs[c]);
  }

  predicate MarketplaceStep(st: Step) {
    || st.ReadForStart? || st.CreateTraining? || st.RecordStart? || st.MarkExecuting? || st.ReadForPoll?
    || st.ReadTraining? || st.ReadFinal? || st.SendDeliverable? || st.RecordDelivery? || st.Stop? || st.List?
  }

  predicate WorkerStep(st: Step) {
    st.ClaimVerification? || st.Evaluate? || st.FailVerification? || st.Persist? || st.Attach?
  }

  lemma {:induction false} MarketplacePcOk(s: State, pc: Pc, st: Step)
    requires RowOk(s) && ChainOk(s.chain) && PcOk(s, pc) && MarketplaceStep(st) && EnabledAt(s, pc, st)
    ensures PcOk(NextAt(s, pc, st), NextAt(s, pc, st).pcs[st.c])
  {
    if st.List? {
      ListingFrame(s.row.status, s.chain, st.act);
    }
    hide ListedStatus;
    hide ListedChain;
    hide ListedPc;
  }

  lemma {:induction false} WorkerPcOk(s: State, pc: Pc, st: Step)
    requires RowOk(s) && ChainOk(s.chain) && PcOk(s, pc) && WorkerStep(st) && EnabledAt(s, pc, st)
    ensures PcOk(NextAt(s, pc, st), NextAt(s, pc, st).pcs[st.c])
  {
  }

  lemma {:induction false} VerifierPcOk(s: State, pc: Pc, st: Step)
    requires RowOk(s) && ChainOk(s.chain) && PcOk(s, pc) && OwnStep(st) && EnabledAt(s, pc, st)
    requires !MarketplaceStep(st) && !WorkerStep(st)
    ensures PcOk(NextAt(s, pc, st), NextAt(s, pc, st).pcs[st.c])
  {
  }

  lemma {:induction false} MovingPcOk(s: State, st: Step)
    requires Inv(s) && Enabled(s, st) && OwnStep(st)
    ensures PcOk(Next(s, st), Next(s, st).pcs[st.c])
  {
    var pc := s.pcs[st.c];
    assert PcOk(s, pc);
    hide NextAt;
    hide EnabledAt;
    hide RowOk;
    hide ChainOk;
    hide PcOk;
    if MarketplaceStep(st) {
      MarketplacePcOk(s, pc, st);
    } else if WorkerStep(st) {
      WorkerPcOk(s, pc, st);
    } else {
      VerifierPcOk(s, pc, st);
    }
  }

  lemma {:induction false} PcsOkKept(s: State, st: Step)
    requires Inv(s) && Enabled(s, st)
    ensures PcsOk(Next(s, st))
  {
    forall c | c in Next(s, st).pcs
      ensures PcOk(Next(s, st), Next(s, st).pcs[c])
    {
      MovesOnly(s, st, c);
      if OwnStep(st) && st.c == c {
        MovingPcOk(s, st);
      } else {
        StandingPcOk(s, st, c);
      }
    }
  }

  lemma {:induction false} InvKept(s: State, st: Step)
    requires Inv(s) && Enabled(s, st)
    ensures Inv(Next(s, st))
  {
    ChainOkKept(s, st);
    RowOkKept(s, st);
    PcsOkKept(s, st);
    OneDeliveryKept(s, st);
    VerdictBackedKept(s, st);
  }

  lemma {:induction false} InvAlways(r: Run, a: Assumptions)
    requires Valid(r, a)
    ensures Inv(End(r))
  {
    match r
    case Begin(_, _) =>
    case Then(prev, st) =>
      hide Next;
      hide Inv;
      hide Respects;
      InvAlways(prev, a);
      InvKept(End(prev), st);
  }

  /**
   Over every interleaving, stop and retry: at most one verdict lands, the row
   and the chain never contradict each other, and the verdict follows from an
   independent measurement of the artifact whose digest is on chain.
   */
  lemma {:induction false} StoresAgree(r: Run, a: Assumptions)
    requires Valid(r, a)
    ensures
      var s := End(r);
      && |s.chain.verdicts| <= 1
      && (s.row.status.DELIVERED? ==> s.row.deliverable.Some? && s.chain.deliverable == s.row.deliverable)
      && (s.row.status.SETTLED? ==> s.chain.status.OnSettled? && s.chain.verdicts == [true])
      && (s.row.status.REFUNDED? ==> s.chain.status.OnRefunded? && s.chain.verdicts == [false])
      && (Terminal(s.row.status) ==>
            s.row.verified.Some? && s.row.accepted.Some?
            && MeetsTarget(s.row.verified.value, s.target) == s.row.accepted)
      && (s.chain.verdicts != [] ==> exists id, value :: Backs(s, id, value, s.chain.verdicts[0]))
  {
    InvAlways(r, a);
    hide End;
  }

  /** The verifier's own deliverable commit is dead code: a verification only ever follows a delivery. */
  lemma {:induction false} FallbackUnreachable(r: Run, a: Assumptions, c: Process)
    requires Valid(r, a) && c in End(r).pcs
    ensures !End(r).pcs[c].Committing?
  {
    InvAlways(r, a);
    hide End;
    assert PcOk(End(r), End(r).pcs[c]);
  }

  // ── What a finished row loses, and when ───────────────────────────────────

  lemma {:induction false} RecordVerdictRepeats(s: State, st: Step)
    requires Inv(s) && Enabled(s, st) && st.RecordVerdict? && Terminal(s.row.status)
    ensures Next(s, st).row.status == s.row.status
  {
    assert PcOk(s, s.pcs[st.c]);
  }

  lemma {:induction false} DeliveryIsEarly(s: State, st: Step)
    requires Inv(s) && Enabled(s, st) && st.RecordDelivery?
    ensures !Terminal(s.row.status)
  {
    assert PcOk(s, s.pcs[st.c]);
  }

  lemma {:induction false} EarlyRow(s: State, pc: Pc, st: Step)
    requires OwnStep(st) && EnabledAt(s, pc, st)
    ensures EarlyWrite(st) ==> Early(NextAt(s, pc, st).row.status)
    ensures !EarlyWrite(st) && !st.RecordDelivery? && !st.RecordVerdict? ==>
      NextAt(s, pc, st).row.status == s.row.status
  {
    RowMoves(s, pc, st);
    hide NextAt;
    hide EnabledAt;
    if st.List? {
      ListingFrame(s.row.status, s.chain, st.act);
    }
    hide ListedStatus;
  }

  lemma {:induction false} StatusMoves(s: State, st: Step)
    requires Enabled(s, st)
    ensures EarlyWrite(st) ==> Early(Next(s, st).row.status)
    ensures !EarlyWrite(st) && !st.RecordDelivery? && !st.RecordVerdict? ==> Next(s, st).row.status == s.row.status
  {
    hide NextAt;
    hide EnabledAt;
    if OwnStep(st) {
      EarlyRow(s, s.pcs[st.c], st);
    }
  }

  /**
   Exactly six writes can take a row out of SETTLED or REFUNDED, those of a late or
   repeated confirmAndPost, openNegotiation, funding or startExecution: each of
   them always does, and nothing else ever does.
   */
  lemma {:induction false} TerminalLostExactly(r: Run, a: Assumptions, st: Step)
    requires Valid(r, a) && Enabled(End(r), st) && Terminal(End(r).row.status)
    ensures Next(End(r), st).row.status != End(r).row.status <==> EarlyWrite(st)
    ensures EarlyWrite(st) ==> Early(Next(End(r), st).row.status)
  {
    InvAlways(r, a);
    var s := End(r);
    hide End;
    hide Next;
    hide Enabled;
    hide Inv;
    StatusMoves(s, st);
    if st.RecordDelivery? {
      DeliveryIsEarly(s, st);
    } else if st.RecordVerdict? {
      RecordVerdictRepeats(s, st);
    }
  }

  /** Where every early write finds the row as it was decided on, a finished row stays as it is. */
  lemma {:induction false} TerminalStays(r: Run, a: Assumptions, st: Step)
    requires Valid(r, a) && Enabled(End(r), st) && Respects(End(r), st, a)
    requires a.writesFresh && Terminal(End(r).row.status)
    ensures Next(End(r), st).row.status == End(r).row.status
  {
    TerminalLostExactly(r, a, st);
  }

  /** On chain a cancelled, settled or refunded job is closed: no step of anyone changes what stands there. */
  lemma {:induction false} ClosedChainStays(s: State, st: Step)
    requires Enabled(s, st)
    requires s.chain.status.OnCancelled? || s.chain.status.OnSettled? || s.chain.status.OnRefunded?
    ensures Next(s, st).chain == s.chain
  {
    hide NextAt;
    if OwnStep(st) {
      ChainMoves(s, s.pcs[st.c], st);
      ClosedChainMoves(s, s.pcs[st.c], st);
    }
  }

  lemma {:induction false} ClosedChainMoves(s: State, pc: Pc, st: Step)
    requires OwnStep(st) && EnabledAt(s, pc, st)
    requires s.chain.status.OnCancelled? || s.chain.status.OnSettled? || s.chain.status.OnRefunded?
    ensures NextAt(s, pc, st).chain == s.chain
  {
    hide ListedStatus;
    hide ListedPc;
  }

  // ── The snapshot a finished row names ─────────────────────────────────────

  /** The snapshot the row names bears its recorded verdict out. */
  predicate Agrees(s: State) {
    s.row.snapshot.Some? && s.row.accepted.Some? && Outcome(s, s.row.snapshot.value) == s.row.accepted
  }

  /** Attaching is the one write to the named snapshot, and it always writes. */
  lemma {:induction false} SnapshotMoves(s: State, st: Step)
    requires Enabled(s, st)
    ensures st.Attach? ==> st.c in s.pcs && s.pcs[st.c].Attaching? && Next(s, st).row.snapshot == Some(s.pcs[st.c].id)
    ensures !st.Attach? ==> Next(s, st).row.snapshot == s.row.snapshot
  {
    hide NextAt;
    if OwnStep(st) {
      RowMoves(s, s.pcs[st.c], st);
    }
  }

  lemma {:induction false} SnapshotChangesExactly(r: Run, a: Assumptions, st: Step)
    requires Valid(r, a) && Enabled(End(r), st)
    ensures Next(End(r), st).row.snapshot != End(r).row.snapshot
      <==> st.Attach? && End(r).row.snapshot != Some(End(r).pcs[st.c].id)
  {
    hide Next;
    hide Enabled;
    SnapshotMoves(End(r), st);
  }

  lemma {:induction false} OutcomeStays(s: State, s': State, id: SnapshotId)
    requires Extends(s, s') && id in s.snapshots
    ensures Outcome(s', id) == Outcome(s, id)
  {
  }

  /** A finished row's verdict and measurement are not written again with anything else. */
  lemma {:induction false} AcceptedMoves(s: State, st: Step)
    requires Inv(s) && Enabled(s, st)
    ensures st.RecordVerdict? ==>
      st.c in s.pcs && s.pcs[st.c].RecordingVerdict? && Next(s, st).row.accepted == Some(s.pcs[st.c].accepted)
    ensures st.RecordVerdict? && s.row.accepted.Some? ==> Next(s, st).row.accepted == s.row.accepted
    ensures !st.RecordVerdict? ==> Next(s, st).row.accepted == s.row.accepted
  {
    hide NextAt;
    if OwnStep(st) {
      assert PcOk(s, s.pcs[st.c]);
      RowMoves(s, s.pcs[st.c], st);
    }
  }

  lemma {:induction false} AttachingKnown(s: State, st: Step)
    requires Inv(s) && Enabled(s, st) && st.Attach?
    ensures st.c in s.pcs && s.pcs[st.c].Attaching? && s.pcs[st.c].id in s.snapshots
  {
    assert PcOk(s, s.pcs[st.c]);
  }

  /**
   A row with a verdict agrees with the snapshot it names after an Attach exactly
   when the attached measurement has the recorded outcome, and otherwise exactly
   when it agreed before.
   */
  lemma {:induction false} AgreementAfterExactly(r: Run, a: Assumptions, st: Step)
    requires Valid(r, a) && Enabled(End(r), st) && End(r).row.accepted.Some?
    ensures Agrees(Next(End(r), st)) <==>
      if st.Attach? then Outcome(End(r), End(r).pcs[st.c].id) == End(r).row.accepted else Agrees(End(r))
  {
    InvAlways(r, a);
    var s := End(r);
    hide End;
    hide Next;
    NextExtends(s, st);
    SnapshotMoves(s, st);
    AcceptedMoves(s, st);
    if st.Attach? {
      AttachingKnown(s, st);
      OutcomeStays(s, Next(s, st), s.pcs[st.c].id);
    } else if s.row.snapshot.Some? {
      OutcomeStays(s, Next(s, st), s.row.snapshot.value);
    }
  }

  /** When the verdict is written down, the row agrees with it exactly when the snapshot it names by then does. */
  lemma {:induction false} AgreementAtVerdictExactly(r: Run, a: Assumptions, st: Step)
    requires Valid(r, a) && Enabled(End(r), st) && st.RecordVerdict?
    ensures End(r).row.snapshot.Some?
    ensures Agrees(Next(End(r), st)) <==>
      Outcome(End(r), End(r).row.snapshot.value) == Some(End(r).pcs[st.c].accepted)
  {
    InvAlways(r, a);
    var s := End(r);
    hide End;
    hide Next;
    AcceptedMoves(s, st);
    assert PcOk(s, s.pcs[st.c]);
    NextExtends(s, st);
    SnapshotMoves(s, st);
    OutcomeStays(s, Next(s, st), s.row.snapshot.value);
  }

  /** The snapshot attached last in a run. */
  ghost function LastAttached(r: Run): Option<SnapshotId> {
    match r
    case Begin(_, _) => None
    case Then(prev, st) =>
      if st.Attach? && Enabled(End(prev), st) then Some(End(prev).pcs[st.c].id) else LastAttached(prev)
  }

  predicate VerdictLands(s: State, st: Step) {
    st.SendVerdict? && TakesVerdict(s.chain)
  }

  /** The snapshot behind the verdict that landed in a run. */
  ghost function JudgedIn(r: Run): Option<SnapshotId> {
    match r
    case Begin(_, _) => None
    case Then(prev, st) =>
      if Enabled(End(prev), st) && VerdictLands(End(prev), st) then Some(End(prev).pcs[st.c].id) else JudgedIn(prev)
  }

  ghost predicate History(s: State, last: Option<SnapshotId>, judged: Option<SnapshotId>) {
    && s.row.snapshot == last
    && (s.chain.verdicts != [] ==>
          judged.Some? && judged.value in s.snapshots && Outcome(s, judged.value) == Some(s.chain.verdicts[0]))
  }

  lemma {:induction false} VerdictMoves(s: State, st: Step)
    requires Inv(s) && Enabled(s, st)
    ensures VerdictLands(s, st) ==>
      var pc := s.pcs[st.c];
      pc.Pronouncing? && pc.id in s.snapshots && Outcome(s, pc.id) == Some(pc.accepted)
      && Next(s, st).chain.verdicts == [pc.accepted]
    ensures !VerdictLands(s, st) ==> Next(s, st).chain.verdicts == s.chain.verdicts
  {
    hide NextAt;
    if OwnStep(st) {
      assert PcOk(s, s.pcs[st.c]);
      ChainMoves(s, s.pcs[st.c], st);
      SendsVerdict(s, s.pcs[st.c], st);
    }
  }

  lemma {:induction false} SendsVerdict(s: State, pc: Pc, st: Step)
    requires OwnStep(st) && EnabledAt(s, pc, st)
    ensures st.SendVerdict? ==> pc.Pronouncing?
    ensures VerdictLands(s, st) ==> NextAt(s, pc, st).chain == WithVerdict(s.chain, pc.accepted)
  {
  }

  lemma {:induction false} HistoryKept(s: State, st: Step, last: Option<SnapshotId>, judged: Option<SnapshotId>)
    requires Inv(s) && Enabled(s, st) && History(s, last, judged)
    ensures History(Next(s, st),
                    if st.Attach? then Some(s.pcs[st.c].id) else last,
                    if VerdictLands(s, st) then Some(s.pcs[st.c].id) else judged)
  {
    SnapshotMoves(s, st);
    VerdictMoves(s, st);
    NextExtends(s, st);
    hide Next;
    hide Enabled;
    hide Inv;
    if VerdictLands(s, st) {
      OutcomeStays(s, Next(s, st), s.pcs[st.c].id);
    } else if s.chain.verdicts != [] {
      OutcomeStays(s, Next(s, st), judged.value);
    }
  }

  lemma {:induction false} HistoryAlways(r: Run, a: Assumptions)
    requires Valid(r, a)
    ensures Inv(End(r)) && History(End(r), LastAttached(r), JudgedIn(r))
  {
    InvAlways(r, a);
    match r
    case Begin(_, _) =>
    case Then(prev, st) =>
      hide Next;
      hide Inv;
      hide History;
      hide Respects;
      HistoryAlways(prev, a);
      HistoryKept(End(prev), st, LastAttached(prev), JudgedIn(prev));
  }

  /**
   In every run: a finished row names the snapshot attached last, its verdict is
   the outcome of the snapshot that was judged, and the two bear each other out
   exactly when those two measurements have one outcome.
   */
  lemma {:induction false} FinishedRowAgreesExactly(r: Run, a: Assumptions)
    requires Valid(r, a) && Terminal(End(r).row.status)
    ensures LastAttached(r).Some? && JudgedIn(r).Some?
    ensures End(r).row.snapshot == LastAttached(r)
    ensures End(r).row.accepted == Outcome(End(r), JudgedIn(r).value)
    ensures Agrees(End(r)) <==> Outcome(End(r), LastAttached(r).value) == Outcome(End(r), JudgedIn(r).value)
  {
    HistoryAlways(r, a);
    hide End;
    hide LastAttached;
    hide JudgedIn;
  }

  // ── One verification at a time ────────────────────────────────────────────

  ghost predicate OneWorker(s: State) {
    && (forall c, d :: c in s.pcs && d in s.pcs && Verifying(s.pcs[c]) && Verifying(s.pcs[d]) ==> c == d)
    && (forall c :: c in s.pcs && Verifying(s.pcs[c]) ==> s.row.snapshot.None? && s.row.claimedAt.Some?)
  }

  lemma {:induction false} VerifyingMoves(s: State, pc: Pc, st: Step)
    requires OwnStep(st) && EnabledAt(s, pc, st)
    ensures Verifying(NextAt(s, pc, st).pcs[st.c]) ==>
      (Verifying(pc) && !st.Attach? && !st.FailVerification?)
      || (st.ClaimVerification? && Claimable(s.row, st.now))
    ensures st.Attach? || st.FailVerification? ==> Verifying(pc)
    ensures st.ClaimVerification? ==> pc.Claiming?
  {
    if st.List? {
      ListingFrame(s.row.status, s.chain, st.act);
    }
    hide ListedStatus;
    hide ListedChain;
    hide ListedPc;
  }

  predicate ClaimsNow(s: State, st: Step) {
    st.ClaimVerification? && Claimable(s.row, st.now)
  }

  lemma {:induction false} WorkerWas(s: State, st: Step, c: Process)
    requires Enabled(s, st) && c in s.pcs && c in Next(s, st).pcs && Verifying(Next(s, st).pcs[c])
    ensures Verifying(s.pcs[c]) || (ClaimsNow(s, st) && st.c == c)
    ensures st.Attach? ==> st.c != c && st.c in s.pcs && Verifying(s.pcs[st.c])
  {
    hide NextAt;
    MovesOnly(s, st, c);
    if OwnStep(st) {
      VerifyingMoves(s, s.pcs[st.c], st);
    }
  }

  lemma {:induction false} ClaimStands(s: State, st: Step)
    requires Enabled(s, st) && !st.Attach?
    ensures Next(s, st).row.snapshot == s.row.snapshot
    ensures s.row.claimedAt.Some? || ClaimsNow(s, st) ==> Next(s, st).row.claimedAt.Some?
  {
    hide NextAt;
    if OwnStep(st) {
      RowMoves(s, s.pcs[st.c], st);
    }
  }

  lemma {:induction false} OneWorkerKept(s: State, st: Step)
    requires OneWorker(s) && Enabled(s, st) && LeaseHonoured(s, st)
    ensures OneWorker(Next(s, st))
  {
    var s' := Next(s, st);
    MovesOnly(s, st, 0);
    forall c | c in s'.pcs && Verifying(s'.pcs[c])
      ensures s'.row.snapshot.None? && s'.row.claimedAt.Some?
      ensures forall d :: d in s'.pcs && Verifying(s'.pcs[d]) ==> c == d
    {
      hide Next;
      hide Enabled;
      WorkerWas(s, st, c);
      if !st.Attach? {
        ClaimStands(s, st);
      }
      forall d | d in s'.pcs && Verifying(s'.pcs[d])
        ensures c == d
      {
        WorkerWas(s, st, d);
      }
    }
  }

  /** The row's snapshot, once attached, is attached for good. */
  lemma {:induction false} AttachesOnce(s: State, st: Step)
    requires OneWorker(s) && Enabled(s, st)
    ensures st.Attach? ==> s.row.snapshot.None?
  {
    hide NextAt;
    if OwnStep(st) {
      VerifyingMoves(s, s.pcs[st.c], st);
    }
  }

  lemma {:induction false} OneWorkerAlways(r: Run, a: Assumptions)
    requires Valid(r, a) && a.leaseHonoured
    ensures OneWorker(End(r))
  {
    match r
    case Begin(_, _) =>
    case Then(prev, st) =>
      hide Next;
      OneWorkerAlways(prev, a);
      OneWorkerKept(End(prev), st);
  }

  /** Where no live verification loses its claim, the weaker assumption holds for want of a second Attach. */
  lemma {:induction false} LeaseRepeats(r: Run, a: Assumptions)
    requires Valid(r, a) && a.leaseHonoured
    ensures Valid(r, a.(outcomesRepeat := true))
  {
    match r
    case Begin(_, _) =>
    case Then(prev, st) =>
      hide Next;
      hide OneWorker;
      hide LeaseHonoured;
      LeaseRepeats(prev, a);
      OneWorkerAlways(prev, a);
      AttachesOnce(End(prev), st);
  }

  // ── Outcomes that repeat ──────────────────────────────────────────────────

  /** What verifyAndSettle is judging has the outcome of the snapshot the row names. */
  predicate JudgesLikeRow(s: State, pc: Pc) {
    pc.Loading? || pc.Deciding? || pc.Pronouncing? || pc.RecordingVerdict? ==>
      s.row.snapshot.Some? && Outcome(s, pc.id) == Outcome(s, s.row.snapshot.value)
  }

  ghost predicate SameOutcome(s: State) {
    && (forall c :: c in s.pcs ==> JudgesLikeRow(s, s.pcs[c]))
    && (s.chain.verdicts != [] ==>
          s.row.snapshot.Some? && Outcome(s, s.row.snapshot.value) == Some(s.chain.verdicts[0]))
  }

  lemma {:induction false} RowOutcomeStays(s: State, st: Step)
    requires Inv(s) && Enabled(s, st) && OutcomesRepeat(s, st) && s.row.snapshot.Some?
    ensures Next(s, st).row.snapshot.Some?
    ensures Outcome(Next(s, st), Next(s, st).row.snapshot.value) == Outcome(s, s.row.snapshot.value)
  {
    NextExtends(s, st);
    SnapshotMoves(s, st);
    hide Next;
    if st.Attach? {
      AttachingKnown(s, st);
      OutcomeStays(s, Next(s, st), s.pcs[st.c].id);
    } else {
      OutcomeStays(s, Next(s, st), s.row.snapshot.value);
    }
  }

  lemma {:induction false} MoverJudges(s: State, pc: Pc, st: Step)
    requires OwnStep(st) && EnabledAt(s, pc, st) && PcOk(s, pc)
    ensures
      var pc' := NextAt(s, pc, st).pcs[st.c];
      pc'.Loading? || pc'.Deciding? || pc'.Pronouncing? || pc'.RecordingVerdict? ==>
        if st.ReadForVerdict? then s.row.snapshot == Some(pc'.id)
        else (pc.Loading? || pc.Deciding? || pc.Pronouncing?) && pc'.id == pc.id
  {
    if st.List? {
      ListingFrame(s.row.status, s.chain, st.act);
    }
    hide ListedStatus;
    hide ListedChain;
    hide ListedPc;
  }

  lemma {:induction false} JudgeKnown(s: State, pc: Pc)
    requires PcOk(s, pc) && (pc.Loading? || pc.Deciding? || pc.Pronouncing? || pc.RecordingVerdict?)
    ensures pc.id in s.snapshots && s.row.snapshot.Some?
  {
  }

  lemma {:induction false} StandingJudges(s: State, st: Step, pc: Pc)
    requires Inv(s) && Enabled(s, st) && OutcomesRepeat(s, st) && PcOk(s, pc) && JudgesLikeRow(s, pc)
    ensures JudgesLikeRow(Next(s, st), pc)
  {
    hide Next;
    if pc.Loading? || pc.Deciding? || pc.Pronouncing? || pc.RecordingVerdict? {
      JudgeKnown(s, pc);
      RowOutcomeStays(s, st);
      NextExtends(s, st);
      OutcomeStays(s, Next(s, st), pc.id);
    }
  }

  lemma {:induction false} MovingJudges(s: State, st: Step)
    requires Inv(s) && Enabled(s, st) && OutcomesRepeat(s, st) && OwnStep(st) && JudgesLikeRow(s, s.pcs[st.c])
    ensures JudgesLikeRow(Next(s, st), Next(s, st).pcs[st.c])
  {
    var pc := s.pcs[st.c];
    assert PcOk(s, pc);
    hide NextAt;
    hide EnabledAt;
    hide RowOk;
    MoverJudges(s, pc, st);
    var pc' := Next(s, st).pcs[st.c];
    if pc'.Loading? || pc'.Deciding? || pc'.Pronouncing? || pc'.RecordingVerdict? {
      NextExtends(s, st);
      if st.ReadForVerdict? {
        RowOutcomeStays(s, st);
        NamedKnown(s);
        OutcomeStays(s, Next(s, st), pc'.id);
      } else {
        StandingJudges(s, st, pc);
      }
    }
  }

  lemma {:induction false} NamedKnown(s: State)
    requires Inv(s) && s.row.snapshot.Some?
    ensures s.row.snapshot.value in s.snapshots
  {
  }

  lemma {:induction false} SameOutcomeKept(s: State, st: Step)
    requires Inv(s) && SameOutcome(s) && Enabled(s, st) && OutcomesRepeat(s, st)
    ensures SameOutcome(Next(s, st))
  {
    forall c | c in Next(s, st).pcs
      ensures JudgesLikeRow(Next(s, st), Next(s, st).pcs[c])
    {
      MovesOnly(s, st, c);
      assert JudgesLikeRow(s, s.pcs[c]) && PcOk(s, s.pcs[c]);
      hide Next;
      if OwnStep(st) && st.c == c {
        MovingJudges(s, st);
      } else {
        StandingJudges(s, st, s.pcs[c]);
      }
    }
    SameVerdictKept(s, st);
  }

  lemma {:induction false} SameVerdictKept(s: State, st: Step)
    requires Inv(s) && SameOutcome(s) && Enabled(s, st) && OutcomesRepeat(s, st)
    ensures Next(s, st).chain.verdicts != [] ==>
      Next(s, st).row.snapshot.Some?
      && Outcome(Next(s, st), Next(s, st).row.snapshot.value) == Some(Next(s, st).chain.verdicts[0])
  {
    VerdictMoves(s, st);
    if VerdictLands(s, st) {
      assert JudgesLikeRow(s, s.pcs[st.c]);
    }
    hide Next;
    if Next(s, st).chain.verdicts != [] {
      RowOutcomeStays(s, st);
    }
  }

  lemma {:induction false} SameOutcomeAlways(r: Run, a: Assumptions)
    requires Valid(r, a) && a.outcomesRepeat
    ensures Inv(End(r)) && SameOutcome(End(r))
  {
    InvAlways(r, a);
    match r
    case Begin(_, _) =>
    case Then(prev, st) =>
      hide Next;
      hide Inv;
      hide SameOutcome;
      hide LeaseHonoured;
      hide OutcomesRepeat;
      SameOutcomeAlways(prev, a);
      SameOutcomeKept(End(prev), st);
  }

  /**
   If a measurement that replaces another has its outcome, and so in particular if
   no live verification loses its claim, a finished row names a VERIFICATION
   snapshot of the committed artifact that bears its verdict out.
   */
  lemma {:induction false} SettledSnapshotMeetsTarget(r: Run, a: Assumptions)
    requires Valid(r, a) && (a.outcomesRepeat || a.leaseHonoured) && Terminal(End(r).row.status)
    ensures Agrees(End(r))
    ensures
      var s := End(r);
      && s.row.snapshot.Some? && s.row.snapshot.value in s.snapshots
      && var snapshot := s.snapshots[s.row.snapshot.value];
      && snapshot.kind.VERIFICATION? && snapshot.digest == s.chain.deliverable && snapshot.measured.Some?
      && MeetsTarget(snapshot.measured.value, s.target) == Some(s.row.status.SETTLED?)
  {
    var b := a.(outcomesRepeat := true);
    if a.leaseHonoured {
      LeaseRepeats(r, a);
    }
    assert Valid(r, b);
    SameOutcomeAlways(r, b);
    hide Valid;
    hide End;
  }
}
