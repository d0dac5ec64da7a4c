/**
 ensureIdentity as interleaved steps: any number of concurrent callers over one
 row and one chain, where every await is a point at which a caller may be
 overtaken, throw or crash. The chain mines and drops transactions on its own.
 */
module Registration {
  import opened Prelude
  import opened IdentityRow

  type Caller = nat

  datatype Tx = Pending | Mined(id: TokenId) | Dead

  /** Whether the wallet is bound on the resume path or right after registering. */
  datatype Origin = Resume | AfterRegister

  /** Where a caller stands, with the locals it still needs. */
  datatype Pc =
    | Start
    | Create
    | Lookup(seen: Row)
    | Adopting(seen: Row, hash: TxHash, id: TokenId)
    | Reread
    | Claiming(seen: Row)
    | Publish(seen: Row)
    | Ready
    | Sent(hash: TxHash)
    | Waiting(hash: TxHash)
    | HasReceipt(hash: TxHash, id: TokenId)
    | Binding(origin: Origin)
    | BindSent(origin: Origin)
    | BindFailed
    | Caught
    | Failing(registered: bool)
    | Stopped

  datatype State = State(row: Row, created: bool, txs: map<TxHash, Tx>, pcs: map<Caller, Pc>)

  datatype Step =
    | FindRow(c: Caller)
    | CreateRow(c: Caller)
    | ReceiptFound(c: Caller)
    | ReceiptMissing(c: Caller)
    | Adopt(c: Caller)
    | AdoptionLost(c: Caller)
    | RereadRow(c: Caller)
    | Claim(c: Caller, now: int)
    | PublishCard(c: Caller)
    | Broadcast(c: Caller, h: TxHash)
    | RecordHash(c: Caller)
    | ReadReceipt(c: Caller)
    | RecordRegistration(c: Caller)
    | SendBinding(c: Caller)
    | RecordLink(c: Caller)
    | Throw(c: Caller)
    | ReadAfterThrow(c: Caller)
    | RecordFailure(c: Caller)
    | Crash(c: Caller)
    | Mine(h: TxHash, id: TokenId)
    | Drop(h: TxHash)

  function Init(callers: set<Caller>): State {
    State(NEW_ROW, false, map[], map c | c in callers :: Start)
  }

  /** What ensureIdentity does next with the row it read. */
  function Route(r: Row): Pc {
    match PlanFor(r)
    case Finished => Stopped
    case BindWallet => Binding(Resume)
    case LookUp(_) => Lookup(r)
    case TryClaim => Claiming(r)
  }

  /** Where an exception thrown at this point is caught, if anywhere. */
  function Handler(pc: Pc): Pc {
    match pc
    case Publish(_) => Caught
    case Ready => Caught
    case Sent(_) => Caught
    case Waiting(_) => Caught
    case HasReceipt(_, _) => Caught
    case Binding(o) => if o.Resume? then BindFailed else Caught
    case BindSent(o) => if o.Resume? then BindFailed else Caught
    case _ => Stopped
  }

  predicate Enabled(s: State, st: Step) {
    match st
    case FindRow(c) => c in s.pcs && s.pcs[c].Start?
    case CreateRow(c) => c in s.pcs && s.pcs[c].Create?
    case ReceiptFound(c) =>
      && c in s.pcs && s.pcs[c].Lookup? && s.pcs[c].seen.txHash.Some?
      && s.pcs[c].seen.txHash.value in s.txs && s.txs[s.pcs[c].seen.txHash.value].Mined?
    case ReceiptMissing(c) => c in s.pcs && s.pcs[c].Lookup? && s.pcs[c].seen.txHash.Some?
    case Adopt(c) => c in s.pcs && s.pcs[c].Adopting?
    case AdoptionLost(c) => c in s.pcs && s.pcs[c].Adopting?
    case RereadRow(c) => c in s.pcs && s.pcs[c].Reread?
    case Claim(c, _) => c in s.pcs && s.pcs[c].Claiming?
    case PublishCard(c) => c in s.pcs && s.pcs[c].Publish?
    case Broadcast(c, h) => c in s.pcs && s.pcs[c].Ready? && h !in s.txs
    case RecordHash(c) => c in s.pcs && s.pcs[c].Sent?
    case ReadReceipt(c) =>
      c in s.pcs && s.pcs[c].Waiting? && s.pcs[c].hash in s.txs && s.txs[s.pcs[c].hash].Mined?
    case RecordRegistration(c) => c in s.pcs && s.pcs[c].HasReceipt?
    case SendBinding(c) => c in s.pcs && s.pcs[c].Binding? && s.row.tokenId.Some?
    case RecordLink(c) => c in s.pcs && s.pcs[c].BindSent?
    case Throw(c) => c in s.pcs && !s.pcs[c].Stopped? && !s.pcs[c].Lookup? && !s.pcs[c].Adopting?
    case ReadAfterThrow(c) => c in s.pcs && s.pcs[c].Caught?
    case RecordFailure(c) => c in s.pcs && (s.pcs[c].Failing? || s.pcs[c].BindFailed?)
    case Crash(c) => c in s.pcs
    case Mine(h, _) => h in s.txs && s.txs[h].Pending?
    case Drop(h) => h in s.txs && s.txs[h].Pending?
  }

  function Move(s: State, c: Caller, pc: Pc): State {
    s.(pcs := s.pcs[c := pc])
  }

  function Write(s: State, c: Caller, row: Row, pc: Pc): State {
    s.(row := row, pcs := s.pcs[c := pc])
  }

  function Next(s: State, st: Step): State
    requires Enabled(s, st)
  {
    match st
    case FindRow(c) => Move(s, c, if s.created then Route(s.row) else Create)
    // A lost race on the unique agentId reads the winner's row; either way a row exists.
    case CreateRow(c) => Move(s, c, Route(s.row)).(created := true)
    case ReceiptFound(c) =>
      var h := s.pcs[c].seen.txHash.value;
      Move(s, c, Adopting(s.pcs[c].seen, h, s.txs[h].id))
    case ReceiptMissing(c) => Move(s, c, Claiming(s.pcs[c].seen))
    case Adopt(c) => Write(s, c, Registered(s.row, s.pcs[c].hash, s.pcs[c].id), Reread)
    case AdoptionLost(c) => Move(s, c, Claiming(s.pcs[c].seen))
    case RereadRow(c) => Move(s, c, if s.row.tokenId.Some? then Binding(Resume) else Claiming(s.row))
    case Claim(c, now) =>
      if Claimable(s.row, now) then Write(s, c, Claimed(s.row, now), Publish(s.pcs[c].seen)) else Move(s, c, Stopped)
    case PublishCard(c) => Write(s, c, if s.pcs[c].seen.card then s.row else WithCard(s.row), Ready)
    case Broadcast(c, h) => Move(s, c, Sent(h)).(txs := s.txs[h := Pending])
    case RecordHash(c) => Write(s, c, WithHash(s.row, s.pcs[c].hash), Waiting(s.pcs[c].hash))
    case ReadReceipt(c) => Move(s, c, HasReceipt(s.pcs[c].hash, s.txs[s.pcs[c].hash].id))
    case RecordRegistration(c) =>
      Write(s, c, Registered(s.row, s.pcs[c].hash, s.pcs[c].id), Binding(AfterRegister))
    case SendBinding(c) => Move(s, c, BindSent(s.pcs[c].origin))
    case RecordLink(c) => Write(s, c, Linked(s.row), Stopped)
    case Throw(c) => Move(s, c, Handler(s.pcs[c]))
    case ReadAfterThrow(c) => Move(s, c, Failing(s.row.tokenId.Some?))
    case RecordFailure(c) =>
      var registered := s.pcs[c].BindFailed? || s.pcs[c].registered;
      Write(s, c, Failed(s.row, if registered then REGISTERED else FAILED), Stopped)
    case Crash(c) => Move(s, c, Stopped)
    case Mine(h, id) => s.(txs := s.txs[h := Mined(id)])
    case Drop(h) => s.(txs := s.txs[h := Dead])
  }

  // ── The four assumptions ──────────────────────────────────────────────────

  /** Callers between a successful claim and the end of its handling. */
  predicate Holds(pc: Pc) {
    || pc.Publish? || pc.Ready? || pc.Sent? || pc.Waiting? || pc.HasReceipt?
    || pc.Caught? || pc.Failing? || pc == Binding(AfterRegister) || pc == BindSent(AfterRegister)
  }

  datatype Assumptions = Assumptions(atomicHash: bool, definitiveLookup: bool, holderStopped: bool, freshRead: bool)

  const ALL := Assumptions(true, true, true, true)
  const NONE := Assumptions(false, false, false, false)

  /** Broadcasting and persisting the hash are one step: nothing happens in between. */
  ghost predicate AtomicHash(s: State, st: Step) {
    forall c :: c in s.pcs && s.pcs[c].Sent? ==> st == RecordHash(c)
  }

  /** A lookup answers "no registration" only for a transaction that never lands, and adoption is not lost. */
  predicate DefinitiveLookup(s: State, st: Step)
    requires Enabled(s, st)
  {
    && !st.AdoptionLost?
    && (st.ReceiptMissing? ==>
          s.pcs[st.c].seen.txHash.value in s.txs && s.txs[s.pcs[st.c].seen.txHash.value].Dead?)
  }

  /** A claim is retaken as stale only after its holder has stopped. */
  ghost predicate HolderStopped(s: State, st: Step) {
    st.Claim? && Claimable(s.row, st.now) && s.row.status.REGISTERING? ==>
      forall d :: d in s.pcs ==> !Holds(s.pcs[d])
  }

  /** No caller claims on a row read older than the latest hash write. */
  predicate FreshRead(s: State, st: Step)
    requires Enabled(s, st)
  {
    st.Claim? && Claimable(s.row, st.now) ==> s.pcs[st.c].seen.txHash == s.row.txHash
  }

  ghost predicate Respects(s: State, st: Step, a: Assumptions)
    requires Enabled(s, st)
  {
    && (a.atomicHash ==> AtomicHash(s, st))
    && (a.definitiveLookup ==> DefinitiveLookup(s, st))
    && (a.holderStopped ==> HolderStopped(s, st))
    && (a.freshRead ==> FreshRead(s, st))
  }

  // ── Runs ──────────────────────────────────────────────────────────────────

  datatype Run = Begin(callers: set<Caller>) | Then(prev: Run, step: Step)

  ghost function End(r: Run): State {
    match r
    case Begin(callers) => Init(callers)
    case Then(prev, st) => if Enabled(End(prev), st) then Next(End(prev), st) else End(prev)
  }

  ghost predicate Valid(r: Run, a: Assumptions) {
    match r
    case Begin(_) => true
    case Then(prev, st) => Valid(prev, a) && Enabled(End(prev), st) && Respects(End(prev), st, a)
  }

  /** The transactions that did mint an identity. */
  ghost function Minted(s: State): set<TxHash> {
    set h | h in s.txs && s.txs[h].Mined?
  }

  // ── At most one mint ──────────────────────────────────────────────────────

  predicate Live(s: State, h: TxHash) {
    h in s.txs && !s.txs[h].Dead?
  }

  ghost predicate NoneLive(s: State) {
    forall h :: !Live(s, h)
  }

  /** What each caller's program point says about the row and the chain. */
  ghost predicate CallerOk(s: State, pc: Pc) {
    match pc
    case Claiming(seen) =>
      seen.txHash.Some? ==> seen.txHash.value in s.txs && s.txs[seen.txHash.value].Dead?
    case Adopting(_, h, id) => h in s.txs && s.txs[h] == Mined(id)
    case HasReceipt(h, id) => h in s.txs && s.txs[h] == Mined(id)
    case Publish(_) => NoneLive(s)
    case Ready => NoneLive(s)
    case Sent(h) => Live(s, h)
    case Reread => s.row.tokenId.Some?
    case Binding(_) => s.row.tokenId.Some?
    case BindSent(_) => s.row.tokenId.Some?
    case BindFailed => s.row.tokenId.Some?
    case _ => true
  }

  /** One transaction at most is alive, and it is the recorded one or one being recorded. */
  ghost predicate OneLive(s: State) {
    && (forall h, k :: Live(s, h) && Live(s, k) ==> h == k)
    && (forall h: TxHash :: Live(s, h) ==> s.row.txHash == Some(h) || exists c :: c in s.pcs && s.pcs[c] == Sent(h))
  }

  /** A recorded identity is the one the recorded transaction minted. */
  ghost predicate TokenBacked(s: State) {
    s.row.tokenId.Some? ==>
      s.row.txHash.Some? && s.row.txHash.value in s.txs && s.txs[s.row.txHash.value] == Mined(s.row.tokenId.value)
  }

  /** Until an identity is recorded the claim has one holder, and the row says so. */
  ghost predicate Exclusive(s: State) {
    s.row.tokenId.None? ==>
      && (forall c, d :: c in s.pcs && d in s.pcs && Holds(s.pcs[c]) && Holds(s.pcs[d]) ==> c == d)
      && (forall c :: c in s.pcs && Holds(s.pcs[c]) ==> s.row.status.REGISTERING?)
  }

  ghost predicate CallersOk(s: State) {
    forall c :: c in s.pcs ==> CallerOk(s, s.pcs[c])
  }

  ghost predicate Inv(s: State) {
    OneLive(s) && TokenBacked(s) && Exclusive(s) && CallersOk(s)
  }

  /** Nothing comes alive but what a Broadcast sends. */
  lemma {:induction false} LiveBefore(s: State, st: Step, h: TxHash)
    requires Enabled(s, st) && Live(Next(s, st), h)
    ensures Live(s, h) || (st.Broadcast? && h == st.h)
  {
  }

  lemma {:induction false} OneLiveKept(s: State, st: Step)
    requires Inv(s) && Enabled(s, st) && Respects(s, st, ALL)
    ensures OneLive(Next(s, st))
  {
    var s' := Next(s, st);
    forall h, k | Live(s', h) && Live(s', k)
      ensures h == k
    {
      LiveBefore(s, st, h);
      LiveBefore(s, st, k);
    }
    forall h: TxHash | Live(s', h)
      ensures s'.row.txHash == Some(h) || exists c :: c in s'.pcs && s'.pcs[c] == Sent(h)
    {
      LiveBefore(s, st, h);
      if st.Broadcast? {
        assert s'.pcs[st.c] == Sent(st.h);
      } else if s.row.txHash != Some(h) {
        var c :| c in s.pcs && s.pcs[c] == Sent(h);
        assert st == RecordHash(c);
      } else if st.RecordHash? || st.Adopt? || st.RecordRegistration? {
        assert CallerOk(s, s.pcs[st.c]);
        assert Live(s, s.pcs[st.c].hash);
      }
    }
  }

  lemma {:induction false} TokenBackedKept(s: State, st: Step)
    requires Inv(s) && Enabled(s, st) && Respects(s, st, ALL)
    ensures TokenBacked(Next(s, st))
  {
    if st.RecordHash? {
      assert CallerOk(s, s.pcs[st.c]) && Live(s, s.pcs[st.c].hash);
      assert s.row.tokenId.Some? ==> Live(s, s.row.txHash.value);
    } else if st.Adopt? || st.RecordRegistration? {
      assert CallerOk(s, s.pcs[st.c]);
    }
  }

  predicate ClaimsNow(s: State, st: Step) {
    st.Claim? && Claimable(s.row, st.now)
  }

  lemma {:induction false} NotErased(s: State, st: Step)
    requires Enabled(s, st) && Next(s, st).row.tokenId.None?
    ensures s.row.tokenId.None?
  {
  }

  lemma {:induction false} HolderWas(s: State, st: Step, c: Caller)
    requires Enabled(s, st) && c in s.pcs && Holds(Next(s, st).pcs[c])
    ensures Holds(s.pcs[c]) || (ClaimsNow(s, st) && st.c == c)
  {
  }

  lemma {:induction false} StatusWas(s: State, st: Step)
    requires Enabled(s, st) && CallersOk(s) && Next(s, st).row.tokenId.None?
    ensures Next(s, st).row.status == (if ClaimsNow(s, st) then REGISTERING else s.row.status)
      || (st.RecordFailure? && Holds(s.pcs[st.c]) && !Holds(Next(s, st).pcs[st.c]))
  {
    if !st.Mine? && !st.Drop? {
      assert CallerOk(s, s.pcs[st.c]);
    }
  }

  /** Only a successful claim makes a holder, and a recorded identity is never erased. */
  lemma {:induction false} HoldersBefore(s: State, st: Step, c: Caller)
    requires Enabled(s, st) && CallersOk(s) && c in s.pcs
    requires Next(s, st).row.tokenId.None? && Holds(Next(s, st).pcs[c])
    ensures s.row.tokenId.None?
    ensures Holds(s.pcs[c]) || (ClaimsNow(s, st) && st.c == c)
    ensures Next(s, st).row.status == (if ClaimsNow(s, st) then REGISTERING else s.row.status)
      || (st.RecordFailure? && Holds(s.pcs[st.c]) && !Holds(Next(s, st).pcs[st.c]))
  {
    NotErased(s, st);
    HolderWas(s, st, c);
    StatusWas(s, st);
    hide Next;
  }

  lemma {:induction false} ExclusiveKept(s: State, st: Step)
    requires Inv(s) && Enabled(s, st) && Respects(s, st, ALL)
    ensures Exclusive(Next(s, st))
  {
    var s' := Next(s, st);
    hide Next;
    hide CallersOk;
    hide OneLive;
    if s'.row.tokenId.None? {
      forall c | c in s'.pcs && Holds(s'.pcs[c])
        ensures s'.row.status.REGISTERING?
        ensures forall d :: d in s'.pcs && Holds(s'.pcs[d]) ==> c == d
      {
        HoldersBefore(s, st, c);
        forall d | d in s'.pcs && Holds(s'.pcs[d])
          ensures c == d
        {
          HoldersBefore(s, st, d);
        }
      }
    }
  }

  /** A successful claim finds no transaction alive: the caller has seen the last one fail. */
  lemma {:induction false} ClaimFindsNoneLive(s: State, st: Step)
    requires Inv(s) && Enabled(s, st) && Respects(s, st, ALL)
    requires ClaimsNow(s, st)
    ensures NoneLive(s)
  {
    assert CallerOk(s, s.pcs[st.c]);
    forall h: TxHash
      ensures !Live(s, h)
    {
    }
  }

  predicate Entitled(pc: Pc) {
    pc.Publish? || pc.Ready?
  }

  /** A caller is entitled to broadcast through a successful claim and until it broadcasts. */
  lemma {:induction false} EntitledBefore(s: State, st: Step, c: Caller)
    requires Enabled(s, st) && c in s.pcs && Entitled(Next(s, st).pcs[c])
    ensures Entitled(s.pcs[c]) || (ClaimsNow(s, st) && st.c == c)
    ensures st.Broadcast? ==> st.c != c
  {
  }

  /** A caller entitled to broadcast is alone and all past transactions are dead. */
  lemma {:induction false} EntitledAlone(s: State, c: Caller)
    requires Inv(s) && c in s.pcs && Entitled(s.pcs[c])
    ensures NoneLive(s)
    ensures forall d :: d in s.pcs && Holds(s.pcs[d]) ==> d == c
  {
    assert CallerOk(s, s.pcs[c]) && Holds(s.pcs[c]);
    assert s.row.tokenId.Some? ==> Live(s, s.row.txHash.value);
  }

  lemma {:induction false} NoneLiveNext(s: State, st: Step)
    requires NoneLive(s) && Enabled(s, st) && !st.Broadcast?
    ensures NoneLive(Next(s, st))
  {
    forall h: TxHash
      ensures !Live(Next(s, st), h)
    {
      if Live(Next(s, st), h) {
        LiveBefore(s, st, h);
      }
    }
  }

  lemma {:induction false} NoneLiveKept(s: State, st: Step, c: Caller)
    requires Inv(s) && Enabled(s, st) && Respects(s, st, ALL) && c in s.pcs
    requires Entitled(Next(s, st).pcs[c])
    ensures NoneLive(Next(s, st))
  {
    EntitledBefore(s, st, c);
    hide Next;
    if Entitled(s.pcs[c]) {
      EntitledAlone(s, c);
      assert st.Broadcast? ==> Holds(s.pcs[st.c]);
    } else {
      ClaimFindsNoneLive(s, st);
    }
    NoneLiveNext(s, st);
  }

  /** What a caller standing still relies on does not change under it. */
  lemma {:induction false} CallerOkStable(s: State, st: Step, pc: Pc)
    requires Enabled(s, st) && CallerOk(s, pc) && !Entitled(pc) && !pc.Sent?
    ensures CallerOk(Next(s, st), pc)
  {
  }

  /** The caller that moves arrives where its new point's facts hold. */
  lemma {:induction false} MoverOk(s: State, st: Step)
    requires Inv(s) && Enabled(s, st) && Respects(s, st, ALL) && !st.Mine? && !st.Drop?
    requires !Entitled(Next(s, st).pcs[st.c])
    ensures CallerOk(Next(s, st), Next(s, st).pcs[st.c])
  {
    hide OneLive;
    hide Exclusive;
    assert CallerOk(s, s.pcs[st.c]);
  }

  lemma {:induction false} MovesOnly(s: State, st: Step, c: Caller)
    requires Enabled(s, st) && c in s.pcs
    ensures Next(s, st).pcs.Keys == s.pcs.Keys
    ensures st.Mine? || st.Drop? || st.c != c ==> Next(s, st).pcs[c] == s.pcs[c]
  {
  }

  lemma {:induction false} CallerOkKept(s: State, st: Step, c: Caller)
    requires Inv(s) && Enabled(s, st) && Respects(s, st, ALL) && c in s.pcs
    ensures c in Next(s, st).pcs && CallerOk(Next(s, st), Next(s, st).pcs[c])
  {
    hide Next;
    MovesOnly(s, st, c);
    assert CallerOk(s, s.pcs[c]);
    if Entitled(Next(s, st).pcs[c]) {
      NoneLiveKept(s, st, c);
    } else if !st.Mine? && !st.Drop? && st.c == c {
      MoverOk(s, st);
    } else {
      CallerOkStable(s, st, s.pcs[c]);
    }
  }

  lemma {:induction false} CallersOkKept(s: State, st: Step)
    requires Inv(s) && Enabled(s, st) && Respects(s, st, ALL)
    ensures CallersOk(Next(s, st))
  {
    forall c | c in Next(s, st).pcs
      ensures CallerOk(Next(s, st), Next(s, st).pcs[c])
    {
      MovesBack(s, st, c);
      CallerOkKept(s, st, c);
    }
  }

  lemma {:induction false} MovesBack(s: State, st: Step, c: Caller)
    requires Enabled(s, st) && c in Next(s, st).pcs
    ensures c in s.pcs
  {
  }

  lemma {:induction false} InvKept(s: State, st: Step)
    requires Inv(s) && Enabled(s, st) && Respects(s, st, ALL)
    ensures Inv(Next(s, st))
  {
    OneLiveKept(s, st);
    TokenBackedKept(s, st);
    ExclusiveKept(s, st);
    CallersOkKept(s, st);
  }

  lemma {:induction false} InvAlways(r: Run)
    requires Valid(r, ALL)
    ensures Inv(End(r))
  {
    match r
    case Begin(callers) =>
    case Then(prev, st) =>
      InvAlways(prev);
      InvKept(End(prev), st);
  }

  /**
   However many callers are interleaved, retried, crashed or failed, at most one
   register() transaction of the agent is ever minted or could still be, and an
   identity the row records is the one that transaction minted.
   */
  lemma {:induction false} AtMostOneMint(r: Run)
    requires Valid(r, ALL)
    ensures forall h, k :: Live(End(r), h) && Live(End(r), k) ==> h == k
    ensures |Minted(End(r))| <= 1
    ensures End(r).row.tokenId.Some? ==>
      End(r).row.txHash.Some? && Minted(End(r)) == {End(r).row.txHash.value}
      && End(r).txs[End(r).row.txHash.value].id == End(r).row.tokenId.value
  {
    InvAlways(r);
    hide End;
    MintedAtMostOne(End(r));
  }

  lemma {:induction false} MintedAtMostOne(s: State)
    requires OneLive(s) && TokenBacked(s)
    ensures |Minted(s)| <= 1
    ensures s.row.tokenId.Some? ==> Minted(s) == {s.row.txHash.value}
  {
    assert forall h, k :: h in Minted(s) && k in Minted(s) ==> Live(s, h) && Live(s, k);
    AtMostOneElement(Minted(s));
    if s.row.tokenId.Some? {
      assert Live(s, s.row.txHash.value) && s.row.txHash.value in Minted(s);
      assert forall k :: k in Minted(s) ==> Live(s, k);
    }
  }

  lemma {:induction false} AtMostOneElement(xs: set<TxHash>)
    requires forall x, y :: x in xs && y in xs ==> x == y
    ensures |xs| <= 1
  {
    if x :| x in xs {
      assert xs == {x};
    }
  }
}
