/**
 What one undisturbed call of ensureIdentity achieves: it registers an agent that has
 no identity, takes up a registration whose receipt was lost, binds a wallet that was
 left unbound, and on an exception leaves the row open to the next caller.
 */
module RegistrationProgress {
  import opened Prelude
  import opened IdentityRow
  import opened Registration

  /** One more step of a run, checked against the state it leads to. */
  lemma {:induction false} Extend(r: Run, st: Step, a: Assumptions, s: State) returns (longer: Run)
    requires Valid(r, a) && Enabled(End(r), st) && Respects(End(r), st, a) && Next(End(r), st) == s
    ensures Valid(longer, a) && End(longer) == s
  {
    hide Enabled;
    hide Respects;
    hide Next;
    longer := Then(r, st);
  }

  /** The other callers neither hold a claim nor are about to record a hash. */
  ghost predicate Quiet(pcs: map<Caller, Pc>, c: Caller) {
    c in pcs && forall d :: d in pcs && d != c ==> !Holds(pcs[d])
  }

  /** After the steps of caller c: these parts of the state, and of the callers only c elsewhere. */
  ghost predicate Became(s: State, s': State, row: Row, txs: map<TxHash, Tx>, c: Caller, pc: Pc) {
    s' == State(row, true, txs, s.pcs[c := pc])
  }

  lemma {:induction false} Overridden(ps: map<Caller, Pc>, c: Caller, x: Pc, y: Pc)
    ensures ps[c := x][c := y] == ps[c := y]
    ensures Quiet(ps, c) ==> Quiet(ps[c := x], c)
  {
  }

  // ── Registering ───────────────────────────────────────────────────────────

  lemma {:induction false} ReadsRow(r: Run, a: Assumptions, c: Caller) returns (longer: Run)
    requires Valid(r, a) && Quiet(End(r).pcs, c) && End(r).pcs[c] == Start
    ensures Valid(longer, a) && Became(End(r), End(longer), End(r).row, End(r).txs, c, Route(End(r).row))
  {
    hide Valid;
    hide End;
    hide Route;
    var s := End(r);
    if s.created {
      longer := Extend(r, FindRow(c), a, State(s.row, true, s.txs, s.pcs[c := Route(s.row)]));
    } else {
      Overridden(s.pcs, c, Create, Route(s.row));
      longer := Extend(r, FindRow(c), a, State(s.row, false, s.txs, s.pcs[c := Create]));
      longer := Extend(longer, CreateRow(c), a, State(s.row, true, s.txs, s.pcs[c := Route(s.row)]));
    }
  }

  lemma {:induction false} Claims(r: Run, a: Assumptions, c: Caller, now: int) returns (longer: Run)
    requires Valid(r, a) && Quiet(End(r).pcs, c) && End(r).pcs[c] == Claiming(End(r).row) && End(r).created
    requires End(r).row.tokenId.None? && (End(r).row.status.PENDING? || End(r).row.status.FAILED?)
    ensures Valid(longer, a)
    ensures Became(End(r), End(longer), End(r).row.(status := REGISTERING, lockedAt := Some(now), card := true),
                   End(r).txs, c, Ready)
  {
    hide Valid;
    hide End;
    var s := End(r);
    var held := s.row.(status := REGISTERING, lockedAt := Some(now));
    Overridden(s.pcs, c, Publish(s.row), Ready);
    longer := Extend(r, Claim(c, now), a, State(held, true, s.txs, s.pcs[c := Publish(s.row)]));
    longer := Extend(longer, PublishCard(c), a, State(held.(card := true), true, s.txs, s.pcs[c := Ready]));
  }

  lemma {:induction false} Sends(r: Run, a: Assumptions, c: Caller, h: TxHash) returns (longer: Run)
    requires Valid(r, a) && Quiet(End(r).pcs, c) && End(r).pcs[c] == Ready && End(r).created && h !in End(r).txs
    ensures Valid(longer, a)
    ensures Became(End(r), End(longer), End(r).row.(txHash := Some(h)), End(r).txs[h := Pending], c, Waiting(h))
  {
    hide Valid;
    hide End;
    var s := End(r);
    Overridden(s.pcs, c, Sent(h), Waiting(h));
    longer := Extend(r, Broadcast(c, h), a, State(s.row, true, s.txs[h := Pending], s.pcs[c := Sent(h)]));
    longer := Extend(longer, Step.RecordHash(c), a,
                     State(s.row.(txHash := Some(h)), true, s.txs[h := Pending], s.pcs[c := Waiting(h)]));
  }

  lemma {:induction false} IsMined(r: Run, a: Assumptions, c: Caller, h: TxHash, id: TokenId) returns (longer: Run)
    requires Valid(r, a) && Quiet(End(r).pcs, c) && End(r).pcs[c] == Waiting(h) && End(r).created
    requires h in End(r).txs && End(r).txs[h] == Pending
    ensures Valid(longer, a)
    ensures Became(End(r), End(longer), End(r).row, End(r).txs[h := Mined(id)], c, HasReceipt(h, id))
  {
    hide Valid;
    hide End;
    var s := End(r);
    longer := Extend(r, Mine(h, id), a, State(s.row, true, s.txs[h := Mined(id)], s.pcs));
    longer := Extend(longer, ReadReceipt(c), a,
                     State(s.row, true, s.txs[h := Mined(id)], s.pcs[c := HasReceipt(h, id)]));
  }

  /** Binding the wallet ends the registration, on whichever path. */
  lemma {:induction false} Binds(r: Run, a: Assumptions, c: Caller, o: Origin) returns (longer: Run)
    requires Valid(r, a) && Quiet(End(r).pcs, c) && End(r).pcs[c] == Binding(o) && End(r).created
    requires End(r).row.tokenId.Some?
    ensures Valid(longer, a)
    ensures Became(End(r), End(longer), End(r).row.(status := WALLET_LINKED, lockedAt := None), End(r).txs, c, Stopped)
  {
    hide Valid;
    hide End;
    var s := End(r);
    Overridden(s.pcs, c, BindSent(o), Stopped);
    longer := Extend(r, SendBinding(c), a, State(s.row, true, s.txs, s.pcs[c := BindSent(o)]));
    longer := Extend(longer, Step.RecordLink(c), a,
                     State(s.row.(status := WALLET_LINKED, lockedAt := None), true, s.txs, s.pcs[c := Stopped]));
  }

  lemma {:induction false} Records(r: Run, a: Assumptions, c: Caller, h: TxHash, id: TokenId) returns (longer: Run)
    requires Valid(r, a) && Quiet(End(r).pcs, c) && End(r).pcs[c] == HasReceipt(h, id) && End(r).created
    ensures Valid(longer, a)
    ensures Became(End(r), End(longer), End(r).row.(tokenId := Some(id), txHash := Some(h), status := REGISTERED),
                   End(r).txs, c, Binding(AfterRegister))
  {
    hide Valid;
    hide End;
    var s := End(r);
    longer := Extend(r, Step.RecordRegistration(c), a,
                     State(s.row.(tokenId := Some(id), txHash := Some(h), status := REGISTERED), true, s.txs,
                           s.pcs[c := Binding(AfterRegister)]));
  }

  /**
   One undisturbed call registers an agent that has neither identity nor transaction,
   whether it is new or failed before: it sends one transaction, records the identity
   that one mints, and links the wallet.
   */
  lemma {:induction false} FreshPass(r: Run, a: Assumptions, c: Caller, now: int, h: TxHash, id: TokenId)
    returns (longer: Run)
    requires Valid(r, a) && Quiet(End(r).pcs, c) && End(r).pcs[c] == Start && h !in End(r).txs
    requires End(r).row.tokenId.None? && End(r).row.txHash.None?
    requires End(r).row.status.PENDING? || End(r).row.status.FAILED?
    ensures Valid(longer, a)
    ensures Became(End(r), End(longer), Row(WALLET_LINKED, Some(id), Some(h), None, true),
                   End(r).txs[h := Mined(id)], c, Stopped)
  {
    hide Valid;
    hide End;
    var s := End(r);
    hide Quiet;
    longer := ReadsRow(r, a, c);
    Overridden(s.pcs, c, Claiming(s.row), Ready);
    longer := Claims(longer, a, c, now);
    Overridden(s.pcs, c, Ready, Waiting(h));
    longer := Sends(longer, a, c, h);
    Overridden(s.pcs, c, Waiting(h), HasReceipt(h, id));
    longer := IsMined(longer, a, c, h, id);
    Overridden(s.pcs, c, HasReceipt(h, id), Binding(AfterRegister));
    assert s.txs[h := Pending][h := Mined(id)] == s.txs[h := Mined(id)];
    longer := Records(longer, a, c, h, id);
    Overridden(s.pcs, c, Binding(AfterRegister), Stopped);
    longer := Binds(longer, a, c, AfterRegister);
  }

  // ── Taking up where another call stopped ──────────────────────────────────

  lemma {:induction false} Adopts(r: Run, a: Assumptions, c: Caller, h: TxHash, id: TokenId) returns (longer: Run)
    requires Valid(r, a) && Quiet(End(r).pcs, c) && End(r).pcs[c] == Lookup(End(r).row) && End(r).created
    requires End(r).row.tokenId.None? && End(r).row.txHash == Some(h)
    requires h in End(r).txs && End(r).txs[h] == Mined(id)
    ensures Valid(longer, a)
    ensures Became(End(r), End(longer), End(r).row.(tokenId := Some(id), status := REGISTERED), End(r).txs, c,
                   Binding(Resume))
  {
    hide Valid;
    hide End;
    var s := End(r);
    var row := s.row.(tokenId := Some(id), status := REGISTERED);
    Overridden(s.pcs, c, Adopting(s.row, h, id), Reread);
    Overridden(s.pcs, c, Reread, Binding(Resume));
    longer := Extend(r, ReceiptFound(c), a, State(s.row, true, s.txs, s.pcs[c := Adopting(s.row, h, id)]));
    longer := Extend(longer, Adopt(c), a, State(row, true, s.txs, s.pcs[c := Reread]));
    longer := Extend(longer, RereadRow(c), a, State(row, true, s.txs, s.pcs[c := Binding(Resume)]));
  }

  /**
   One undisturbed call over a row that names a mined transaction records the identity
   that one minted and links the wallet; it sends nothing.
   */
  lemma {:induction false} LostReceiptPass(r: Run, a: Assumptions, c: Caller, h: TxHash, id: TokenId)
    returns (longer: Run)
    requires Valid(r, a) && Quiet(End(r).pcs, c) && End(r).pcs[c] == Start
    requires End(r).row.tokenId.None? && !End(r).row.status.WALLET_LINKED? && End(r).row.txHash == Some(h)
    requires h in End(r).txs && End(r).txs[h] == Mined(id)
    ensures Valid(longer, a)
    ensures Became(End(r), End(longer), Row(WALLET_LINKED, Some(id), Some(h), None, End(r).row.card), End(r).txs, c,
                   Stopped)
  {
    hide Valid;
    hide End;
    hide Quiet;
    var s := End(r);
    longer := ReadsRow(r, a, c);
    Overridden(s.pcs, c, Lookup(s.row), Binding(Resume));
    longer := Adopts(longer, a, c, h, id);
    Overridden(s.pcs, c, Binding(Resume), Stopped);
    longer := Binds(longer, a, c, Resume);
  }

  /** One undisturbed call over a row with an identity but no linked wallet links it. */
  lemma {:induction false} UnboundPass(r: Run, a: Assumptions, c: Caller) returns (longer: Run)
    requires Valid(r, a) && Quiet(End(r).pcs, c) && End(r).pcs[c] == Start
    requires End(r).row.tokenId.Some? && !End(r).row.status.WALLET_LINKED?
    ensures Valid(longer, a)
    ensures Became(End(r), End(longer), End(r).row.(status := WALLET_LINKED, lockedAt := None), End(r).txs, c, Stopped)
  {
    hide Valid;
    hide End;
    hide Quiet;
    var s := End(r);
    longer := ReadsRow(r, a, c);
    Overridden(s.pcs, c, Binding(Resume), Stopped);
    longer := Binds(longer, a, c, Resume);
  }

  lemma {:induction false} Thrown(r: Run, a: Assumptions, c: Caller) returns (longer: Run)
    requires Valid(r, a) && Quiet(End(r).pcs, c) && End(r).pcs[c] == Ready && End(r).created
    requires End(r).row.tokenId.None?
    ensures Valid(longer, a) && Became(End(r), End(longer), End(r).row, End(r).txs, c, Failing(false))
  {
    hide Valid;
    hide End;
    var s := End(r);
    Overridden(s.pcs, c, Caught, Failing(false));
    longer := Extend(r, Throw(c), a, State(s.row, true, s.txs, s.pcs[c := Caught]));
    longer := Extend(longer, ReadAfterThrow(c), a, State(s.row, true, s.txs, s.pcs[c := Failing(false)]));
  }

  /**
   An exception between the claim and the transaction leaves the row FAILED and
   unlocked, with no identity and nothing sent: open to every later call.
   */
  lemma {:induction false} FailedPass(r: Run, a: Assumptions, c: Caller) returns (longer: Run)
    requires Valid(r, a) && Quiet(End(r).pcs, c) && End(r).pcs[c] == Ready && End(r).created
    requires End(r).row.tokenId.None?
    ensures Valid(longer, a)
    ensures Became(End(r), End(longer), End(r).row.(status := FAILED, lockedAt := None), End(r).txs, c, Stopped)
    ensures forall now :: Claimable(End(longer).row, now)
  {
    hide Valid;
    hide End;
    var s := End(r);
    longer := Thrown(r, a, c);
    Overridden(s.pcs, c, Failing(false), Stopped);
    longer := Extend(longer, Step.RecordFailure(c), a,
                     State(s.row.(status := FAILED, lockedAt := None), true, s.txs, s.pcs[c := Stopped]));
  }

  /**
   An exception while the wallet is being bound, on either path and before or after the
   transaction is sent, costs nothing: the identity stays recorded, the row is
   REGISTERED and unlocked, and a later call binds the wallet.
   */
  lemma {:induction false} BindingFailedPass(r: Run, a: Assumptions, c: Caller, o: Origin) returns (longer: Run)
    requires Valid(r, a) && Quiet(End(r).pcs, c) && End(r).created && End(r).row.tokenId.Some?
    requires End(r).pcs[c] == Binding(o) || End(r).pcs[c] == BindSent(o)
    ensures Valid(longer, a)
    ensures Became(End(r), End(longer), End(r).row.(status := REGISTERED, lockedAt := None), End(r).txs, c, Stopped)
    ensures PlanFor(End(longer).row) == BindWallet
  {
    hide Valid;
    hide End;
    var s := End(r);
    if o.Resume? {
      Overridden(s.pcs, c, BindFailed, Stopped);
      longer := Extend(r, Throw(c), a, State(s.row, true, s.txs, s.pcs[c := BindFailed]));
    } else {
      longer := BindingCaught(r, a, c, o);
      Overridden(s.pcs, c, Failing(true), Stopped);
    }
    longer := WritesFailure(longer, a, c);
  }

  lemma {:induction false} BindingCaught(r: Run, a: Assumptions, c: Caller, o: Origin) returns (longer: Run)
    requires Valid(r, a) && Quiet(End(r).pcs, c) && End(r).created && End(r).row.tokenId.Some? && !o.Resume?
    requires End(r).pcs[c] == Binding(o) || End(r).pcs[c] == BindSent(o)
    ensures Valid(longer, a) && Became(End(r), End(longer), End(r).row, End(r).txs, c, Failing(true))
  {
    hide Valid;
    hide End;
    var s := End(r);
    Overridden(s.pcs, c, Caught, Failing(true));
    longer := Extend(r, Throw(c), a, State(s.row, true, s.txs, s.pcs[c := Caught]));
    longer := Extend(longer, ReadAfterThrow(c), a, State(s.row, true, s.txs, s.pcs[c := Failing(true)]));
  }

  lemma {:induction false} WritesFailure(r: Run, a: Assumptions, c: Caller) returns (longer: Run)
    requires Valid(r, a) && Quiet(End(r).pcs, c) && End(r).created
    requires End(r).pcs[c] == BindFailed || End(r).pcs[c] == Failing(true)
    ensures Valid(longer, a)
    ensures Became(End(r), End(longer), End(r).row.(status := REGISTERED, lockedAt := None), End(r).txs, c, Stopped)
  {
    hide Valid;
    hide End;
    var s := End(r);
    longer := Extend(r, Step.RecordFailure(c), a,
                     State(s.row.(status := REGISTERED, lockedAt := None), true, s.txs, s.pcs[c := Stopped]));
  }
}
