/** What the registration claim guarantees with no assumption about faults at all. */
module ClaimDiscipline {
  import opened Prelude
  import opened IdentityRow
  import opened Registration

  /** When the latest successful claim was taken, if no failure was recorded since. */
  ghost function OpenClaim(r: Run): Option<int> {
    match r
    case Begin(_) => None
    case Then(prev, st) =>
      if !Enabled(End(prev), st) then OpenClaim(prev)
      else if ClaimsNow(End(prev), st) then Some(st.now)
      else if st.RecordFailure? then None
      else OpenClaim(prev)
  }

  ghost function Claims(r: Run): nat {
    match r
    case Begin(_) => 0
    case Then(prev, st) => Claims(prev) + (if Enabled(End(prev), st) && ClaimsNow(End(prev), st) then 1 else 0)
  }

  ghost function Broadcasts(r: Run): nat {
    match r
    case Begin(_) => 0
    case Then(prev, st) => Broadcasts(prev) + (if Enabled(End(prev), st) && st.Broadcast? then 1 else 0)
  }

  /** Whoever is about to link a wallet has seen an identity; a linked row has one. */
  ghost predicate LinksBacked(s: State) {
    && (s.row.status.WALLET_LINKED? ==> s.row.tokenId.Some?)
    && (forall c :: c in s.pcs && s.pcs[c].BindSent? ==> s.row.tokenId.Some?)
  }

  ghost predicate Disciplined(s: State, open: Option<int>) {
    && LinksBacked(s)
    && (s.row.tokenId.None? && open.Some? ==> s.row.status.REGISTERING? && s.row.lockedAt == open)
  }

  lemma {:induction false} DisciplineKept(s: State, st: Step, open: Option<int>)
    requires Enabled(s, st) && Disciplined(s, open)
    ensures Disciplined(
      Next(s, st), if ClaimsNow(s, st) then Some(st.now) else if st.RecordFailure? then None else open)
  {
    assert st.RecordLink? ==> s.pcs[st.c].BindSent?;
  }

  lemma {:induction false} AlwaysDisciplined(r: Run)
    requires Valid(r, NONE)
    ensures Disciplined(End(r), OpenClaim(r))
  {
    if r.Then? {
      AlwaysDisciplined(r.prev);
      DisciplineKept(End(r.prev), r.step, OpenClaim(r.prev));
    }
  }

  /**
   Two successful claims are more than the claim's time to live apart, unless a
   failure was recorded in between; and a row marked WALLET_LINKED has an identity.
   */
  lemma {:induction false} ClaimsAreSeparated(r: Run, st: Step)
    requires Valid(r, NONE) && Enabled(End(r), st)
    ensures ClaimsNow(End(r), st) && OpenClaim(r).Some? ==> st.now > OpenClaim(r).value + REGISTER_CLAIM_TTL_MS
    ensures End(r).row.status.WALLET_LINKED? ==> End(r).row.tokenId.Some?
  {
    AlwaysDisciplined(r);
  }

  // ── Broadcasts are paid for by claims ─────────────────────────────────────

  /** Callers that have claimed and not yet broadcast. */
  ghost function EntitledSet(s: State): set<Caller> {
    set c | c in s.pcs && Entitled(s.pcs[c])
  }

  lemma {:induction false} EntitledStep(s: State, st: Step)
    requires Enabled(s, st)
    ensures |EntitledSet(Next(s, st))| <=
      |EntitledSet(s)| + (if ClaimsNow(s, st) then 1 else 0) - (if st.Broadcast? then 1 else 0)
  {
    var e, e' := EntitledSet(s), EntitledSet(Next(s, st));
    forall c | c in e'
      ensures c in e || (ClaimsNow(s, st) && st.c == c)
      ensures st.Broadcast? ==> st.c != c
    {
      EntitledBefore(s, st, c);
    }
    hide Next;
    if ClaimsNow(s, st) {
      Smaller(e', e + {st.c});
    } else if st.Broadcast? {
      assert st.c in e;
      Smaller(e', e - {st.c});
    } else {
      Smaller(e', e);
    }
  }

  lemma {:induction false} Smaller<T>(a: set<T>, b: set<T>)
    requires a <= b
    ensures |a| <= |b|
  {
    assert b == a + (b - a);
  }

  lemma {:induction false} PaidFor(r: Run)
    requires Valid(r, NONE)
    ensures Broadcasts(r) + |EntitledSet(End(r))| <= Claims(r)
  {
    match r
    case Begin(callers) =>
      assert EntitledSet(End(r)) == {};
    case Then(prev, st) =>
      PaidFor(prev);
      EntitledStep(End(prev), st);
  }

  /** Transactions sent never outnumber successful claims. */
  lemma {:induction false} BroadcastsNeverOutnumberClaims(r: Run)
    requires Valid(r, NONE)
    ensures Broadcasts(r) <= Claims(r)
  {
    PaidFor(r);
  }

  // ── A recorded identity is for ever ───────────────────────────────────────

  ghost predicate Extends(r: Run, later: Run) {
    r == later || (later.Then? && Extends(r, later.prev))
  }

  /** Once an identity is recorded it stays recorded and no claim ever succeeds again. */
  lemma {:induction false} NoClaimAfterIdentity(r: Run, later: Run)
    requires Valid(later, NONE) && Extends(r, later) && End(r).row.tokenId.Some?
    ensures End(later).row.tokenId.Some? && Claims(later) == Claims(r)
  {
    if r != later {
      NoClaimAfterIdentity(r, later.prev);
    }
  }

  /**
   The lost receipt: the row names a mined transaction nobody recorded the outcome
   of. Whoever reads that row is sent to look the transaction up; when it looks and
   writes without interference, the row takes that identity and nothing is broadcast.
   */
  lemma {:induction false} LostReceiptIsAdopted(s: State, c: Caller, h: TxHash, id: TokenId)
    requires c in s.pcs && s.pcs[c].Start? && s.created
    requires s.row.tokenId.None? && !s.row.status.WALLET_LINKED?
    requires s.row.txHash == Some(h) && h in s.txs && s.txs[h] == Mined(id)
    ensures Next(s, FindRow(c)).pcs[c] == Lookup(s.row)
    ensures !DefinitiveLookup(Next(s, FindRow(c)), ReceiptMissing(c))
    ensures Enabled(Next(s, FindRow(c)), ReceiptFound(c)) && AdoptedFrom(Next(s, FindRow(c)), c, id)
  {
  }

  predicate AdoptedFrom(s: State, c: Caller, id: TokenId)
    requires Enabled(s, ReceiptFound(c))
  {
    var found := Next(s, ReceiptFound(c));
    var adopted := Next(found, Adopt(c));
    adopted.row.tokenId == Some(id) && adopted.txs == s.txs && Next(adopted, RereadRow(c)).pcs[c] == Binding(Resume)
  }
}
