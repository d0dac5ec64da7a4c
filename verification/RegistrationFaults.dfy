/**
 The registration protocol where the assumptions fail: each of the four, dropped
 alone, lets a run mint two identities. Two callers, two transactions, 7 and 8.
 */
module RegistrationFaults {
  import opened Prelude
  import opened IdentityRow
  import opened Registration
  import opened RegistrationProgress

  function Two(row: Row, txs: map<TxHash, Tx>, pc0: Pc, pc1: Pc): State {
    State(row, true, txs, map[0 := pc0, 1 := pc1])
  }

  lemma {:induction false} Started(a: Assumptions) returns (r: Run)
    ensures Valid(r, a) && End(r) == Two(NEW_ROW, map[], Start, Start).(created := false)
  {
    r := Begin({0, 1});
  }

  const HELD := Row(REGISTERING, None, None, Some(0), true)

  function SecondCaller(early: bool): Pc {
    if early then Claiming(NEW_ROW) else Start
  }

  lemma {:induction false} RowsRead(a: Assumptions, early: bool) returns (r: Run)
    ensures Valid(r, a) && End(r) == Two(NEW_ROW, map[], Claiming(NEW_ROW), SecondCaller(early))
  {
    hide Valid;
    hide End;
    r := Started(a);
    r := Extend(r, FindRow(0), a, Two(NEW_ROW, map[], Create, Start).(created := false));
    r := Extend(r, CreateRow(0), a, Two(NEW_ROW, map[], Claiming(NEW_ROW), Start));
    if early {
      r := Extend(r, FindRow(1), a, Two(NEW_ROW, map[], Claiming(NEW_ROW), Claiming(NEW_ROW)));
    }
  }

  /** Caller 0 claims and is ready to broadcast; caller 1 may have read the row before that. */
  lemma {:induction false} Opening(a: Assumptions, early: bool) returns (r: Run)
    ensures Valid(r, a) && End(r) == Two(HELD, map[], Ready, SecondCaller(early))
  {
    hide Valid;
    hide End;
    r := RowsRead(a, early);
    r := Extend(r, Claim(0, 0), a, Two(Claimed(NEW_ROW, 0), map[], Publish(NEW_ROW), SecondCaller(early)));
    r := Extend(r, PublishCard(0), a, Two(HELD, map[], Ready, SecondCaller(early)));
  }

  lemma {:induction false} ThrowFirst(r: Run, a: Assumptions, row: Row, p0: Pc, p: Pc) returns (r': Run)
    requires Valid(r, a) && End(r) == Two(row, map[7 := Pending], p0, p)
    requires !p.Sent? && (p0 == Waiting(7) || (p0 == Sent(7) && !a.atomicHash))
    ensures Valid(r', a) && End(r') == Two(row, map[7 := Pending], Caught, p)
  {
    hide Valid;
    hide End;
    r' := Extend(r, Throw(0), a, Two(row, map[7 := Pending], Caught, p));
  }

  lemma {:induction false} FailLast(r: Run, a: Assumptions, row: Row, p: Pc) returns (r': Run)
    requires Valid(r, a) && End(r) == Two(row, map[7 := Pending], Failing(false), p) && !p.Sent?
    ensures Valid(r', a) && End(r') == Two(Failed(row, FAILED), map[7 := Pending], Stopped, p)
  {
    hide Valid;
    hide End;
    r' := Extend(r, RecordFailure(0), a, Two(Failed(row, FAILED), map[7 := Pending], Stopped, p));
  }

  lemma {:induction false} FailAfter(r: Run, a: Assumptions, row: Row, p0: Pc, p: Pc) returns (r': Run)
    requires Valid(r, a) && End(r) == Two(row, map[7 := Pending], p0, p)
    requires !p.Sent? && (p0 == Waiting(7) || (p0 == Sent(7) && !a.atomicHash)) && row.tokenId.None?
    ensures Valid(r', a) && End(r') == Two(Failed(row, FAILED), map[7 := Pending], Stopped, p)
  {
    hide Valid;
    hide End;
    r' := ThrowFirst(r, a, row, p0, p);
    r' := Extend(r', ReadAfterThrow(0), a, Two(row, map[7 := Pending], Failing(false), p));
    r' := FailLast(r', a, row, p);
  }

  /** Caller 0 broadcasts 7 and then fails, with or without having written the hash down. */
  lemma {:induction false} BroadcastThenFail(r: Run, a: Assumptions, p: Pc, recorded: bool) returns (r': Run)
    requires Valid(r, a) && End(r) == Two(HELD, map[], Ready, p) && !p.Sent?
    requires recorded || !a.atomicHash
    ensures Valid(r', a)
    ensures End(r') == Two(Failed(if recorded then WithHash(HELD, 7) else HELD, FAILED), map[7 := Pending], Stopped, p)
  {
    hide Valid;
    hide End;
    r' := Extend(r, Broadcast(0, 7), a, Two(HELD, map[7 := Pending], Sent(7), p));
    if recorded {
      r' := Extend(r', RecordHash(0), a, Two(WithHash(HELD, 7), map[7 := Pending], Waiting(7), p));
      r' := FailAfter(r', a, WithHash(HELD, 7), Waiting(7), p);
    } else {
      r' := FailAfter(r', a, HELD, Sent(7), p);
    }
  }

  /** Caller 1 claims, with 7 still pending, and both transactions land. */
  lemma {:induction false} SecondMint(r: Run, a: Assumptions, row: Row, seen: Row) returns (r': Run)
    requires Valid(r, a) && End(r) == Two(row, map[7 := Pending], Stopped, Claiming(seen))
    requires row.status.FAILED? && row.tokenId.None? && (a.freshRead ==> seen.txHash == row.txHash)
    ensures Valid(r', a) && Minted(End(r')) == {7, 8}
  {
    hide Valid;
    hide End;
    var held := Claimed(row, 1);
    r' := Extend(r, Claim(1, 1), a, Two(held, map[7 := Pending], Stopped, Publish(seen)));
    var published := if seen.card then held else WithCard(held);
    r' := Extend(r', PublishCard(1), a, Two(published, map[7 := Pending], Stopped, Ready));
    r' := BothLand(r', a, published, Stopped);
  }

  lemma {:induction false} BothLand(r: Run, a: Assumptions, row: Row, p: Pc) returns (r': Run)
    requires Valid(r, a) && End(r) == Two(row, map[7 := Pending], p, Ready) && !p.Sent?
    ensures Valid(r', a) && Minted(End(r')) == {7, 8}
  {
    hide Valid;
    hide End;
    r' := Extend(r, Broadcast(1, 8), a, Two(row, map[7 := Pending, 8 := Pending], p, Sent(8)));
    r' := Extend(r', RecordHash(1), a, Two(WithHash(row, 8), map[7 := Pending, 8 := Pending], p, Waiting(8)));
    r' := MineBoth(r', a, WithHash(row, 8), p);
  }

  lemma {:induction false} MineBoth(r: Run, a: Assumptions, row: Row, p: Pc) returns (r': Run)
    requires Valid(r, a) && End(r) == Two(row, map[7 := Pending, 8 := Pending], p, Waiting(8)) && !p.Sent?
    ensures Valid(r', a) && Minted(End(r')) == {7, 8}
  {
    hide Valid;
    hide End;
    r' := Extend(r, Mine(7, 1), a, Two(row, map[7 := Mined(1), 8 := Pending], p, Waiting(8)));
    r' := Extend(r', Mine(8, 2), a, Two(row, map[7 := Mined(1), 8 := Mined(2)], p, Waiting(8)));
  }

  /** A broadcast whose hash is never written leaves the next caller nothing to look up. */
  lemma {:induction false} SplitBroadcastMintsTwice() returns (r: Run)
    ensures Valid(r, ALL.(atomicHash := false)) && Minted(End(r)) == {7, 8}
  {
    hide Valid;
    hide End;
    var a := ALL.(atomicHash := false);
    r := Opening(a, false);
    r := BroadcastThenFail(r, a, Start, false);
    var row := Failed(HELD, FAILED);
    r := Extend(r, FindRow(1), a, Two(row, map[7 := Pending], Stopped, Claiming(row)));
    r := SecondMint(r, a, row, row);
  }

  /** A pending transaction taken for a missing one lands beside its replacement. */
  lemma {:induction false} VagueLookupMintsTwice() returns (r: Run)
    ensures Valid(r, ALL.(definitiveLookup := false)) && Minted(End(r)) == {7, 8}
  {
    hide Valid;
    hide End;
    var a := ALL.(definitiveLookup := false);
    r := Opening(a, false);
    r := BroadcastThenFail(r, a, Start, true);
    var row := Failed(WithHash(HELD, 7), FAILED);
    r := Extend(r, FindRow(1), a, Two(row, map[7 := Pending], Stopped, Lookup(row)));
    r := Extend(r, ReceiptMissing(1), a, Two(row, map[7 := Pending], Stopped, Claiming(row)));
    r := SecondMint(r, a, row, row);
  }

  /** Caller 1 retakes the claim of a caller 0 that is still about to broadcast. */
  lemma {:induction false} Retake(r: Run, a: Assumptions) returns (r': Run)
    requires Valid(r, a) && End(r) == Two(HELD, map[], Ready, Start) && !a.holderStopped
    ensures Valid(r', a) && End(r') == Two(Claimed(HELD, 300001), map[], Ready, Ready)
  {
    hide Valid;
    hide End;
    r' := Extend(r, FindRow(1), a, Two(HELD, map[], Ready, Claiming(HELD)));
    r' := Extend(r', Claim(1, 300001), a, Two(Claimed(HELD, 300001), map[], Ready, Publish(HELD)));
    r' := Extend(r', PublishCard(1), a, Two(Claimed(HELD, 300001), map[], Ready, Ready));
  }

  /** A holder that is slow, not dead, outlives its claim and broadcasts beside its successor. */
  lemma {:induction false} SlowHolderMintsTwice() returns (r: Run)
    ensures Valid(r, ALL.(holderStopped := false)) && Minted(End(r)) == {7, 8}
  {
    hide Valid;
    hide End;
    var a := ALL.(holderStopped := false);
    var held := Claimed(HELD, 300001);
    r := Opening(a, false);
    r := Retake(r, a);
    r := Extend(r, Broadcast(0, 7), a, Two(held, map[7 := Pending], Sent(7), Ready));
    r := Extend(r, RecordHash(0), a, Two(WithHash(held, 7), map[7 := Pending], Waiting(7), Ready));
    r := BothLand(r, a, WithHash(held, 7), Waiting(7));
  }

  /** A caller that read the row before another one failed never looks the recorded hash up. */
  lemma {:induction false} StaleReadMintsTwice() returns (r: Run)
    ensures Valid(r, ALL.(freshRead := false)) && Minted(End(r)) == {7, 8}
  {
    hide Valid;
    hide End;
    var a := ALL.(freshRead := false);
    r := Opening(a, true);
    r := BroadcastThenFail(r, a, Claiming(NEW_ROW), true);
    r := SecondMint(r, a, Failed(WithHash(HELD, 7), FAILED), NEW_ROW);
  }
}
