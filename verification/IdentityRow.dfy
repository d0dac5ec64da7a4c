/**
 The database row behind one agent's ERC-8004 identity, and the writes the
 registration service makes to it. Each write is one UPDATE.
 */
module IdentityRow {
  import opened Prelude

  datatype Status = PENDING | REGISTERING | REGISTERED | WALLET_LINKED | FAILED

  /** A transaction hash and an ERC-8004 token id. */
  type TxHash = nat
  type TokenId = nat

  const REGISTER_CLAIM_TTL_MS := 300000

  datatype Row = Row(
    status: Status, tokenId: Option<TokenId>, txHash: Option<TxHash>, lockedAt: Option<int>, card: bool)

  const NEW_ROW := Row(PENDING, None, None, None, false)

  /** The WHERE clause of the claim; a null lock compares as false in SQL. */
  predicate Claimable(r: Row, now: int) {
    && r.tokenId.None?
    && (|| r.status.PENDING? || r.status.FAILED?
        || (r.status.REGISTERING? && r.lockedAt.Some? && r.lockedAt.value < now - REGISTER_CLAIM_TTL_MS))
  }

  /** What the row tells a caller to do next: nothing, bind the wallet, look a transaction up, or try to claim. */
  datatype Plan = Finished | BindWallet | LookUp(hash: TxHash) | TryClaim

  function PlanFor(r: Row): Plan {
    if r.status.WALLET_LINKED? then Finished
    else if r.tokenId.Some? then BindWallet
    else if r.txHash.Some? then LookUp(r.txHash.value)
    else TryClaim
  }

  function Claimed(r: Row, now: int): Row {
    r.(status := REGISTERING, lockedAt := Some(now))
  }

  function WithCard(r: Row): Row {
    r.(card := true)
  }

  function WithHash(r: Row, h: TxHash): Row {
    r.(txHash := Some(h))
  }

  function Registered(r: Row, h: TxHash, id: TokenId): Row {
    r.(tokenId := Some(id), txHash := Some(h), status := REGISTERED)
  }

  function Linked(r: Row): Row {
    r.(status := WALLET_LINKED, lockedAt := None)
  }

  function Failed(r: Row, status: Status): Row {
    r.(status := status, lockedAt := None)
  }

  class AgentBaseIdentity {
    var status: Status
    var tokenId: Option<TokenId>
    var txHash: Option<TxHash>
    var lockedAt: Option<int>
    var card: bool

    function Value(): Row
      reads this
    {
      Row(status, tokenId, txHash, lockedAt, card)
    }

    constructor ()
      ensures Value() == NEW_ROW
    {
      status, tokenId, txHash, lockedAt, card := PENDING, None, None, None, false;
    }

    /** One conditional UPDATE: it reports whether it matched, and writes only then. */
    method ClaimRegistration(now: int) returns (claimed: bool)
      modifies this
      ensures claimed <==> Claimable(old(Value()), now)
      ensures Value() == if claimed then Claimed(old(Value()), now) else old(Value())
      ensures claimed <==>
        old(tokenId).None?
        && (old(status) == PENDING || old(status) == FAILED
            || (old(status) == REGISTERING && old(lockedAt).Some? && now > old(lockedAt).value + 300000))
      ensures claimed ==> forall t :: Claimable(Value(), t) <==> t > now + 300000
    {
      var staleBefore := now - REGISTER_CLAIM_TTL_MS;
      claimed := tokenId == None &&
        (status == PENDING || status == FAILED ||
         (status == REGISTERING && lockedAt.Some? && lockedAt.value < staleBefore));
      if claimed {
        status := REGISTERING;
        lockedAt := Some(now);
      }
    }

    method PublishCard()
      modifies this
      ensures Value() == WithCard(old(Value()))
    {
      card := true;
    }

    /** Persisted before waiting for the receipt: the claim stands, and the next caller looks for this transaction. */
    method RecordHash(h: TxHash)
      modifies this
      ensures Value() == WithHash(old(Value()), h)
      ensures forall t :: Claimable(Value(), t) <==> Claimable(old(Value()), t)
      ensures PlanFor(Value()) ==
        if PlanFor(old(Value())) in {Finished, BindWallet} then PlanFor(old(Value())) else LookUp(h)
    {
      txHash := Some(h);
    }

    /** A mined registration, read by its sender or adopted by a later caller; nobody can claim again. */
    method RecordRegistration(h: TxHash, id: TokenId)
      modifies this
      ensures Value() == Registered(old(Value()), h, id)
      ensures forall t :: !Claimable(Value(), t)
      ensures tokenId == Some(id) && txHash == Some(h) && PlanFor(Value()) == BindWallet
    {
      tokenId, txHash, status := Some(id), Some(h), REGISTERED;
    }

    /** The end of the road, whatever the row was: no caller has anything left to do, and none can claim. */
    method RecordLink()
      modifies this
      ensures Value() == Linked(old(Value()))
      ensures PlanFor(Value()) == Finished
      ensures forall t :: !Claimable(Value(), t)
      ensures tokenId == old(tokenId) && txHash == old(txHash)
    {
      status, lockedAt := WALLET_LINKED, None;
    }

    /** Releases the claim; the hash and the token id, if any, stay for the resume path. */
    method RecordFailure(outcome: Status)
      modifies this
      ensures Value() == Failed(old(Value()), outcome)
      ensures tokenId == old(tokenId) && txHash == old(txHash)
      ensures outcome.FAILED? ==> forall t :: Claimable(Value(), t) <==> tokenId.None?
    {
      status, lockedAt := outcome, None;
    }
  }
}
