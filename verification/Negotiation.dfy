/**
 The negotiation transcript: typed offers, the hash chain that links them, the
 state derived from the last message and the validator for the next one.
 */
module Negotiation {
  import opened Prelude
  import opened Decimal

  /** A bytes32 word, read as a number. */
  type Hash = nat

  const ZERO_HASH: Hash := 0
  const MAX_MESSAGES := 20
  const DEFAULT_TTL_SECONDS := 3600

  datatype Role = CREATOR | PROVIDER

  datatype Kind = PROPOSE | COUNTER | ACCEPT | DECLINE

  function Other(r: Role): Role {
    if r.CREATOR? then PROVIDER else CREATOR
  }

  /**
   A price as the source carries it, text, beside the number BigInt reads in that
   text (None where BigInt throws). Read makes one from stored or posted text,
   ShowAmount from a number the code prints itself; such amounts are equal exactly
   when their texts are.
   */
  datatype Amount = Amount(text: string, number: Option<int>)

  function Read(text: string): Amount {
    Amount(text, BigIntOf(text))
  }

  function ShowAmount(n: int): Amount {
    Amount(ShowInt(n), Some(n))
  }

  const ZERO_AMOUNT := Amount("0", Some(0))

  /** An amount the code prints is the amount a reader of that text gets back. */
  lemma ReadOfShow(n: int)
    ensures Read(ShowInt(n)) == ShowAmount(n)
    ensures Read("0") == ZERO_AMOUNT == ShowAmount(0)
  {
    BigIntOfShowInt(n);
    BigIntOfShow(0);
    assert Show(0) == "0";
  }

  /** Who speaks at position i when turns alternate from CREATOR. */
  function Speaker(i: nat): Role {
    if i % 2 == 0 then CREATOR else PROVIDER
  }

  /** One message. */
  datatype Offer = Offer(
    jobId: string, agentId: string, role: Role, kind: Kind,
    price: Amount, note: string, seqNo: int, prevHash: Hash, expiresAt: int)

  datatype SignedOffer = SignedOffer(offer: Offer, signature: string, digest: Hash, signer: string)

  /** What EIP-712 actually hashes: the price is a number here. */
  datatype OfferStruct = OfferStruct(
    jobId: string, agentId: string, role: Role, kind: Kind,
    price: Option<int>, note: string, seqNo: int, prevHash: Hash, expiresAt: int)

  datatype Agreement = Agreement(
    jobId: string, creatorAgentId: string, providerAgentId: string, providerWallet: string,
    price: int, requirementsHash: Hash, executionWindow: int, transcriptHash: Hash, expiry: int)

  /** Texts and numbers the encoder takes: uint128 price, uint32 seq, uint64 expiry. */
  predicate Encodable(o: Offer) {
    && o.price.text != "" && o.price.number.Some?
    && 0 <= o.price.number.value < 0x1_0000_0000_0000_0000_0000_0000_0000_0000
    && 0 <= o.seqNo < 0x1_0000_0000
    && 0 <= o.expiresAt < 0x1_0000_0000_0000_0000
  }

  ghost predicate AllEncodable(ms: seq<SignedOffer>) {
    forall i :: 0 <= i < |ms| ==> Encodable(ms[i].offer)
  }

  function Struct(o: Offer): OfferStruct {
    OfferStruct(o.jobId, o.agentId, o.role, o.kind, o.price.number, o.note, o.seqNo, o.prevHash, o.expiresAt)
  }

  /** An EIP-712 domain fixes the two digests; the hash functions themselves are arbitrary. */
  datatype Domain = Domain(offerHash: OfferStruct -> Hash, agreementHash: Agreement -> Hash) {
    function OfferDigest(o: Offer): Hash {
      offerHash(Struct(o))
    }
  }

  // ── Derived state ─────────────────────────────────────────────────────────

  datatype State = OPEN | AGREED | DECLINED | EXPIRED

  datatype View = View(
    state: State, turn: Option<Role>, lastOffer: Option<SignedOffer>,
    agreedPrice: Option<Amount>, transcriptHash: Hash, messageCount: nat)

  function DeriveState(ms: seq<SignedOffer>, now: int): View {
    if |ms| == 0 then View(OPEN, Some(CREATOR), None, None, ZERO_HASH, 0)
    else
      var last := ms[|ms| - 1];
      if last.offer.kind.DECLINE? then
        View(DECLINED, None, Some(last), None, last.digest, |ms|)
      else if last.offer.kind.ACCEPT? then
        View(AGREED, None, Some(last), Some(last.offer.price), last.digest, |ms|)
      else if last.offer.expiresAt > 0 && now > last.offer.expiresAt then
        View(EXPIRED, None, Some(last), None, last.digest, |ms|)
      else
        View(OPEN, Some(Other(last.offer.role)), Some(last), None, last.digest, |ms|)
  }

  // ── The validator ─────────────────────────────────────────────────────────

  datatype Rejection =
    | NotOpen(state: State)
    | TooManyMessages
    | WrongSeq
    | BrokenLink
    | OutOfTurn
    | ExpiresInPast
    | MustOpenWithPropose
    | ProposeAfterOpening
    | DeclineNamesPrice
    | NotANumber
    | OutsideBudget
    | NothingToAccept
    | AcceptPriceDiffers

  datatype Check = Accepted | Rejected(why: Rejection)

  /** The job's on-chain range, already parsed. */
  datatype Budget = Budget(min: nat, max: nat)

  predicate InBudget(o: Offer, b: Budget) {
    o.price.number.Some? && b.min <= o.price.number.value <= b.max
  }

  /** Digest of the last message, as recorded; what the next message must link to. */
  function TipDigest(ms: seq<SignedOffer>): Hash {
    if |ms| == 0 then ZERO_HASH else ms[|ms| - 1].digest
  }

  function CheckNext(ms: seq<SignedOffer>, next: Offer, b: Budget, now: int): Check {
    var view := DeriveState(ms, now);
    if !view.state.OPEN? then Rejected(NotOpen(view.state))
    else if |ms| >= MAX_MESSAGES then Rejected(TooManyMessages)
    else if next.seqNo != |ms| then Rejected(WrongSeq)
    else if next.prevHash != TipDigest(ms) then Rejected(BrokenLink)
    else if view.turn.Some? && next.role != view.turn.value then Rejected(OutOfTurn)
    else if next.expiresAt > 0 && next.expiresAt <= now then Rejected(ExpiresInPast)
    else if |ms| == 0 && !next.kind.PROPOSE? then Rejected(MustOpenWithPropose)
    else if |ms| != 0 && next.kind.PROPOSE? then Rejected(ProposeAfterOpening)
    else if next.kind.DECLINE? then
      (if next.price != ZERO_AMOUNT then Rejected(DeclineNamesPrice) else Accepted)
    else
      match next.price.number
      case None => Rejected(NotANumber)
      case Some(price) =>
        if price < b.min || price > b.max then Rejected(OutsideBudget)
        else if !next.kind.ACCEPT? then Accepted
        else if view.lastOffer.None? then Rejected(NothingToAccept)
        else if next.price != view.lastOffer.value.offer.price then Rejected(AcceptPriceDiffers)
        else Accepted
  }

  /** Fill in the chain fields of the next offer; a DECLINE always names price "0". */
  function BuildNextOffer(
    ms: seq<SignedOffer>, jobId: string, agentId: string, role: Role, kind: Kind,
    price: Amount, note: string, ttl: int, now: int
  ): Offer {
    Offer(jobId, agentId, role, kind, if kind.DECLINE? then ZERO_AMOUNT else price, note, |ms|, TipDigest(ms),
          now + ttl)
  }

  // ── Recomputing the chain ─────────────────────────────────────────────────

  datatype Fault = OutOfOrder | ChainBroken | ContentAltered

  datatype Issue = Issue(seqNo: int, fault: Fault)

  /** The digest message i must point back to, recomputed from contents. */
  function ExpectedPrev(d: Domain, ms: seq<SignedOffer>, i: nat): Hash
    requires i <= |ms|
  {
    if i == 0 then ZERO_HASH else d.OfferDigest(ms[i - 1].offer)
  }

  /** Digest of the final message, recomputed; commits every message before it. */
  function TranscriptHash(d: Domain, ms: seq<SignedOffer>): Hash {
    ExpectedPrev(d, ms, |ms|)
  }

  /** The chain is intact: numbered in order, each linked to the one before, nothing edited. */
  ghost predicate Intact(d: Domain, ms: seq<SignedOffer>) {
    forall i :: 0 <= i < |ms| ==> IntactAt(d, ms, i)
  }

  ghost predicate IntactAt(d: Domain, ms: seq<SignedOffer>, i: nat)
    requires i < |ms|
  {
    && ms[i].offer.seqNo == i
    && ms[i].offer.prevHash == ExpectedPrev(d, ms, i)
    && ms[i].digest == d.OfferDigest(ms[i].offer)
  }

  function IssuesAt(d: Domain, ms: seq<SignedOffer>, i: nat): seq<Issue>
    requires i < |ms|
  {
    var o := ms[i].offer;
    (if o.seqNo != i then [Issue(o.seqNo, OutOfOrder)] else []) +
    (if o.prevHash != ExpectedPrev(d, ms, i) then [Issue(o.seqNo, ChainBroken)] else []) +
    (if d.OfferDigest(o) != ms[i].digest then [Issue(o.seqNo, ContentAltered)] else [])
  }

  function IssuesUpTo(d: Domain, ms: seq<SignedOffer>, n: nat): seq<Issue>
    requires n <= |ms|
  {
    if n == 0 then [] else IssuesUpTo(d, ms, n - 1) + IssuesAt(d, ms, n - 1)
  }

  lemma {:induction false} NoIssuesMeansIntact(d: Domain, ms: seq<SignedOffer>, n: nat)
    requires n <= |ms|
    ensures IssuesUpTo(d, ms, n) == [] <==> forall i :: 0 <= i < n ==> IntactAt(d, ms, i)
  {
    if n > 0 {
      NoIssuesMeansIntact(d, ms, n - 1);
      assert IssuesAt(d, ms, n - 1) == [] <==> IntactAt(d, ms, n - 1);
    }
  }

  /**
   Rebuild the chain from contents. The verdict is exactly Intact, the issue list
   names every fault in message order, and the hash returned is recomputed, never
   the stored one. The exception of an offer the encoder refuses is None.
   */
  method VerifyTranscript(d: Domain, ms: seq<SignedOffer>)
    returns (r: Option<(bool, seq<Issue>, Hash)>)
    ensures r.Some? <==> AllEncodable(ms)
    ensures r.Some? ==> (r.value.0 <==> Intact(d, ms))
    ensures r.Some? ==> r.value.1 == IssuesUpTo(d, ms, |ms|)
    ensures r.Some? ==> r.value.2 == TranscriptHash(d, ms)
  {
    var issues: seq<Issue> := [];
    var expectedPrev := ZERO_HASH;
    var lastDigest := ZERO_HASH;
    for index := 0 to |ms|
      invariant forall i :: 0 <= i < index ==> Encodable(ms[i].offer)
      invariant expectedPrev == lastDigest == ExpectedPrev(d, ms, index)
      invariant issues == IssuesUpTo(d, ms, index)
    {
      var message := ms[index];
      ghost var before := issues;
      if message.offer.seqNo != index {
        issues := issues + [Issue(message.offer.seqNo, OutOfOrder)];
      }
      if message.offer.prevHash != expectedPrev {
        issues := issues + [Issue(message.offer.seqNo, ChainBroken)];
      }
      if !Encodable(message.offer) {
        return None;
      }
      var recomputed := d.OfferDigest(message.offer);
      if recomputed != message.digest {
        issues := issues + [Issue(message.offer.seqNo, ContentAltered)];
      }
      assert issues == before + IssuesAt(d, ms, index);
      expectedPrev := recomputed;
      lastDigest := recomputed;
    }
    NoIssuesMeansIntact(d, ms, |ms|);
    return Some((issues == [], issues, lastDigest));
  }

  // ── Reachable transcripts ─────────────────────────────────────────────────

  /** Message i passed the validator at time at[i], was encodable, and carries its own digest. */
  ghost predicate PlayedAt(d: Domain, ms: seq<SignedOffer>, b: Budget, at: seq<int>, i: nat)
    requires |at| == |ms| && i < |ms|
  {
    && CheckNext(ms[..i], ms[i].offer, b, at[i]).Accepted?
    && Encodable(ms[i].offer)
    && ms[i].digest == d.OfferDigest(ms[i].offer)
  }

  ghost predicate Played(d: Domain, ms: seq<SignedOffer>, b: Budget, at: seq<int>) {
    |at| == |ms| && forall i :: 0 <= i < |ms| ==> PlayedAt(d, ms, b, at, i)
  }

  /** Plays of the same prefix agree message by message. */
  lemma PlayedAtPrefix(d: Domain, xs: seq<SignedOffer>, ys: seq<SignedOffer>, b: Budget, ts: seq<int>, us: seq<int>,
                       i: nat)
    requires |ts| == |xs| && |us| == |ys| && i < |xs| && i < |ys|
    requires xs[..i + 1] == ys[..i + 1] && ts[i] == us[i]
    ensures PlayedAt(d, xs, b, ts, i) == PlayedAt(d, ys, b, us, i)
  {
    assert xs[i] == xs[..i + 1][i] == ys[..i + 1][i] == ys[i];
    assert xs[..i] == xs[..i + 1][..i] == ys[..i + 1][..i] == ys[..i];
  }

  /** Appending one validated message extends a play by one step. */
  lemma PlayedExtends(d: Domain, ms: seq<SignedOffer>, m: SignedOffer, b: Budget, at: seq<int>, now: int)
    requires Played(d, ms, b, at)
    requires CheckNext(ms, m.offer, b, now).Accepted? && Encodable(m.offer) && m.digest == d.OfferDigest(m.offer)
    ensures Played(d, ms + [m], b, at + [now])
  {
    hide CheckNext;
    var xs, ts := ms + [m], at + [now];
    forall i | 0 <= i < |xs|
      ensures PlayedAt(d, xs, b, ts, i)
    {
      if i < |ms| {
        assert xs[..i + 1] == ms[..i + 1];
        PlayedAtPrefix(d, xs, ms, b, ts, at, i);
      } else {
        assert xs[..i] == ms;
      }
    }
  }

  /** What the validator forces on the step from message i - 1 to message i. */
  ghost predicate Follows(ms: seq<SignedOffer>, b: Budget, i: nat)
    requires i < |ms|
  {
    var o := ms[i].offer;
    && i < MAX_MESSAGES && o.seqNo == i
    && (if o.kind.DECLINE? then o.price == ZERO_AMOUNT else InBudget(o, b))
    && if i == 0 then
         o.role.CREATOR? && o.kind.PROPOSE? && o.prevHash == ZERO_HASH
       else
         var p := ms[i - 1];
         && !p.offer.kind.ACCEPT? && !p.offer.kind.DECLINE?
         && o.role == Other(p.offer.role) && !o.kind.PROPOSE?
         && o.prevHash == p.digest
         && (o.kind.ACCEPT? ==> o.price == p.offer.price)
  }

  lemma PlayedFollows(d: Domain, ms: seq<SignedOffer>, b: Budget, at: seq<int>, i: nat)
    requires Played(d, ms, b, at) && i < |ms|
    ensures Follows(ms, b, i)
  {
    assert PlayedAt(d, ms, b, at, i);
    if i > 0 {
      assert ms[..i][|ms[..i]| - 1] == ms[i - 1];
    }
  }

  lemma {:induction false} RolesAlternate(ms: seq<SignedOffer>, b: Budget, i: nat)
    requires i < |ms| && forall j :: 0 <= j <= i ==> Follows(ms, b, j)
    ensures ms[i].offer.role == Speaker(i)
  {
    assert Follows(ms, b, i);
    if i > 0 {
      RolesAlternate(ms, b, i - 1);
    }
  }

  ghost predicate WellFormedAt(ms: seq<SignedOffer>, b: Budget, i: nat)
    requires i < |ms|
  {
    var o := ms[i].offer;
    && o.role == Speaker(i)
    && (o.kind.PROPOSE? <==> i == 0)
    && (o.kind.ACCEPT? || o.kind.DECLINE? ==> i == |ms| - 1)
    && (if o.kind.DECLINE? then o.price == ZERO_AMOUNT else InBudget(o, b))
    && (o.kind.ACCEPT? ==> i > 0 && o.price == ms[i - 1].offer.price)
  }

  /**
   Roles alternate from CREATOR, PROPOSE opens and only opens, ACCEPT and DECLINE
   only close, every price named is in budget, an ACCEPT repeats the other party's
   last price, and there are at most twenty messages.
   */
  ghost predicate WellFormed(ms: seq<SignedOffer>, b: Budget) {
    && |ms| <= MAX_MESSAGES
    && forall i :: 0 <= i < |ms| ==> WellFormedAt(ms, b, i)
  }

  lemma ReachableFollows(d: Domain, ms: seq<SignedOffer>, b: Budget, at: seq<int>)
    requires Played(d, ms, b, at)
    ensures forall i :: 0 <= i < |ms| ==> Follows(ms, b, i)
    ensures forall i :: 0 <= i < |ms| ==> ms[i].digest == d.OfferDigest(ms[i].offer)
  {
    hide CheckNext;
    forall i | 0 <= i < |ms|
      ensures Follows(ms, b, i)
      ensures ms[i].digest == d.OfferDigest(ms[i].offer)
    {
      PlayedFollows(d, ms, b, at, i);
      assert PlayedAt(d, ms, b, at, i);
    }
  }

  lemma FollowsIntact(d: Domain, ms: seq<SignedOffer>, b: Budget)
    requires forall i :: 0 <= i < |ms| ==> Follows(ms, b, i)
    requires forall i :: 0 <= i < |ms| ==> ms[i].digest == d.OfferDigest(ms[i].offer)
    ensures Intact(d, ms) && TranscriptHash(d, ms) == TipDigest(ms)
  {
    forall i | 0 <= i < |ms|
      ensures IntactAt(d, ms, i)
    {
      assert Follows(ms, b, i);
    }
  }

  /** Every transcript the validator can let grow is well formed and verifies. */
  lemma ReachableIsWellFormed(d: Domain, ms: seq<SignedOffer>, b: Budget, at: seq<int>)
    requires Played(d, ms, b, at)
    ensures WellFormed(ms, b)
    ensures Intact(d, ms) && TranscriptHash(d, ms) == TipDigest(ms)
  {
    hide CheckNext;
    ReachableFollows(d, ms, b, at);
    FollowsIntact(d, ms, b);
    forall i | 0 <= i < |ms|
      ensures WellFormedAt(ms, b, i)
    {
      RolesAlternate(ms, b, i);
      assert Follows(ms, b, i);
      assert i + 1 < |ms| ==> Follows(ms, b, i + 1);
    }
    assert |ms| > 0 ==> Follows(ms, b, |ms| - 1);
  }

  /** Message i was sent before it expired, and before the message it answers did. */
  predicate InTime(ms: seq<SignedOffer>, at: seq<int>, i: nat)
    requires i < |ms| && i < |at|
  {
    && (ms[i].offer.expiresAt > 0 ==> at[i] < ms[i].offer.expiresAt)
    && (i > 0 && ms[i - 1].offer.expiresAt > 0 ==> at[i] <= ms[i - 1].offer.expiresAt)
  }

  lemma InTimeAndWellFormed(d: Domain, ms: seq<SignedOffer>, b: Budget, at: seq<int>, i: nat)
    requires i < |ms| == |at| && WellFormed(ms, b) && Intact(d, ms) && AllEncodable(ms) && InTime(ms, at, i)
    ensures PlayedAt(d, ms, b, at, i)
  {
    assert WellFormedAt(ms, b, i) && IntactAt(d, ms, i);
    if i > 0 {
      assert WellFormedAt(ms, b, i - 1) && IntactAt(d, ms, i - 1);
      assert ms[..i][|ms[..i]| - 1] == ms[i - 1];
    }
  }

  /**
   The validator lets grow exactly the well-formed, intact, encodable transcripts
   whose messages came in time: nothing else passes and none of these is refused.
   */
  lemma ReachableExactly(d: Domain, ms: seq<SignedOffer>, b: Budget, at: seq<int>)
    ensures Played(d, ms, b, at) <==>
      |at| == |ms| && WellFormed(ms, b) && Intact(d, ms) && AllEncodable(ms)
      && forall i :: 0 <= i < |ms| ==> InTime(ms, at, i)
  {
    if Played(d, ms, b, at) {
      ReachableIsWellFormed(d, ms, b, at);
      forall i | 0 <= i < |ms|
        ensures InTime(ms, at, i) && Encodable(ms[i].offer)
      {
        assert PlayedAt(d, ms, b, at, i);
        assert i > 0 ==> ms[..i][|ms[..i]| - 1] == ms[i - 1];
      }
    }
    if |at| == |ms| && WellFormed(ms, b) && Intact(d, ms) && AllEncodable(ms)
       && forall i :: 0 <= i < |ms| ==> InTime(ms, at, i) {
      hide CheckNext;
      forall i | 0 <= i < |ms|
        ensures PlayedAt(d, ms, b, at, i)
      {
        InTimeAndWellFormed(d, ms, b, at, i);
      }
    }
  }

  /**
   A closed negotiation stays closed and stays as it is: no message that the
   validator sees at or after the time of closing is ever added to it.
   */
  lemma ClosedNeverReopens(
    d: Domain, ms: seq<SignedOffer>, b: Budget, at: seq<int>, n: nat, closedAt: int, now: int)
    requires Played(d, ms, b, at) && n <= |ms|
    requires forall i :: n <= i < |ms| ==> closedAt <= at[i]
    requires !DeriveState(ms[..n], closedAt).state.OPEN? && closedAt <= now
    ensures |ms| == n
    ensures DeriveState(ms, now) == DeriveState(ms[..n], closedAt)
  {
    assert n < |ms| ==> PlayedAt(d, ms, b, at, n);
    assert ms[..|ms|] == ms;
  }

  // ── How a negotiation stands ──────────────────────────────────────────────

  /**
   The outcome of a negotiation the validator let grow, told by its last message:
   an ACCEPT by either party agrees on the price the other named before it, a
   DECLINE ends it without one, and otherwise it waits for the party that did not
   speak last until that message runs out.
   */
  lemma {:induction false} OutcomeIsLastWord(d: Domain, ms: seq<SignedOffer>, b: Budget, at: seq<int>, now: int)
    requires Played(d, ms, b, at)
    ensures
      var v := DeriveState(ms, now);
      && (v.state.AGREED? <==> |ms| > 1 && ms[|ms| - 1].offer.kind.ACCEPT?)
      && (v.state.AGREED? ==> v.agreedPrice == Some(ms[|ms| - 2].offer.price))
      && (v.state.DECLINED? <==> |ms| > 1 && ms[|ms| - 1].offer.kind.DECLINE?)
      && (v.state.EXPIRED? <==>
            ms != [] && (ms[|ms| - 1].offer.kind.PROPOSE? || ms[|ms| - 1].offer.kind.COUNTER?)
            && 0 < ms[|ms| - 1].offer.expiresAt < now)
      && (v.turn == Some(CREATOR) <==> v.state.OPEN? && |ms| % 2 == 0)
      && (v.turn == Some(PROVIDER) <==> v.state.OPEN? && |ms| % 2 == 1)
      && (v.agreedPrice.Some? <==> v.state.AGREED?)
      && v.messageCount == |ms| && v.transcriptHash == TranscriptHash(d, ms)
  {
    hide CheckNext;
    ReachableIsWellFormed(d, ms, b, at);
    if ms != [] {
      assert WellFormedAt(ms, b, |ms| - 1);
    }
  }

  /** Message i has the named fault. */
  ghost predicate HasFault(d: Domain, ms: seq<SignedOffer>, i: nat, fault: Fault)
    requires i < |ms|
  {
    match fault
    case OutOfOrder => ms[i].offer.seqNo != i
    case ChainBroken => ms[i].offer.prevHash != (if i == 0 then 0 else d.OfferDigest(ms[i - 1].offer))
    case ContentAltered => ms[i].digest != d.OfferDigest(ms[i].offer)
  }

  /** The issue list reports a fault under a number if and only if a message of that number has it. */
  lemma {:induction false} IssuesNameFaults(d: Domain, ms: seq<SignedOffer>, n: nat, seqNo: int, fault: Fault)
    requires n <= |ms|
    ensures Issue(seqNo, fault) in IssuesUpTo(d, ms, n)
       <==> exists i :: 0 <= i < n && ms[i].offer.seqNo == seqNo && HasFault(d, ms, i, fault)
  {
    if n > 0 {
      IssuesNameFaults(d, ms, n - 1, seqNo, fault);
      assert Issue(seqNo, fault) in IssuesAt(d, ms, n - 1)
        <==> ms[n - 1].offer.seqNo == seqNo && HasFault(d, ms, n - 1, fault);
    }
  }

  /** What is signed and hashed of an offer is each of its fields, in its own place, the price as a number. */
  lemma {:induction false} DigestCoversOffer(d: Domain, o: Offer)
    ensures d.OfferDigest(o) == d.offerHash(
      OfferStruct(o.jobId, o.agentId, o.role, o.kind, o.price.number, o.note, o.seqNo, o.prevHash, o.expiresAt))
  {
  }

  /** A refusal names a fault the offer really has. */
  lemma {:induction false} RefusalIsTrue(ms: seq<SignedOffer>, next: Offer, b: Budget, now: int)
    ensures
      match CheckNext(ms, next, b, now)
      case Accepted => true
      case Rejected(why) =>
        match why
        case NotOpen(state) =>
          ms != [] && !state.OPEN?
          && (state.AGREED? <==> ms[|ms| - 1].offer.kind.ACCEPT?)
          && (state.DECLINED? <==> ms[|ms| - 1].offer.kind.DECLINE?)
        case TooManyMessages => |ms| >= 20
        case WrongSeq => next.seqNo != |ms|
        case BrokenLink => next.prevHash != TipDigest(ms)
        case OutOfTurn => next.role == (if ms == [] then PROVIDER else ms[|ms| - 1].offer.role)
        case ExpiresInPast => 0 < next.expiresAt <= now
        case MustOpenWithPropose => ms == [] && !next.kind.PROPOSE?
        case ProposeAfterOpening => ms != [] && next.kind.PROPOSE?
        case DeclineNamesPrice => next.kind.DECLINE? && next.price != Amount("0", Some(0))
        case NotANumber => next.price.number.None?
        case OutsideBudget => next.price.number.Some? && !(b.min <= next.price.number.value <= b.max)
        case NothingToAccept => false
        case AcceptPriceDiffers => ms != [] && next.kind.ACCEPT? && next.price != ms[|ms| - 1].offer.price
  {
  }

  /** An offer that is built says what was asked for, and takes its place in the chain from the transcript. */
  lemma {:induction false} OfferIsFilledIn(
    ms: seq<SignedOffer>, jobId: string, agentId: string, role: Role, kind: Kind, price: Amount, note: string, ttl: int,
    now: int)
    ensures
      var o := BuildNextOffer(ms, jobId, agentId, role, kind, price, note, ttl, now);
      && o.jobId == jobId && o.agentId == agentId && o.role == role && o.kind == kind && o.note == note
      && o.price == (if kind.DECLINE? then Read("0") else price)
      && o.seqNo == |ms| && o.prevHash == (if ms == [] then 0 else ms[|ms| - 1].digest)
      && o.expiresAt == now + ttl
  {
    ReadOfShow(0);
  }
}
