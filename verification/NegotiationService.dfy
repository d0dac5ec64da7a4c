/**
 The marketplace's negotiation row and its message rows, and the three service
 calls that change them. Stored rows are not trusted: only what the calls add is
 known to be sound.
 */
module NegotiationService {
  import opened Prelude
  import opened Decimal
  import opened Negotiation
  import opened HashChain
  import opened ProviderPolicy

  datatype AppendError =
    | TranscriptUnreadable
    | ChainInvalid(issues: seq<Issue>)
    | PolicyThrows
    | Refused(why: Rejection)
    | SigningFailed

  datatype AgreeError = Unsigned(why: SignError) | DigestMismatch

  /** The signing service's answer beyond the digest, which is the offer's own. */
  datatype Signature = Signature(bytes: string, signer: string)

  class Thread {
    const domain: Domain
    const terms: Terms
    const budget: Budget

    var messages: seq<SignedOffer>
    var state: State
    var agreedPrice: Option<Amount>
    var transcriptHash: Option<Hash>
    var agreementHash: Option<Hash>
    var agreementExpiry: Option<int>

    /** When each message passed the validator. */
    ghost var at: seq<int>

    constructor (domain: Domain, terms: Terms, budget: Budget)
      ensures this.domain == domain && this.terms == terms && this.budget == budget
      ensures messages == [] && state.OPEN? && agreedPrice.None? && agreementHash.None?
      ensures Sound()
    {
      this.domain, this.terms, this.budget := domain, terms, budget;
      messages, state := [], OPEN;
      agreedPrice, transcriptHash, agreementHash, agreementExpiry := None, None, None, None;
      at := [];
    }

    /** The stored transcript is one the validator let grow. */
    ghost predicate Sound()
      reads this
    {
      Played(domain, messages, budget, at)
    }

    /** As Sound, with every PROVIDER message played by one fixed policy. */
    ghost predicate Bargained(p: Policy)
      reads this
    {
      PolicyPlay(domain, messages, budget, at, p)
    }

    function NextOffer(role: Role, kind: Kind, price: Amount, note: string, ttl: int, builtAt: int): Offer
      reads this
    {
      BuildNextOffer(messages, terms.jobId,
                     if role.CREATOR? then terms.creatorAgentId else terms.providerAgentId,
                     role, kind, price, note, ttl, builtAt)
    }

    /**
     Verify what is stored, validate, sign, persist. A failed call changes nothing;
     a call succeeds exactly when the stored chain is intact, the validator accepts
     and the encoder can hash the offer; then the row is the view of the new transcript.
     */
    method AppendOffer(
      role: Role, kind: Kind, price: string, note: string, ttl: int,
      builtAt: int, checkedAt: int, viewedAt: int, sig: Signature
    ) returns (r: Result<(), AppendError>)
      modifies this
      ensures r.Ok? <==>
        && old(AllEncodable(messages)) && old(Intact(domain, messages))
        && CheckNext(old(messages), old(NextOffer(role, kind, Read(price), note, ttl, builtAt)), budget,
                     checkedAt).Accepted?
        && Encodable(old(NextOffer(role, kind, Read(price), note, ttl, builtAt)))
      ensures r.Err? ==> unchanged(this)
      ensures r.Ok? ==>
        var o := old(NextOffer(role, kind, Read(price), note, ttl, builtAt));
        messages == old(messages) + [SignedOffer(o, sig.bytes, domain.OfferDigest(o), sig.signer)]
        && at == old(at) + [checkedAt]
      ensures r.Ok? ==>
        var o := messages[|messages| - 1].offer;
        && o.jobId == terms.jobId && o.role == role && o.kind == kind && o.note == note
        && o.agentId == (if role.CREATOR? then terms.creatorAgentId else terms.providerAgentId)
        && o.price.text == (if kind.DECLINE? then "0" else price)
        && o.seqNo == |old(messages)| && o.expiresAt == builtAt + ttl
        && o.prevHash == (if |old(messages)| == 0 then 0 else old(messages)[|old(messages)| - 1].digest)
      ensures r.Ok? ==>
        var v := DeriveState(messages, viewedAt);
        state == v.state && agreedPrice == v.agreedPrice && transcriptHash == Some(v.transcriptHash)
      ensures agreementHash == old(agreementHash) && agreementExpiry == old(agreementExpiry)
      ensures old(Sound()) ==> Sound()
    {
      var verified := VerifyTranscript(domain, messages);
      if verified.None? {
        return Err(TranscriptUnreadable);
      }
      if !verified.value.0 {
        return Err(ChainInvalid(verified.value.1));
      }
      var offer := NextOffer(role, kind, Read(price), note, ttl, builtAt);
      var check := CheckNext(messages, offer, budget, checkedAt);
      if check.Rejected? {
        return Err(Refused(check.why));
      }
      if !Encodable(offer) {
        return Err(SigningFailed);
      }
      var m := SignedOffer(offer, sig.bytes, domain.OfferDigest(offer), sig.signer);
      if Sound() {
        PlayedExtends(domain, messages, m, budget, at, checkedAt);
      }
      messages, at := messages + [m], at + [checkedAt];
      var view := DeriveState(messages, viewedAt);
      state, agreedPrice, transcriptHash := view.state, view.agreedPrice, Some(view.transcriptHash);
      return Ok(());
    }

    /** A creator's message, whatever it says, leaves the run a run of the policy. */
    method CreatorOffer(
      ghost p: Policy, kind: Kind, price: string, note: string, ttl: int,
      builtAt: int, checkedAt: int, viewedAt: int, sig: Signature
    ) returns (r: Result<(), AppendError>)
      requires Bargained(p)
      modifies this
      ensures Bargained(p)
      ensures r.Ok? <==>
        && old(AllEncodable(messages)) && old(Intact(domain, messages))
        && CheckNext(old(messages), old(NextOffer(CREATOR, kind, Read(price), note, ttl, builtAt)), budget, checkedAt)
             .Accepted?
        && Encodable(old(NextOffer(CREATOR, kind, Read(price), note, ttl, builtAt)))
      ensures r.Ok? ==>
        && |messages| == |old(messages)| + 1 && messages[..|old(messages)|] == old(messages)
        && messages[|old(messages)|].offer == old(NextOffer(CREATOR, kind, Read(price), note, ttl, builtAt))
      ensures r.Err? ==> unchanged(this)
    {
      ghost var before := messages;
      r := AppendOffer(CREATOR, kind, price, note, ttl, builtAt, checkedAt, viewedAt, sig);
      if r.Ok? {
        CreatorSpeaksOnEven(domain, messages, budget, at);
        PolicyPlayKeeps(before, messages, budget, p);
      }
    }

    /**
     The autonomous move. It plays what the policy decides on the stored transcript,
     so a run of the policy stays one; on a refusal nothing is stored.
     */
    method ProviderRespond(
      p: Policy, note: string, builtAt: int, checkedAt: int, viewedAt: int, sig: Signature
    ) returns (r: Result<Decision, AppendError>)
      modifies this
      ensures r.Ok? <==>
        && Decide(old(messages), p, budget).Some?
        && old(AllEncodable(messages)) && old(Intact(domain, messages))
        && var o := PolicyOffer(old(messages), Decide(old(messages), p, budget).value, terms.jobId,
                                terms.providerAgentId, note, builtAt);
           CheckNext(old(messages), o, budget, checkedAt).Accepted? && Encodable(o)
      ensures r.Ok? ==> Some(r.value) == Decide(old(messages), p, budget)
      ensures r.Ok? ==>
        && |messages| == |old(messages)| + 1
        && messages[..|old(messages)|] == old(messages)
        && messages[|old(messages)|].offer.role.PROVIDER?
        && PolicyAt(messages, budget, p, |old(messages)|)
      ensures r.Ok? ==>
        messages[|old(messages)|].offer.agentId == terms.providerAgentId
        && messages[|old(messages)|].offer.expiresAt == builtAt + 3600
      ensures r.Ok? && old(messages) != [] ==>
        RightReply(old(messages), p, budget, messages[|old(messages)|].offer)
      ensures r.Err? ==> unchanged(this)
      ensures Decide(old(messages), p, budget).None? ==> r == Err(PolicyThrows)
      ensures old(Bargained(p)) ==> Bargained(p)
    {
      ghost var before := messages;
      var decision := Decide(messages, p, budget);
      if decision.None? {
        return Err(PolicyThrows);
      }
      var d := decision.value;
      var price := if d.Decline? then "0" else ShowInt(d.price);
      ReadOfShow(if d.Decline? then 0 else d.price);
      var kind := MoveKind(messages, d);
      var appended := AppendOffer(PROVIDER, kind, price, note, DEFAULT_TTL_SECONDS, builtAt, checkedAt, viewedAt, sig);
      if appended.Err? {
        return Err(appended.error);
      }
      assert messages[..|before|] == before;
      if before != [] {
        ReplyIsRight(before, p, budget, messages[|before|].offer);
      }
      if PolicyPlayUpTo(before, budget, p) {
        PolicyPlayKeeps(before, messages, budget, p);
      }
      return Ok(d);
    }

    /**
     Both agents sign the agreed terms. The agreement is exactly the one the
     transcript fixes, and its digest is what gets stored.
     */
    method SignAgreement(now: int, creatorDigest: Hash, providerDigest: Hash)
      returns (r: Result<Agreement, AgreeError>)
      modifies this`agreementHash, this`agreementExpiry
      ensures r.Ok? ==> SignedAgreement(domain, terms, messages, now) == Ok(r.value)
      ensures r.Ok? ==>
        && r.value.jobId == terms.jobId
        && r.value.creatorAgentId == terms.creatorAgentId && r.value.providerAgentId == terms.providerAgentId
        && r.value.providerWallet == terms.providerWallet
        && r.value.requirementsHash == terms.requirementsHash
        && r.value.executionWindow == terms.executionWindow
        && r.value.expiry == now + 86400
      ensures r.Ok? ==>
        && messages != [] && messages[|messages| - 1].offer.kind.ACCEPT?
        && Some(r.value.price) == messages[|messages| - 1].offer.price.number
        && r.value.transcriptHash == TranscriptHash(domain, messages)
      ensures r.Ok? || r == Err(DigestMismatch) <==>
        && Intact(domain, messages) && AllEncodable(messages)
        && messages != [] && messages[|messages| - 1].offer.kind.ACCEPT?
      ensures r.Ok? ==>
        && agreementHash == Some(domain.agreementHash(r.value))
        && creatorDigest == providerDigest == domain.agreementHash(r.value)
        && agreementExpiry == Some(now + AGREEMENT_TTL_SECONDS)
      ensures r.Err? ==> unchanged(this)
      ensures r.Err? && r.error.Unsigned? <==> SignedAgreement(domain, terms, messages, now).Err?
    {
      SignsExactly(domain, terms, messages, now);
      var verified := VerifyTranscript(domain, messages);
      if verified.None? || !verified.value.0 {
        return Err(Unsigned(TranscriptInvalid));
      }
      var view := DeriveState(messages, now);
      if !view.state.AGREED? || view.agreedPrice.value.text == "" {
        return Err(Unsigned(NothingAgreed(view.state)));
      }
      assert Encodable(messages[|messages| - 1].offer);
      var agreement := Agreement(
        terms.jobId, terms.creatorAgentId, terms.providerAgentId, terms.providerWallet,
        view.agreedPrice.value.number.value, terms.requirementsHash, terms.executionWindow,
        view.transcriptHash, now + AGREEMENT_TTL_SECONDS);
      AgreementNamesTranscript(domain, terms, messages, now);
      var expected := domain.agreementHash(agreement);
      if creatorDigest != expected || providerDigest != expected {
        return Err(DigestMismatch);
      }
      agreementHash, agreementExpiry := Some(expected), Some(agreement.expiry);
      return Ok(agreement);
    }
  }

  ghost predicate PolicyPlayUpTo(ms: seq<SignedOffer>, b: Budget, p: Policy) {
    forall i :: 0 <= i < |ms| && i % 2 == 1 ==> PolicyAt(ms, b, p, i)
  }

  lemma CreatorSpeaksOnEven(d: Domain, ms: seq<SignedOffer>, b: Budget, at: seq<int>)
    requires Played(d, ms, b, at) && |ms| > 0
    ensures ms[|ms| - 1].offer.role.CREATOR? <==> |ms| % 2 == 1
  {
    ReachableIsWellFormed(d, ms, b, at);
    assert WellFormedAt(ms, b, |ms| - 1);
  }

  /** One more message keeps the run a policy run if it is the creator's or the policy's. */
  lemma PolicyPlayKeeps(before: seq<SignedOffer>, ms: seq<SignedOffer>, b: Budget, p: Policy)
    requires |ms| == |before| + 1 && ms[..|before|] == before && PolicyPlayUpTo(before, b, p)
    requires |before| % 2 == 0 || PolicyAt(ms, b, p, |before|)
    ensures PolicyPlayUpTo(ms, b, p)
  {
    forall i | 0 <= i < |ms| && i % 2 == 1
      ensures PolicyAt(ms, b, p, i)
    {
      if i < |before| {
        assert PolicyAt(before, b, p, i);
        assert before[..i] == ms[..i] && before[i] == ms[i];
      }
    }
  }
}
