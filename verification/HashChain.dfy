/**
 What the hash chain binds. Nothing is assumed of the hash function: two
 transcripts that verify under one transcript hash either carry the same offers
 or themselves contain a collision or a preimage of the zero hash.
 */
module HashChain {
  import opened Prelude
  import opened Negotiation

  /** Equal offers in equal order, a price counting as the number it denotes. */
  ghost predicate SameOffers(xs: seq<SignedOffer>, ys: seq<SignedOffer>) {
    && |xs| == |ys|
    && forall i :: 0 <= i < |xs| ==> Struct(xs[i].offer) == Struct(ys[i].offer)
  }

  /** Two different offers, one from each transcript, with one digest. */
  ghost predicate Clash(d: Domain, xs: seq<SignedOffer>, ys: seq<SignedOffer>) {
    exists i, j :: 0 <= i < |xs| && 0 <= j < |ys| && ClashAt(d, xs[i].offer, ys[j].offer)
  }

  predicate ClashAt(d: Domain, x: Offer, y: Offer) {
    Struct(x) != Struct(y) && d.OfferDigest(x) == d.OfferDigest(y)
  }

  /** Some offer of the transcript hashes to the reserved zero hash. */
  ghost predicate HitsZero(d: Domain, ms: seq<SignedOffer>) {
    exists i :: 0 <= i < |ms| && d.OfferDigest(ms[i].offer) == ZERO_HASH
  }

  ghost predicate HashBroken(d: Domain, xs: seq<SignedOffer>, ys: seq<SignedOffer>) {
    Clash(d, xs, ys) || HitsZero(d, xs) || HitsZero(d, ys)
  }

  lemma IntactPrefix(d: Domain, ms: seq<SignedOffer>, n: nat)
    requires Intact(d, ms) && n <= |ms|
    ensures Intact(d, ms[..n])
  {
    forall i | 0 <= i < n
      ensures IntactAt(d, ms[..n], i)
    {
      assert IntactAt(d, ms, i);
    }
  }

  /** A message may be dropped from the end of either transcript without hiding a fault of the hash. */
  lemma BrokenPrefix(d: Domain, xs: seq<SignedOffer>, ys: seq<SignedOffer>, m: nat, n: nat)
    requires m <= |xs| && n <= |ys| && HashBroken(d, xs[..m], ys[..n])
    ensures HashBroken(d, xs, ys)
  {
    if Clash(d, xs[..m], ys[..n]) {
      var i, j :| 0 <= i < m && 0 <= j < n && ClashAt(d, xs[..m][i].offer, ys[..n][j].offer);
      assert ClashAt(d, xs[i].offer, ys[j].offer);
    } else if HitsZero(d, xs[..m]) {
      var i :| 0 <= i < m && d.OfferDigest(xs[..m][i].offer) == ZERO_HASH;
      assert d.OfferDigest(xs[i].offer) == ZERO_HASH;
    } else {
      var j :| 0 <= j < n && d.OfferDigest(ys[..n][j].offer) == ZERO_HASH;
      assert d.OfferDigest(ys[j].offer) == ZERO_HASH;
    }
  }

  /**
   The transcript hash commits the whole negotiation: equal hashes of transcripts
   that verify mean equal offers in equal order, or an explicit fault of the hash.
   */
  lemma {:induction false} TranscriptBinding(d: Domain, xs: seq<SignedOffer>, ys: seq<SignedOffer>)
    requires Intact(d, xs) && Intact(d, ys)
    requires TranscriptHash(d, xs) == TranscriptHash(d, ys)
    ensures SameOffers(xs, ys) || HashBroken(d, xs, ys)
    decreases |xs|
  {
    if |xs| == 0 || |ys| == 0 {
      ZeroTip(d, xs);
      ZeroTip(d, ys);
    } else {
      var m, n := |xs| - 1, |ys| - 1;
      if Struct(xs[m].offer) != Struct(ys[n].offer) {
        assert ClashAt(d, xs[m].offer, ys[n].offer);
      } else {
        LinksAgree(d, xs, ys);
        IntactPrefix(d, xs, m);
        IntactPrefix(d, ys, n);
        TranscriptBinding(d, xs[..m], ys[..n]);
        if HashBroken(d, xs[..m], ys[..n]) {
          BrokenPrefix(d, xs, ys, m, n);
        } else {
          SameOffersExtend(xs, ys);
        }
      }
    }
  }

  lemma ZeroTip(d: Domain, ms: seq<SignedOffer>)
    ensures |ms| > 0 && TranscriptHash(d, ms) == ZERO_HASH ==> HitsZero(d, ms)
  {
    if |ms| > 0 && TranscriptHash(d, ms) == ZERO_HASH {
      assert d.OfferDigest(ms[|ms| - 1].offer) == ZERO_HASH;
    }
  }

  lemma LinksAgree(d: Domain, xs: seq<SignedOffer>, ys: seq<SignedOffer>)
    requires Intact(d, xs) && Intact(d, ys) && |xs| > 0 && |ys| > 0
    requires Struct(xs[|xs| - 1].offer) == Struct(ys[|ys| - 1].offer)
    ensures TranscriptHash(d, xs[..|xs| - 1]) == TranscriptHash(d, ys[..|ys| - 1])
  {
    var m, n := |xs| - 1, |ys| - 1;
    assert IntactAt(d, xs, m) && IntactAt(d, ys, n);
    assert ExpectedPrev(d, xs, m) == TranscriptHash(d, xs[..m]);
    assert ExpectedPrev(d, ys, n) == TranscriptHash(d, ys[..n]);
  }

  lemma SameOffersExtend(xs: seq<SignedOffer>, ys: seq<SignedOffer>)
    requires |xs| > 0 && |ys| > 0 && SameOffers(xs[..|xs| - 1], ys[..|ys| - 1])
    requires Struct(xs[|xs| - 1].offer) == Struct(ys[|ys| - 1].offer)
    ensures SameOffers(xs, ys)
  {
    forall i | 0 <= i < |xs|
      ensures Struct(xs[i].offer) == Struct(ys[i].offer)
    {
      if i < |xs| - 1 {
        assert xs[..|xs| - 1][i] == xs[i] && ys[..|ys| - 1][i] == ys[i];
      }
    }
  }

  /** Collision resistance, idealised: the digest is injective and never the zero hash. */
  ghost predicate IdealHash(d: Domain) {
    && (forall x, y :: d.offerHash(x) == d.offerHash(y) ==> x == y)
    && (forall x :: d.offerHash(x) != ZERO_HASH)
    && (forall x, y :: d.agreementHash(x) == d.agreementHash(y) ==> x == y)
  }

  /** Under an ideal hash the transcript hash decides the offers, both ways. */
  lemma TranscriptHashDecides(d: Domain, xs: seq<SignedOffer>, ys: seq<SignedOffer>)
    requires IdealHash(d) && Intact(d, xs) && Intact(d, ys)
    ensures TranscriptHash(d, xs) == TranscriptHash(d, ys) <==> SameOffers(xs, ys)
  {
    if TranscriptHash(d, xs) == TranscriptHash(d, ys) {
      TranscriptBinding(d, xs, ys);
    }
  }

  /**
   Editing one message in place, digest field included, is caught: an edited
   transcript that still verifies was edited in its very last message, unless the
   edit is a collision of the hash; and without one the transcript hash moves.
   */
  lemma EditIsCaught(d: Domain, ms: seq<SignedOffer>, i: nat, forged: SignedOffer)
    requires Intact(d, ms) && i < |ms| && Intact(d, ms[i := forged])
    requires Struct(forged.offer) != Struct(ms[i].offer)
    ensures ClashAt(d, forged.offer, ms[i].offer)
      || (i == |ms| - 1 && TranscriptHash(d, ms[i := forged]) != TranscriptHash(d, ms))
  {
    var es := ms[i := forged];
    if i + 1 < |ms| {
      assert IntactAt(d, ms, i + 1) && IntactAt(d, es, i + 1);
    }
  }

  // ── Agreements ────────────────────────────────────────────────────────────

  datatype SignError = TranscriptInvalid | NothingAgreed(state: State)

  /** The parties and terms a job and a negotiation row contribute to an agreement. */
  datatype Terms = Terms(
    jobId: string, creatorAgentId: string, providerAgentId: string, providerWallet: string,
    requirementsHash: Hash, executionWindow: int)

  const AGREEMENT_TTL_SECONDS := 86400

  ghost function SignedAgreement(d: Domain, t: Terms, ms: seq<SignedOffer>, now: int): Result<Agreement, SignError> {
    if !Intact(d, ms) || !AllEncodable(ms) then Err(TranscriptInvalid)
    else
      var view := DeriveState(ms, now);
      if !view.state.AGREED? || view.agreedPrice.value.text == "" then Err(NothingAgreed(view.state))
      else Ok(Agreement(
        t.jobId, t.creatorAgentId, t.providerAgentId, t.providerWallet,
        view.agreedPrice.value.number.value, t.requirementsHash, t.executionWindow,
        view.transcriptHash, now + AGREEMENT_TTL_SECONDS))
  }

  /** An agreement names the price of the closing ACCEPT and the hash of the whole transcript. */
  lemma AgreementNamesTranscript(d: Domain, t: Terms, ms: seq<SignedOffer>, now: int)
    requires SignedAgreement(d, t, ms, now).Ok?
    ensures |ms| > 0 && ms[|ms| - 1].offer.kind.ACCEPT? && Intact(d, ms)
    ensures SignedAgreement(d, t, ms, now).value.transcriptHash == TranscriptHash(d, ms)
    ensures Some(SignedAgreement(d, t, ms, now).value.price) == Struct(ms[|ms| - 1].offer).price
  {
    assert IntactAt(d, ms, |ms| - 1);
  }

  /** Each party and each term stands in its own place, and the agreement runs out a day after it is signed. */
  lemma {:induction false} AgreementNamesParties(d: Domain, t: Terms, ms: seq<SignedOffer>, now: int)
    requires SignedAgreement(d, t, ms, now).Ok?
    ensures
      var a := SignedAgreement(d, t, ms, now).value;
      && a.jobId == t.jobId
      && a.creatorAgentId == t.creatorAgentId && a.providerAgentId == t.providerAgentId
      && a.providerWallet == t.providerWallet
      && a.requirementsHash == t.requirementsHash && a.executionWindow == t.executionWindow
      && a.expiry == now + 86400
  {
  }

  /** An agreement comes out of every intact transcript that closes with an ACCEPT, and of no other. */
  lemma {:induction false} SignsExactly(d: Domain, t: Terms, ms: seq<SignedOffer>, now: int)
    ensures SignedAgreement(d, t, ms, now).Ok? <==>
      Intact(d, ms) && AllEncodable(ms) && ms != [] && ms[|ms| - 1].offer.kind.ACCEPT?
  {
    if AllEncodable(ms) && ms != [] {
      assert Encodable(ms[|ms| - 1].offer);
    }
  }

  /** Two different agreements with one digest. */
  predicate AgreementClash(d: Domain, a: Agreement, a': Agreement) {
    a != a' && d.agreementHash(a) == d.agreementHash(a')
  }

  /**
   Two agreements with one digest fix the same price and the same negotiation,
   unless the hash itself is broken on exactly these inputs.
   */
  lemma AgreementBinding(
    d: Domain, t: Terms, ms: seq<SignedOffer>, now: int, t': Terms, ms': seq<SignedOffer>, now': int)
    requires SignedAgreement(d, t, ms, now).Ok? && SignedAgreement(d, t', ms', now').Ok?
    requires
      d.agreementHash(SignedAgreement(d, t, ms, now).value) == d.agreementHash(SignedAgreement(d, t', ms', now').value)
    ensures
      || (t == t' && now == now' && SameOffers(ms, ms')
          && ms[|ms| - 1].offer.price.number == ms'[|ms'| - 1].offer.price.number)
      || AgreementClash(d, SignedAgreement(d, t, ms, now).value, SignedAgreement(d, t', ms', now').value)
      || HashBroken(d, ms, ms')
  {
    var a, a' := SignedAgreement(d, t, ms, now).value, SignedAgreement(d, t', ms', now').value;
    AgreementNamesTranscript(d, t, ms, now);
    AgreementNamesTranscript(d, t', ms', now');
    if a == a' {
      TranscriptBinding(d, ms, ms');
    }
  }
}
