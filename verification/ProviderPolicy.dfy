/**
 The provider's deterministic bargaining policy, and what it guarantees against
 every creator.
 */
module ProviderPolicy {
  import opened Arithmetic
  import opened Prelude
  import opened Decimal
  import opened Negotiation

  /** Floor in base units; the two fractions as the caller gives them. */
  datatype Policy = Policy(floor: nat, opening: real, rate: real)

  datatype Reason = FloorAboveCeiling | OpeningAsk | MeetsFloor | Converged | BelowFloor

  datatype Decision =
    | Decline(reason: Reason)
    | Accept(price: int, reason: Reason)
    | Counter(price: int, reason: Reason)

  // ── Fractions of a bigint ─────────────────────────────────────────────────

  const PRECISION := 10000

  /** Math.round. */
  function Round(x: real): int {
    (x + 0.5).Floor
  }

  function Scale(value: int, fraction: real): int {
    TruncDiv(value * Round(fraction * 10000.0), PRECISION)
  }

  function ClampUnit(x: real): real {
    if x < 0.0 then 0.0 else if x > 1.0 then 1.0 else x
  }

  /** The clamped concession rate in ten-thousandths. */
  function Rate(p: Policy): (r: nat)
    ensures r <= PRECISION
  {
    Round(ClampUnit(p.rate) * 10000.0)
  }

  // ── The decision ──────────────────────────────────────────────────────────

  function LastOwnAsk(ms: seq<SignedOffer>): Option<Amount> {
    if |ms| == 0 then None
    else
      var o := ms[|ms| - 1].offer;
      if o.role.PROVIDER? && !o.kind.DECLINE? then Some(o.price) else LastOwnAsk(ms[..|ms| - 1])
  }

  /** The backward scan finds the price of the latest PROVIDER message that is not a DECLINE. */
  method FindLastOwnAsk(ms: seq<SignedOffer>) returns (ask: Option<Amount>)
    ensures ask == LastOwnAsk(ms)
    ensures ask.None? ==> forall i :: 0 <= i < |ms| ==> !IsOwnAsk(ms, i)
    ensures ask.Some? ==> exists i :: 0 <= i < |ms| && IsLatestOwnAsk(ms, i) && ask.value == ms[i].offer.price
  {
    var i := |ms| - 1;
    assert ms[..|ms|] == ms;
    while i >= 0
      invariant -1 <= i < |ms|
      invariant forall j :: i < j < |ms| ==> !IsOwnAsk(ms, j)
      invariant LastOwnAsk(ms) == LastOwnAsk(ms[..i + 1])
    {
      assert ms[..i + 1][..i] == ms[..i];
      var offer := ms[i].offer;
      if offer.role.PROVIDER? && !offer.kind.DECLINE? {
        assert IsLatestOwnAsk(ms, i);
        return Some(offer.price);
      }
      i := i - 1;
    }
    return None;
  }

  predicate IsOwnAsk(ms: seq<SignedOffer>, i: nat)
    requires i < |ms|
  {
    ms[i].offer.role.PROVIDER? && !ms[i].offer.kind.DECLINE?
  }

  ghost predicate IsLatestOwnAsk(ms: seq<SignedOffer>, i: nat)
    requires i < |ms|
  {
    IsOwnAsk(ms, i) && forall j :: i < j < |ms| ==> !IsOwnAsk(ms, j)
  }

  function OpeningAskOf(p: Policy, b: Budget): int {
    Scale(b.max, p.opening)
  }

  /** The ask to concede from; None where BigInt throws on a stored price. */
  function PreviousAsk(ms: seq<SignedOffer>, p: Policy, b: Budget): Option<int> {
    var own := LastOwnAsk(ms);
    if own.None? then Some(OpeningAskOf(p, b)) else own.value.number
  }

  function NextAsk(previous: int, p: Policy): int {
    var gap := if previous > p.floor then previous - p.floor else 0;
    var conceded := previous - Scale(gap, ClampUnit(p.rate));
    if conceded < p.floor then p.floor else conceded
  }

  /** The provider's next move; None where BigInt throws on a stored price. */
  function Decide(ms: seq<SignedOffer>, p: Policy, b: Budget): Option<Decision> {
    if p.floor > b.max then Some(Decline(FloorAboveCeiling))
    else if |ms| == 0 then Some(Counter(OpeningAskOf(p, b), OpeningAsk))
    else
      var offered := ms[|ms| - 1].offer.price.number;
      if offered.None? then None
      else if offered.value >= p.floor then Some(Accept(offered.value, MeetsFloor))
      else
        var previous := PreviousAsk(ms, p, b);
        if previous.None? then None
        else
          var nextAsk := NextAsk(previous.value, p);
          if nextAsk <= offered.value then Some(Accept(offered.value, Converged))
          else Some(Counter(nextAsk, BelowFloor))
  }

  /** The kind and price the service gives the policy's message. */
  function MoveKind(ms: seq<SignedOffer>, m: Decision): Kind {
    if m.Decline? then DECLINE
    else if |ms| == 0 then PROPOSE
    else if m.Accept? then ACCEPT else COUNTER
  }

  function MovePrice(m: Decision): Amount {
    if m.Decline? then ZERO_AMOUNT else ShowAmount(m.price)
  }

  function PolicyOffer(
    ms: seq<SignedOffer>, m: Decision, jobId: string, agentId: string, note: string, builtAt: int): Offer
  {
    BuildNextOffer(ms, jobId, agentId, PROVIDER, MoveKind(ms, m), MovePrice(m), note, DEFAULT_TTL_SECONDS, builtAt)
  }

  lemma {:induction false} PolicyOfferNames(
    ms: seq<SignedOffer>, m: Decision, jobId: string, agentId: string, note: string, builtAt: int)
    ensures
      var o := PolicyOffer(ms, m, jobId, agentId, note, builtAt);
      && o.jobId == jobId && o.agentId == agentId && o.role == PROVIDER && o.note == note
      && o.expiresAt == builtAt + 3600
      && (m.Decline? ==> o.kind == DECLINE && o.price.text == "0")
      && (!m.Decline? ==> o.price == Read(ShowInt(m.price)))
      && (ms != [] && m.Accept? ==> o.kind == ACCEPT) && (ms != [] && m.Counter? ==> o.kind == COUNTER)
  {
    if !m.Decline? {
      ReadOfShow(m.price);
    }
  }

  // ── Facts about one decision ──────────────────────────────────────────────

  lemma ScaleShare(value: nat, r: nat)
    requires r <= PRECISION
    ensures 0 <= TruncDiv(value * r, PRECISION) == value * r / PRECISION <= value
  {
    assert 0 <= value * r <= value * PRECISION;
  }

  /** A next ask is never below the floor, and from at or above the floor it never rises. */
  lemma NextAskBounds(previous: int, p: Policy)
    ensures NextAsk(previous, p) >= p.floor
    ensures previous >= p.floor ==> NextAsk(previous, p) <= previous
    ensures previous >= p.floor ==>
      NextAsk(previous, p) == p.floor + Shrink(previous - p.floor, Rate(p))
    ensures previous < p.floor ==> NextAsk(previous, p) == p.floor
  {
    var gap := if previous > p.floor then previous - p.floor else 0;
    ScaleShare(gap, Rate(p));
  }

  /** The "Converged" branch is dead: an ask at or above the floor beats every offer below it. */
  lemma NeverConverges(ms: seq<SignedOffer>, p: Policy, b: Budget)
    requires Decide(ms, p, b).Some?
    ensures Decide(ms, p, b).value.reason != Converged
    ensures Decide(ms, p, b).value.Accept? ==> Decide(ms, p, b).value.price >= p.floor
    ensures Decide(ms, p, b).value.Counter? && |ms| > 0 ==> Decide(ms, p, b).value.price >= p.floor
  {
    if PreviousAsk(ms, p, b).Some? {
      NextAskBounds(PreviousAsk(ms, p, b).value, p);
    }
  }

  /**
   The autonomous opening move is always refused: an empty transcript is the
   creator's turn, whatever the policy decides to play.
   */
  lemma OpeningMoveIsRejected(
    p: Policy, b: Budget, jobId: string, agentId: string, note: string, builtAt: int, now: int)
    ensures Decide([], p, b).Some?
    ensures CheckNext([], PolicyOffer([], Decide([], p, b).value, jobId, agentId, note, builtAt), b, now)
            == Rejected(OutOfTurn)
  {
  }

  /** With an opening fraction in [0, 1] and a floor under the ceiling the first counter is in budget. */
  lemma {:induction false} UnitOpeningStaysUnderCeiling(p: Policy, b: Budget)
    requires 0.0 <= p.opening <= 1.0 && p.floor <= b.max
    ensures 0 <= OpeningAskOf(p, b) <= b.max
    ensures NextAsk(OpeningAskOf(p, b), p) <= b.max
  {
    ScaleShare(b.max, Round(p.opening * 10000.0));
    NextAskBounds(OpeningAskOf(p, b), p);
  }

  // ── What the policy answers ───────────────────────────────────────────────

  /** The ask a counter concedes from: its latest price, or before any the share of the ceiling it opens at. */
  ghost predicate AsksFrom(ms: seq<SignedOffer>, p: Policy, b: Budget, ask: int) {
    || (exists i :: 0 <= i < |ms| && IsLatestOwnAsk(ms, i) && ms[i].offer.price.number == Some(ask))
    || ((forall i :: 0 <= i < |ms| ==> !IsOwnAsk(ms, i))
        && ask == TruncDiv(b.max * (p.opening * 10000.0 + 0.5).Floor, 10000))
  }

  lemma {:induction false} LatestOwnAsk(ms: seq<SignedOffer>, i: nat)
    requires i < |ms| && IsLatestOwnAsk(ms, i)
    ensures LastOwnAsk(ms) == Some(ms[i].offer.price)
  {
    var n := |ms| - 1;
    if i < n {
      assert !IsOwnAsk(ms, n);
      assert IsOwnAsk(ms[..n], i);
      forall j | i < j < n
        ensures !IsOwnAsk(ms[..n], j)
      {
        assert !IsOwnAsk(ms, j);
      }
      LatestOwnAsk(ms[..n], i);
    }
  }

  lemma {:induction false} NoOwnAsk(ms: seq<SignedOffer>)
    requires forall i :: 0 <= i < |ms| ==> !IsOwnAsk(ms, i)
    ensures LastOwnAsk(ms) == None
  {
    if ms != [] {
      assert !IsOwnAsk(ms, |ms| - 1);
      var head := ms[..|ms| - 1];
      forall i | 0 <= i < |head|
        ensures !IsOwnAsk(head, i)
      {
        assert !IsOwnAsk(ms, i);
      }
      NoOwnAsk(head);
    }
  }

  lemma {:induction false} AsksFromPrevious(ms: seq<SignedOffer>, p: Policy, b: Budget, ask: int)
    requires AsksFrom(ms, p, b, ask)
    ensures PreviousAsk(ms, p, b) == Some(ask)
  {
    if forall i :: 0 <= i < |ms| ==> !IsOwnAsk(ms, i) {
      NoOwnAsk(ms);
    } else {
      var i :| 0 <= i < |ms| && IsLatestOwnAsk(ms, i) && ms[i].offer.price.number == Some(ask);
      LatestOwnAsk(ms, i);
    }
  }

  /** The rate, cut to the unit interval and rounded to ten-thousandths. */
  lemma {:induction false} RateInNumbers(p: Policy)
    ensures p.rate <= 0.0 ==> Rate(p) == 0
    ensures p.rate >= 1.0 ==> Rate(p) == 10000
    ensures 0.0 <= p.rate <= 1.0 ==> Rate(p) == (p.rate * 10000.0 + 0.5).Floor
  {
  }

  /**
   The policy has exactly three answers. It declines when its floor lies above the
   ceiling, and only then; it accepts what meets the floor, at the very price
   offered; everything else it counters, conceding r ten-thousandths of its gap g.
   */
  lemma {:induction false} PolicyAnswers(ms: seq<SignedOffer>, p: Policy, b: Budget, offered: int, ask: int)
    requires ms != [] && ms[|ms| - 1].offer.price.number == Some(offered) && AsksFrom(ms, p, b, ask)
    ensures Decide(ms, p, b).Some?
    ensures Decide(ms, p, b).value.Decline? <==> p.floor > b.max
    ensures Decide(ms, p, b).value.Accept? <==> p.floor <= b.max && offered >= p.floor
    ensures Decide(ms, p, b).value.Accept? ==> Decide(ms, p, b).value.price == offered
    ensures Decide(ms, p, b).value.Counter? <==> p.floor <= b.max && offered < p.floor
    ensures Decide(ms, p, b).value.Counter? ==>
      var g := if ask > p.floor then ask - p.floor else 0;
      Decide(ms, p, b).value.price == p.floor + g - g * Rate(p) / 10000
  {
    AsksFromPrevious(ms, p, b, ask);
    NextAskBounds(ask, p);
  }

  /** The reply to the last offer is of the one right kind: decline only above the ceiling, accept the price offered. */
  ghost predicate RightReply(ms: seq<SignedOffer>, p: Policy, b: Budget, reply: Offer)
    requires ms != []
  {
    var offered := ms[|ms| - 1].offer.price.number;
    && (reply.kind.DECLINE? <==> p.floor > b.max)
    && (p.floor <= b.max ==>
          offered.Some?
          && (reply.kind.ACCEPT? <==> offered.value >= p.floor)
          && (reply.kind.COUNTER? <==> offered.value < p.floor)
          && (reply.kind.ACCEPT? ==> reply.price.number == offered))
  }

  lemma {:induction false} ReplyIsRight(ms: seq<SignedOffer>, p: Policy, b: Budget, reply: Offer)
    requires ms != [] && Decide(ms, p, b).Some?
    requires reply.kind == MoveKind(ms, Decide(ms, p, b).value) && reply.price == MovePrice(Decide(ms, p, b).value)
    ensures RightReply(ms, p, b, reply)
  {
    NeverConverges(ms, p, b);
  }

  // ── The policy's move against the validator ───────────────────────────────

  /**
   What decides whether the policy's move passes. An ACCEPT prints the number it
   read, so the offer it accepts must be canonical decimal text; a first counter
   starts from the opening fraction, so that must not overshoot the ceiling.
   */
  predicate MoveFits(ms: seq<SignedOffer>, p: Policy, b: Budget)
    requires |ms| > 0 && ms[|ms| - 1].offer.price.number.Some?
  {
    var price := ms[|ms| - 1].offer.price;
    || p.floor > b.max
    || (price.number.value >= p.floor && price.text == ShowInt(price.number.value))
    || (price.number.value < p.floor && (LastOwnAsk(ms).Some? || NextAsk(OpeningAskOf(p, b), p) <= b.max))
  }

  lemma {:induction false} OwnAskInBudget(ms: seq<SignedOffer>, b: Budget)
    requires forall i :: 0 <= i < |ms| ==> ms[i].offer.kind.DECLINE? || InBudget(ms[i].offer, b)
    requires LastOwnAsk(ms).Some?
    ensures LastOwnAsk(ms).value.number.Some? && b.min <= LastOwnAsk(ms).value.number.value <= b.max
  {
    var o := ms[|ms| - 1].offer;
    if !(o.role.PROVIDER? && !o.kind.DECLINE?) {
      OwnAskInBudget(ms[..|ms| - 1], b);
    }
  }

  /** On its turn, in any reachable transcript, the policy decides, and it decides in numbers. */
  lemma PolicyDecides(d: Domain, ms: seq<SignedOffer>, b: Budget, at: seq<int>, p: Policy, now: int)
    requires Played(d, ms, b, at)
    requires DeriveState(ms, now).state.OPEN? && DeriveState(ms, now).turn == Some(PROVIDER)
    ensures |ms| % 2 == 1 && |ms| < MAX_MESSAGES
    ensures InBudget(ms[|ms| - 1].offer, b)
    ensures Decide(ms, p, b).Some?
    ensures LastOwnAsk(ms).Some? ==>
      LastOwnAsk(ms).value.number.Some? && b.min <= LastOwnAsk(ms).value.number.value <= b.max
  {
    hide CheckNext;
    ReachableIsWellFormed(d, ms, b, at);
    assert WellFormedAt(ms, b, |ms| - 1);
    forall i | 0 <= i < |ms|
      ensures ms[i].offer.kind.DECLINE? || InBudget(ms[i].offer, b)
    {
      assert WellFormedAt(ms, b, i);
    }
    if LastOwnAsk(ms).Some? {
      OwnAskInBudget(ms, b);
    }
  }

  /**
   On the provider's turn the validator accepts the policy's move if and only if
   the move fits; the default time to live keeps it fresh for an hour.
   */
  lemma PolicyMoveAccepted(
    d: Domain, ms: seq<SignedOffer>, b: Budget, at: seq<int>, p: Policy,
    jobId: string, agentId: string, note: string, builtAt: int, now: int)
    requires Played(d, ms, b, at)
    requires DeriveState(ms, now).state.OPEN? && DeriveState(ms, now).turn == Some(PROVIDER)
    requires builtAt <= now < builtAt + DEFAULT_TTL_SECONDS
    ensures |ms| > 0 && InBudget(ms[|ms| - 1].offer, b) && Decide(ms, p, b).Some?
    ensures CheckNext(ms, PolicyOffer(ms, Decide(ms, p, b).value, jobId, agentId, note, builtAt), b, now).Accepted?
            <==> MoveFits(ms, p, b)
  {
    PolicyDecides(d, ms, b, at, p, now);
    NeverConverges(ms, p, b);
    var price := ms[|ms| - 1].offer.price;
    if p.floor <= b.max && price.number.value < p.floor {
      var previous := PreviousAsk(ms, p, b).value;
      NextAskBounds(previous, p);
    }
  }

  /** A padded spelling denotes the same number but is not the text the policy prints. */
  lemma {:induction false} PaddedPrice(n: nat)
    ensures Read("0" + Show(n)).number == Some(n)
    ensures Read("0" + Show(n)) != ShowAmount(n)
  {
    hide BigIntOf;
    var s := Show(n);
    ValueOfShow(n);
    hide Show;
    ZeroInFront(s);
    hide Value;
    BigIntOfDigits("0" + s);
    assert |"0" + s| > |s|;
  }

  lemma ZeroInFront(s: string)
    requires AllDigits(s)
    ensures AllDigits("0" + s) && Value("0" + s) == Value(s)
  {
    ValueAppend("0", s);
    assert Value("0") == 0 by {
      assert "0"[..0] == "";
    }
    hide Value;
  }

  /**
   A creator that opens with a padded price, any price in budget and above the
   floor, passes the validator, and the policy's ACCEPT of it is then refused.
   */
  lemma PaddedPriceCannotBeAccepted(
    b: Budget, p: Policy, n: nat, open: SignedOffer, jobId: string, agentId: string, note: string, now: int)
    requires p.floor <= n && b.min <= n <= b.max && 0 <= now
    requires open.offer == BuildNextOffer([], jobId, agentId, CREATOR, PROPOSE, Read("0" + Show(n)), note, 60, now)
    ensures CheckNext([], open.offer, b, now).Accepted?
    ensures Decide([open], p, b) == Some(Accept(n, MeetsFloor))
    ensures CheckNext([open], PolicyOffer([open], Accept(n, MeetsFloor), jobId, agentId, note, now), b, now)
            == Rejected(AcceptPriceDiffers)
  {
    PaddedPrice(n);
  }

  /** An opening fraction of two makes the first counter overshoot the ceiling. */
  lemma OvershootingOpening()
    ensures NextAsk(OpeningAskOf(Policy(400000, 2.0, 0.5), Budget(250000, 500000)), Policy(400000, 2.0, 0.5)) == 700000
  {
  }

  // ── Runs ──────────────────────────────────────────────────────────────────

  /** Message i is what the policy decided on the messages before it. */
  ghost predicate PolicyAt(ms: seq<SignedOffer>, b: Budget, p: Policy, i: nat)
    requires i < |ms|
  {
    var m := Decide(ms[..i], p, b);
    m.Some? && ms[i].offer.kind == MoveKind(ms[..i], m.value) && ms[i].offer.price == MovePrice(m.value)
  }

  /** Any creator, one fixed policy: every PROVIDER message is the policy's. */
  ghost predicate PolicyPlay(d: Domain, ms: seq<SignedOffer>, b: Budget, at: seq<int>, p: Policy) {
    && Played(d, ms, b, at)
    && forall i :: 0 <= i < |ms| && i % 2 == 1 ==> PolicyAt(ms, b, p, i)
  }

  /**
   Bargaining safety: whatever the creator plays, a price agreed with the policy is
   a number at or above the floor and inside the job's budget.
   */
  lemma BargainIsSafe(d: Domain, ms: seq<SignedOffer>, b: Budget, at: seq<int>, p: Policy, now: int)
    requires PolicyPlay(d, ms, b, at, p)
    requires DeriveState(ms, now).state.AGREED?
    ensures DeriveState(ms, now).agreedPrice.value.number.Some?
    ensures p.floor <= DeriveState(ms, now).agreedPrice.value.number.value
    ensures b.min <= DeriveState(ms, now).agreedPrice.value.number.value <= b.max
  {
    hide CheckNext;
    var n := |ms| - 1;
    ReachableIsWellFormed(d, ms, b, at);
    assert WellFormedAt(ms, b, n);
    var k := if n % 2 == 1 then n else n - 1;
    assert WellFormedAt(ms, b, k) && PolicyAt(ms, b, p, k);
    NeverConverges(ms[..k], p, b);
  }

  // ── Concession ────────────────────────────────────────────────────────────

  /** The gap to the floor after one counter. */
  function Shrink(g: nat, r: nat): (h: nat)
    requires r <= PRECISION
    ensures h <= g
  {
    ScaleShare(g, r);
    g - g * r / PRECISION
  }

  function ShrinkN(g: nat, r: nat, k: nat): (h: nat)
    requires r <= PRECISION
    ensures h <= g
  {
    if k == 0 then g else Shrink(ShrinkN(g, r, k - 1), r)
  }

  /** The gap the first counter concedes from. */
  function OpeningGap(p: Policy, b: Budget): nat {
    var ask := OpeningAskOf(p, b);
    if ask > p.floor then ask - p.floor else 0
  }

  lemma LastOwnAskAt(ms: seq<SignedOffer>, k: nat)
    requires 0 < k < |ms| && !IsOwnAsk(ms, k) && IsOwnAsk(ms, k - 1)
    ensures LastOwnAsk(ms[..k + 1]) == Some(ms[k - 1].offer.price)
  {
    assert ms[..k + 1][..k] == ms[..k];
    assert LastOwnAsk(ms[..k + 1]) == LastOwnAsk(ms[..k]);
  }

  /** A counter the policy plays at i is the next ask after its previous one. */
  lemma CounterStep(ms: seq<SignedOffer>, b: Budget, p: Policy, i: nat)
    requires 0 < i < |ms| && PolicyAt(ms, b, p, i) && ms[i].offer.kind.COUNTER?
    ensures PreviousAsk(ms[..i], p, b).Some?
    ensures ms[i].offer.price.number == Some(NextAsk(PreviousAsk(ms[..i], p, b).value, p))
  {
    NeverConverges(ms[..i], p, b);
  }

  lemma FirstPreviousAsk(ms: seq<SignedOffer>, b: Budget, p: Policy)
    requires |ms| > 1 && !IsOwnAsk(ms, 0)
    ensures PreviousAsk(ms[..1], p, b) == Some(OpeningAskOf(p, b))
  {
    assert LastOwnAsk(ms[..1]) == LastOwnAsk(ms[..1][..0]);
  }

  lemma ShrinkNext(previous: int, p: Policy, g: nat, k: nat)
    requires (if previous > p.floor then previous - p.floor else 0) == ShrinkN(g, Rate(p), k)
    ensures NextAsk(previous, p) == p.floor + ShrinkN(g, Rate(p), k + 1)
  {
    NextAskBounds(previous, p);
  }

  lemma OpeningShrink(p: Policy, b: Budget)
    ensures NextAsk(OpeningAskOf(p, b), p) == p.floor + ShrinkN(OpeningGap(p, b), Rate(p), 1)
  {
    ShrinkNext(OpeningAskOf(p, b), p, OpeningGap(p, b), 0);
  }

  lemma LaterShrink(previous: int, p: Policy, g: nat, k: nat)
    requires previous == p.floor + ShrinkN(g, Rate(p), k)
    ensures NextAsk(previous, p) == p.floor + ShrinkN(g, Rate(p), k + 1)
  {
    ShrinkNext(previous, p, g, k);
  }

  /** The k-th counter of the policy sits exactly k + 1 concessions above the floor. */
  lemma {:induction false} CounterSequence(ms: seq<SignedOffer>, b: Budget, p: Policy, k: nat)
    requires WellFormed(ms, b)
    requires forall i :: 0 <= i < |ms| && i % 2 == 1 ==> PolicyAt(ms, b, p, i)
    requires 2 * k + 1 < |ms| && ms[2 * k + 1].offer.kind.COUNTER?
    ensures ms[2 * k + 1].offer.price.number == Some(p.floor + ShrinkN(OpeningGap(p, b), Rate(p), k + 1))
  {
    hide PolicyAt;
    hide NextAsk;
    hide ShrinkN;
    hide OpeningGap;
    var i := 2 * k + 1;
    assert i % 2 == 1 && PolicyAt(ms, b, p, i);
    assert WellFormedAt(ms, b, i - 1);
    CounterStep(ms, b, p, i);
    if k == 0 {
      FirstPreviousAsk(ms, b, p);
      OpeningShrink(p, b);
    } else {
      assert WellFormedAt(ms, b, i - 2);
      LastOwnAskAt(ms, i - 1);
      CounterSequence(ms, b, p, k - 1);
      LaterShrink(ms[i - 2].offer.price.number.value, p, OpeningGap(p, b), k);
    }
  }

  /**
   In every run of the policy the asks never rise, never fall below the floor, and
   follow the concession recurrence exactly.
   */
  lemma CountersNeverRise(d: Domain, ms: seq<SignedOffer>, b: Budget, at: seq<int>, p: Policy, k: nat)
    requires PolicyPlay(d, ms, b, at, p)
    requires 2 * k + 3 < |ms| && ms[2 * k + 1].offer.kind.COUNTER? && ms[2 * k + 3].offer.kind.COUNTER?
    ensures ms[2 * k + 1].offer.price.number == Some(p.floor + ShrinkN(OpeningGap(p, b), Rate(p), k + 1))
    ensures ms[2 * k + 3].offer.price.number == Some(p.floor + ShrinkN(OpeningGap(p, b), Rate(p), k + 2))
    ensures p.floor <= ms[2 * k + 3].offer.price.number.value <= ms[2 * k + 1].offer.price.number.value
  {
    hide CheckNext;
    ReachableIsWellFormed(d, ms, b, at);
    CounterSequence(ms, b, p, k);
    CounterSequence(ms, b, p, k + 1);
  }

  /** A concession moves exactly when the rounded step is at least one unit; otherwise the ask stalls. */
  lemma ConcessionStalls(g: nat, r: nat)
    requires r <= PRECISION
    ensures Shrink(g, r) < g <==> g * r >= PRECISION
    ensures g * r < PRECISION ==> Shrink(g, r) == g
  {
  }

  /** Once stalled, stalled for good. */
  lemma {:induction false} StalledForever(g: nat, r: nat, k: nat)
    requires r <= PRECISION && g * r < PRECISION
    ensures ShrinkN(g, r, k) == g
  {
    if k > 0 {
      StalledForever(g, r, k - 1);
    }
  }

  lemma CeilBounds(g: nat, q: nat)
    requires q > 0
    ensures g <= q * CeilDiv(g, q) < g + q
  {
    var a := g + q - 1;
    assert a == q * (a / q) + a % q;
  }

  lemma {:induction false} MulMonotone(q: nat, x: int, y: int)
    requires x <= y
    ensures q * x <= q * y
    ensures x < y ==> q * x + q <= q * y
  {
    assert x < y ==> q * x + q == q * (x + 1) <= q * y;
  }

  lemma {:induction false} UniqueCeil(g: nat, q: nat, c: int)
    requires q > 0 && g <= q * c < g + q
    ensures CeilDiv(g, q) == c
  {
    var h := CeilDiv(g, q);
    CeilBounds(g, q);
    if h <= c {
      MulMonotone(q, h, c);
    } else {
      MulMonotone(q, c, h);
    }
  }

  lemma {:induction false} CeilHalf(g: nat, q: nat)
    requires q > 0
    ensures CeilDiv(CeilDiv(g, q), 2) == CeilDiv(g, 2 * q)
  {
    var h := CeilDiv(g, q);
    var c := CeilDiv(h, 2);
    CeilBounds(g, q);
    MulMonotone(q, h, 2 * c);
    MulMonotone(q, 2 * c, h + 1);
    assert q * (h + 1) == q * h + q;
    assert (2 * q) * c == q * (2 * c);
    UniqueCeil(g, 2 * q, c);
  }

  /** At the default rate the gap after k counters is the opening gap over 2^k, rounded up. */
  lemma {:induction false} DefaultRateHalves(g: nat, k: nat)
    ensures ShrinkN(g, 5000, k) == CeilDiv(g, Pow2(k))
  {
    if k > 0 {
      DefaultRateHalves(g, k - 1);
      var h := ShrinkN(g, 5000, k - 1);
      assert Shrink(h, 5000) == CeilDiv(h, 2);
      CeilHalf(g, Pow2(k - 1));
    }
  }

  /**
   So at the default rate of one half every counter of a run is known in advance:
   the k-th one asks the floor and the opening gap over 2^(k+1), rounded up.
   */
  lemma {:induction false} DefaultRateCounters(d: Domain, ms: seq<SignedOffer>, b: Budget, at: seq<int>, p: Policy,
                                               k: nat)
    requires PolicyPlay(d, ms, b, at, p) && p.rate == 0.5
    requires 2 * k + 1 < |ms| && ms[2 * k + 1].offer.kind.COUNTER?
    ensures ms[2 * k + 1].offer.price.number == Some(p.floor + CeilDiv(OpeningGap(p, b), Pow2(k + 1)))
  {
    hide CheckNext;
    ReachableIsWellFormed(d, ms, b, at);
    CounterSequence(ms, b, p, k);
    DefaultRateHalves(OpeningGap(p, b), k + 1);
    assert Rate(p) == 5000;
  }

  lemma {:induction false} AskBeforeProvider(ms: seq<SignedOffer>, b: Budget, p: Policy, i: nat) returns (ask: int)
    requires WellFormed(ms, b) && i < |ms| && i % 2 == 1
    ensures i == 1 ==> ask == TruncDiv(b.max * (p.opening * 10000.0 + 0.5).Floor, 10000)
    ensures i > 1 ==> ms[i - 2].offer.price.number == Some(ask)
    ensures AsksFrom(ms[..i], p, b, ask)
  {
    var before := ms[..i];
    assert WellFormedAt(ms, b, i - 1) && before[i - 1] == ms[i - 1];
    if i == 1 {
      ask := TruncDiv(b.max * (p.opening * 10000.0 + 0.5).Floor, 10000);
    } else {
      assert WellFormedAt(ms, b, i - 2) && before[i - 2] == ms[i - 2];
      ask := ms[i - 2].offer.price.number.value;
      assert IsLatestOwnAsk(before, i - 2);
    }
  }

  /**
   So in every run of the policy each of its messages is told by the creator's offer
   before it: a DECLINE when the floor lies above the ceiling, else an ACCEPT of an
   offer that meets the floor, at its price, else a COUNTER that concedes from its
   own price before that, or from its opening ask.
   */
  lemma {:induction false} LowOffersAreCountered(
    d: Domain, ms: seq<SignedOffer>, b: Budget, at: seq<int>, p: Policy, i: nat)
    requires PolicyPlay(d, ms, b, at, p) && i < |ms| && i % 2 == 1
    ensures ms[i - 1].offer.price.number.Some?
    ensures ms[i].offer.kind.DECLINE? <==> p.floor > b.max
    ensures ms[i].offer.kind.ACCEPT? <==> p.floor <= b.max && ms[i - 1].offer.price.number.value >= p.floor
    ensures ms[i].offer.kind.COUNTER? <==> p.floor <= b.max && ms[i - 1].offer.price.number.value < p.floor
    ensures ms[i].offer.kind.ACCEPT? ==> ms[i].offer.price.number == ms[i - 1].offer.price.number
    ensures ms[i].offer.kind.COUNTER? && i > 1 ==>
      && ms[i - 2].offer.price.number.Some?
      && var g := if ms[i - 2].offer.price.number.value > p.floor
                  then ms[i - 2].offer.price.number.value - p.floor else 0;
         ms[i].offer.price.number == Some(p.floor + g - g * Rate(p) / 10000)
    ensures ms[i].offer.kind.COUNTER? && i == 1 ==>
      var ask := TruncDiv(b.max * (p.opening * 10000.0 + 0.5).Floor, 10000);
      var g := if ask > p.floor then ask - p.floor else 0;
      ms[i].offer.price.number == Some(p.floor + g - g * Rate(p) / 10000)
  {
    hide CheckNext;
    ReachableIsWellFormed(d, ms, b, at);
    assert WellFormedAt(ms, b, i - 1) && WellFormedAt(ms, b, i) && PolicyAt(ms, b, p, i);
    var ask := AskBeforeProvider(ms, b, p, i);
    hide AsksFrom;
    hide Rate;
    hide WellFormedAt;
    assert ms[..i][i - 1] == ms[i - 1];
    PolicyAnswers(ms[..i], p, b, ms[i - 1].offer.price.number.value, ask);
    hide Decide;
  }
}
