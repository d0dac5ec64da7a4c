/**
 Reading constraints out of a prompt: which pattern matches are kept, how they are
 filed as target, provider requirement or warning, and how a model's reading is
 reconciled with them. The match lists of the ordered patterns are inputs.
 */
module Constraints {
  import opened Prelude

  /** One match of a pattern: its span, the metric its phrase names and the number it reads, if any. */
  datatype Match = Match(start: nat, end: nat, metric: Option<string>, value: Option<nat>)

  datatype Constraint = Constraint(metric: string, value: nat, index: nat)

  predicate WellFormed(m: Match) {
    m.metric.Some? && m.value.Some?
  }

  predicate Overlaps(m: Match, k: Match) {
    m.start < k.end && k.start < m.end
  }

  function ToConstraint(m: Match): Constraint
    requires WellFormed(m)
  {
    Constraint(m.metric.value, m.value.value, m.start)
  }

  // ── The greedy choice ─────────────────────────────────────────────────────

  /** A match is kept when it reads properly and no kept match of an earlier pattern or position overlaps it. */
  ghost predicate Picked(ms: seq<Match>, i: nat)
    requires i < |ms|
    decreases i
  {
    WellFormed(ms[i]) && forall j :: 0 <= j < i && Picked(ms, j) ==> !Overlaps(ms[j], ms[i])
  }

  ghost function PickedUpTo(ms: seq<Match>, n: nat): (r: seq<Match>)
    requires n <= |ms|
  {
    if n == 0 then []
    else if Picked(ms, n - 1) then PickedUpTo(ms, n - 1) + [ms[n - 1]]
    else PickedUpTo(ms, n - 1)
  }

  function ToConstraints(ms: seq<Match>): (r: seq<Constraint>)
    requires forall i :: 0 <= i < |ms| ==> WellFormed(ms[i])
    ensures |r| == |ms|
  {
    if ms == [] then [] else ToConstraints(ms[..|ms| - 1]) + [ToConstraint(ms[|ms| - 1])]
  }

  lemma {:induction false} PickedMembers(ms: seq<Match>, n: nat)
    requires n <= |ms|
    ensures forall m :: m in PickedUpTo(ms, n) <==> exists i :: 0 <= i < n && Picked(ms, i) && ms[i] == m
    ensures forall k :: 0 <= k < |PickedUpTo(ms, n)| ==> WellFormed(PickedUpTo(ms, n)[k])
  {
    if n > 0 {
      PickedMembers(ms, n - 1);
      forall m
        ensures m in PickedUpTo(ms, n) <==> exists i :: 0 <= i < n && Picked(ms, i) && ms[i] == m
      {
        if Picked(ms, n - 1) && ms[n - 1] == m {
          assert m in PickedUpTo(ms, n);
        }
      }
    }
  }

  /** Kept spans are pairwise disjoint. */
  lemma {:induction false} PickedDisjoint(ms: seq<Match>, n: nat)
    requires n <= |ms|
    ensures forall a, b :: 0 <= a < b < |PickedUpTo(ms, n)| ==> !Overlaps(PickedUpTo(ms, n)[a], PickedUpTo(ms, n)[b])
  {
    if n > 0 {
      PickedDisjoint(ms, n - 1);
      PickedMembers(ms, n - 1);
      var head := PickedUpTo(ms, n - 1);
      if Picked(ms, n - 1) {
        forall a | 0 <= a < |head|
          ensures !Overlaps(head[a], ms[n - 1])
        {
          assert head[a] in head;
        }
      }
    }
  }

  /** Nothing well formed is dropped without cause: an earlier kept match overlaps it. */
  lemma DroppedForCause(ms: seq<Match>, i: nat)
    requires i < |ms| && WellFormed(ms[i]) && !Picked(ms, i)
    ensures exists j :: 0 <= j < i && Picked(ms, j) && Overlaps(ms[j], ms[i])
  {
  }

  /** The rule has one solution: any choice that keeps exactly what nothing earlier kept overlaps is this one. */
  lemma {:induction false} GreedyIsUnique(ms: seq<Match>, chosen: set<nat>, n: nat)
    requires n <= |ms|
    requires forall i :: 0 <= i < |ms| ==>
      (i in chosen <==> WellFormed(ms[i]) && forall j :: 0 <= j < i && j in chosen ==> !Overlaps(ms[j], ms[i]))
    ensures forall i :: 0 <= i < n ==> (i in chosen <==> Picked(ms, i))
  {
    if n > 0 {
      GreedyIsUnique(ms, chosen, n - 1);
    }
  }

  // ── The scan ──────────────────────────────────────────────────────────────

  function Flatten(patterns: seq<seq<Match>>): seq<Match> {
    if patterns == [] then [] else Flatten(patterns[..|patterns| - 1]) + patterns[|patterns| - 1]
  }

  predicate NonEmptySpans(ms: seq<Match>) {
    forall i :: 0 <= i < |ms| ==> ms[i].start < ms[i].end
  }

  /** The offsets claimed by the kept matches. */
  ghost predicate ClaimedBy(claimed: set<nat>, kept: seq<Match>) {
    forall x :: x in claimed <==> exists k :: 0 <= k < |kept| && kept[k].start <= x < kept[k].end
  }

  lemma OverlapShows(claimed: set<nat>, kept: seq<Match>, m: Match)
    requires ClaimedBy(claimed, kept) && NonEmptySpans(kept) && m.start < m.end
    ensures (exists x :: m.start <= x < m.end && x in claimed)
        <==> exists k :: 0 <= k < |kept| && Overlaps(kept[k], m)
  {
    if k :| 0 <= k < |kept| && Overlaps(kept[k], m) {
      var x := if kept[k].start <= m.start then m.start else kept[k].start;
      assert kept[k].start <= x < kept[k].end && m.start <= x < m.end;
      assert x in claimed;
    }
  }

  lemma PickedAppends(ms: seq<Match>, more: seq<Match>, i: nat)
    requires i < |ms|
    ensures Picked(ms + more, i) == Picked(ms, i)
    decreases i
  {
    forall j | 0 <= j < i
      ensures Picked(ms + more, j) == Picked(ms, j)
    {
      PickedAppends(ms, more, j);
    }
  }

  lemma {:induction false} PickedUpToAppends(ms: seq<Match>, more: seq<Match>, n: nat)
    requires n <= |ms|
    ensures PickedUpTo(ms + more, n) == PickedUpTo(ms, n)
  {
    if n > 0 {
      PickedUpToAppends(ms, more, n - 1);
      PickedAppends(ms, more, n - 1);
    }
  }

  /** One more match: kept exactly when it reads properly and clashes with nothing kept so far. */
  lemma PickStep(ms: seq<Match>, m: Match)
    ensures Picked(ms + [m], |ms|) <==>
      WellFormed(m) && !exists k :: 0 <= k < |PickedUpTo(ms, |ms|)| && Overlaps(PickedUpTo(ms, |ms|)[k], m)
    ensures PickedUpTo(ms + [m], |ms| + 1) ==
      if Picked(ms + [m], |ms|) then PickedUpTo(ms, |ms|) + [m] else PickedUpTo(ms, |ms|)
  {
    var kept := PickedUpTo(ms, |ms|);
    PickedMembers(ms, |ms|);
    PickedUpToAppends(ms, [m], |ms|);
    forall j | 0 <= j < |ms|
      ensures Picked(ms + [m], j) == Picked(ms, j)
    {
      PickedAppends(ms, [m], j);
    }
    if k :| 0 <= k < |kept| && Overlaps(kept[k], m) {
      assert kept[k] in kept;
      var j :| 0 <= j < |ms| && Picked(ms, j) && ms[j] == kept[k];
      assert Picked(ms + [m], j) && (ms + [m])[j] == ms[j];
    } else {
      forall j | 0 <= j < |ms| && Picked(ms, j)
        ensures !Overlaps(ms[j], m)
      {
        assert ms[j] in kept;
      }
    }
  }

  /** The inner loop over the offsets of a match. */
  method SpanClaimed(claimed: set<nat>, m: Match) returns (overlaps: bool)
    ensures overlaps <==> exists x :: m.start <= x < m.end && x in claimed
  {
    overlaps := false;
    var i := m.start;
    while i < m.end
      invariant m.start <= i
      invariant forall x :: m.start <= x < i ==> x !in claimed
    {
      if i in claimed {
        return true;
      }
      i := i + 1;
    }
  }

  method ClaimSpan(claimed: set<nat>, m: Match) returns (r: set<nat>)
    requires m.start < m.end
    ensures forall x :: x in r <==> x in claimed || m.start <= x < m.end
  {
    r := claimed;
    var i := m.start;
    while i < m.end
      invariant m.start <= i <= m.end
      invariant forall x :: x in r <==> x in claimed || m.start <= x < i
    {
      r := r + {i};
      i := i + 1;
    }
  }

  predicate ByIndex(cs: seq<Constraint>) {
    forall i, j :: 0 <= i < j < |cs| ==> cs[i].index <= cs[j].index
  }

  function InsertByIndex(c: Constraint, cs: seq<Constraint>): (r: seq<Constraint>)
    ensures multiset(r) == multiset(cs) + multiset{c}
  {
    if cs == [] || cs[|cs| - 1].index <= c.index then cs + [c]
    else
      assert cs == cs[..|cs| - 1] + [cs[|cs| - 1]];
      InsertByIndex(c, cs[..|cs| - 1]) + [cs[|cs| - 1]]
  }

  /** The stable sort by position. */
  function SortByIndex(cs: seq<Constraint>): (r: seq<Constraint>)
    ensures multiset(r) == multiset(cs)
  {
    if cs == [] then []
    else
      assert cs == cs[..|cs| - 1] + [cs[|cs| - 1]];
      InsertByIndex(cs[|cs| - 1], SortByIndex(cs[..|cs| - 1]))
  }

  lemma {:induction false} InsertKeepsOrder(c: Constraint, cs: seq<Constraint>)
    requires ByIndex(cs)
    ensures ByIndex(InsertByIndex(c, cs))
  {
    if cs != [] && cs[|cs| - 1].index > c.index {
      var head, last := cs[..|cs| - 1], cs[|cs| - 1];
      InsertKeepsOrder(c, head);
      var r := InsertByIndex(c, head);
      forall i | 0 <= i < |r|
        ensures r[i].index <= last.index
      {
        assert r[i] in multiset(r);
        assert r[i] == c || r[i] in multiset(head);
        assert r[i] == c || r[i] in head;
      }
    }
  }

  lemma {:induction false} SortedByIndex(cs: seq<Constraint>)
    ensures ByIndex(SortByIndex(cs))
  {
    if cs != [] {
      SortedByIndex(cs[..|cs| - 1]);
      InsertKeepsOrder(cs[|cs| - 1], SortByIndex(cs[..|cs| - 1]));
    }
  }

  /** One turn of the scan: a match that reads properly and touches nothing claimed is kept. */
  method ScanMatch(ghost seen: seq<Match>, ghost kept: seq<Match>, claimed: set<nat>, found: seq<Constraint>, m: Match)
    returns (claimed': set<nat>, found': seq<Constraint>, ghost kept': seq<Match>)
    requires Scanned(seen, kept, claimed, found) && m.start < m.end
    ensures Scanned(seen + [m], kept', claimed', found')
  {
    claimed', found', kept' := claimed, found, kept;
    var overlaps := SpanClaimed(claimed, m);
    OverlapShows(claimed, kept, m);
    PickStep(seen, m);
    if !overlaps && m.metric.Some? && m.value.Some? {
      claimed' := ClaimSpan(claimed, m);
      found' := found + [Constraint(m.metric.value, m.value.value, m.start)];
      KeepOne(kept, m);
      kept' := kept + [m];
      ClaimGrows(claimed, kept, claimed', m);
    }
  }

  lemma ClaimGrows(claimed: set<nat>, kept: seq<Match>, claimed': set<nat>, m: Match)
    requires ClaimedBy(claimed, kept) && forall x :: x in claimed' <==> x in claimed || m.start <= x < m.end
    ensures ClaimedBy(claimed', kept + [m])
  {
    var longer := kept + [m];
    forall x
      ensures x in claimed' <==> exists k :: 0 <= k < |longer| && longer[k].start <= x < longer[k].end
    {
      if m.start <= x < m.end {
        assert longer[|kept|].start <= x < longer[|kept|].end;
      } else if k :| 0 <= k < |kept| && kept[k].start <= x < kept[k].end {
        assert longer[k].start <= x < longer[k].end;
      }
    }
  }

  /** findConstraints: scan the patterns in order, claim what is kept, then sort by position. */
  method FindConstraints(patterns: seq<seq<Match>>) returns (found: seq<Constraint>)
    requires forall p :: 0 <= p < |patterns| ==> NonEmptySpans(patterns[p])
    ensures
      var ms := Flatten(patterns);
      var kept := PickedUpTo(ms, |ms|);
      && (forall k :: 0 <= k < |kept| ==> WellFormed(kept[k]))
      && found == SortByIndex(ToConstraints(kept))
    ensures ByIndex(found)
  {
    hide PickedUpTo;
    hide ToConstraints;
    assert Scanned([], [], {}, []) by {
      NothingScanned();
    }
    found := [];
    var claimed: set<nat> := {};
    ghost var seen: seq<Match> := [];
    ghost var kept: seq<Match> := [];
    for p := 0 to |patterns|
      invariant seen == Flatten(patterns[..p])
      invariant Scanned(seen, kept, claimed, found)
    {
      assert patterns[..p + 1][..p] == patterns[..p];
      for i := 0 to |patterns[p]|
        invariant seen == Flatten(patterns[..p]) + patterns[p][..i]
        invariant Scanned(seen, kept, claimed, found)
      {
        claimed, found, kept := ScanMatch(seen, kept, claimed, found, patterns[p][i]);
        seen := seen + [patterns[p][i]];
        assert patterns[p][..i + 1] == patterns[p][..i] + [patterns[p][i]];
      }
      assert patterns[p][..|patterns[p]|] == patterns[p];
    }
    assert patterns[..|patterns|] == patterns;
    SortedByIndex(found);
    found := SortByIndex(found);
  }

  lemma NothingScanned()
    ensures Scanned([], [], {}, [])
  {
  }

  lemma KeepOne(kept: seq<Match>, m: Match)
    requires WellFormed(m) && forall k :: 0 <= k < |kept| ==> WellFormed(kept[k])
    ensures ToConstraints(kept + [m]) == ToConstraints(kept) + [ToConstraint(m)]
  {
    assert (kept + [m])[..|kept|] == kept;
  }

  ghost predicate Scanned(seen: seq<Match>, kept: seq<Match>, claimed: set<nat>, found: seq<Constraint>) {
    && kept == PickedUpTo(seen, |seen|)
    && NonEmptySpans(kept)
    && (forall k :: 0 <= k < |kept| ==> WellFormed(kept[k]))
    && found == ToConstraints(kept)
    && ClaimedBy(claimed, kept)
  }

  // ── Filing ────────────────────────────────────────────────────────────────

  datatype Requirement = Requirement(metric: string, value: nat)

  datatype Warning =
    | NoGame
    | IgnoredExtra(metric: string, value: nat)
    | NoProviderClause
    | NotMeasurable(metric: string)
    | NoTarget

  datatype Extraction = Extraction(
    gameId: Option<string>,
    target: Option<Requirement>,
    providerRequirements: seq<Requirement>,
    confidence: real,
    warnings: seq<Warning>)

  predicate Unmeasurable(metric: string) {
    metric == "loyalty" || metric == "deception"
  }

  /** The constraints before the provider clause; all of them if there is none. */
  function BeforeClause(cs: seq<Constraint>, splitAt: int): seq<Constraint> {
    if cs == [] then []
    else
      var head, c := BeforeClause(cs[..|cs| - 1], splitAt), cs[|cs| - 1];
      if splitAt >= 0 && c.index >= splitAt then head else head + [c]
  }

  function InClause(cs: seq<Constraint>, splitAt: int): seq<Constraint> {
    if cs == [] then []
    else
      var head, c := InClause(cs[..|cs| - 1], splitAt), cs[|cs| - 1];
      if splitAt >= 0 && c.index >= splitAt then head + [c] else head
  }

  function Ignored(c: Constraint): Warning {
    IgnoredExtra(c.metric, c.value)
  }

  function IgnoredExtras(cs: seq<Constraint>): seq<Warning> {
    if cs == [] then [] else IgnoredExtras(cs[..|cs| - 1]) + [Ignored(cs[|cs| - 1])]
  }

  function Usable(cs: seq<Constraint>): seq<Requirement> {
    if cs == [] then []
    else
      var head, c := Usable(cs[..|cs| - 1]), cs[|cs| - 1];
      if Unmeasurable(c.metric) then head else head + [Requirement(c.metric, c.value)]
  }

  function Refusals(cs: seq<Constraint>): seq<Warning> {
    if cs == [] then []
    else
      var head, c := Refusals(cs[..|cs| - 1]), cs[|cs| - 1];
      if Unmeasurable(c.metric) then head + [NotMeasurable(c.metric)] else head
  }

  function Rest<T>(xs: seq<T>): seq<T> {
    if xs == [] then [] else xs[1..]
  }

  /** The constraints filed as provider requirements: those in the clause, or without one all but the first. */
  function ForProvider(cs: seq<Constraint>, splitAt: int): seq<Constraint> {
    if splitAt < 0 then Rest(cs) else InClause(cs, splitAt)
  }

  function ScoreConfidence(game: bool, target: bool, providers: nat, warnings: nat): real {
    var score := (if game then 0.35 else 0.0) + (if target then 0.45 else 0.0) + (if providers > 0 then 0.2 else 0.0);
    var x := score - warnings as real * 0.15;
    if x < 0.0 then 0.0 else if x > 1.0 then 1.0 else x
  }

  /** The filing, as a function of the sorted constraints. */
  function Filed(cs: seq<Constraint>, splitAt: int, gameId: Option<string>): Extraction {
    var before := BeforeClause(cs, splitAt);
    var first := if before == [] then [] else [before[0]];
    var provider := ForProvider(cs, splitAt);
    var target := if Usable(first) == [] then None else Some(Usable(first)[0]);
    var warnings :=
      (if gameId.None? then [NoGame] else [])
      + IgnoredExtras(Rest(before))
      + (if splitAt < 0 && |cs| > 1 then [NoProviderClause] else [])
      + Refusals(first + provider)
      + (if first == [] then [NoTarget] else []);
    Extraction(gameId, target, Usable(provider),
               ScoreConfidence(gameId.Some?, target.Some?, |Usable(provider)|, |warnings|), warnings)
  }

  /** The loop that tells target, provider side and extras apart. */
  method FileConstraints(cs: seq<Constraint>, splitAt: int)
    returns (target: seq<Constraint>, provider: seq<Constraint>, extras: seq<Warning>)
    ensures
      var before := BeforeClause(cs, splitAt);
      && provider == InClause(cs, splitAt)
      && target == (if before == [] then [] else [before[0]])
      && extras == IgnoredExtras(Rest(before))
  {
    target, provider, extras := [], [], [];
    for i := 0 to |cs|
      invariant provider == InClause(cs[..i], splitAt)
      invariant
        var before := BeforeClause(cs[..i], splitAt);
        target == (if before == [] then [] else [before[0]]) && extras == IgnoredExtras(Rest(before))
    {
      assert cs[..i + 1][..i] == cs[..i];
      ghost var before := BeforeClause(cs[..i], splitAt);
      if splitAt >= 0 && cs[i].index >= splitAt {
        provider := provider + [cs[i]];
      } else if target == [] {
        target := [cs[i]];
      } else {
        extras := extras + [Ignored(cs[i])];
        RestAppends(before, cs[i]);
      }
    }
    assert cs[..|cs|] == cs;
  }

  method ExtractDeterministic(cs: seq<Constraint>, splitAt: int, gameId: Option<string>) returns (e: Extraction)
    ensures e == Filed(cs, splitAt, gameId)
  {
    hide ScoreConfidence;
    hide Usable;
    hide Refusals;
    hide IgnoredExtras;
    var target, provider, extras := FileConstraints(cs, splitAt);
    var warnings := (if gameId.None? then [NoGame] else []) + extras;
    if splitAt < 0 {
      NoClauseNoneInside(cs, splitAt);
      provider := Rest(cs);
    }
    warnings := warnings + (if splitAt < 0 && |cs| > 1 then [NoProviderClause] else []);
    warnings := warnings + Refusals(target + provider);
    warnings := warnings + (if target == [] then [NoTarget] else []);
    var usableTarget := Usable(target);
    var chosen := if usableTarget == [] then None else Some(usableTarget[0]);
    e := Extraction(gameId, chosen, Usable(provider),
                    ScoreConfidence(gameId.Some?, chosen.Some?, |Usable(provider)|, |warnings|), warnings);
  }

  lemma RestAppends(xs: seq<Constraint>, x: Constraint)
    requires xs != []
    ensures Rest(xs + [x]) == Rest(xs) + [x]
    ensures IgnoredExtras(Rest(xs + [x])) == IgnoredExtras(Rest(xs)) + [Ignored(x)]
  {
    assert (Rest(xs) + [x])[..|Rest(xs)|] == Rest(xs);
  }

  lemma {:induction false} NoClauseNoneInside(cs: seq<Constraint>, splitAt: int)
    requires splitAt < 0
    ensures InClause(cs, splitAt) == [] && BeforeClause(cs, splitAt) == cs
  {
    if cs != [] {
      NoClauseNoneInside(cs[..|cs| - 1], splitAt);
    }
  }

  lemma {:induction false} EarlyNoneInside(cs: seq<Constraint>, splitAt: int)
    requires splitAt < 0 || forall i :: 0 <= i < |cs| ==> cs[i].index < splitAt
    ensures InClause(cs, splitAt) == []
  {
    if cs != [] {
      EarlyNoneInside(cs[..|cs| - 1], splitAt);
    }
  }

  /** Sorted by position, the constraints before the clause come first and none is lost. */
  lemma {:induction false} ClauseSplits(cs: seq<Constraint>, splitAt: int)
    requires ByIndex(cs)
    ensures cs == BeforeClause(cs, splitAt) + InClause(cs, splitAt)
    ensures forall i :: 0 <= i < |InClause(cs, splitAt)| ==> splitAt >= 0 && InClause(cs, splitAt)[i].index >= splitAt
    ensures forall i :: 0 <= i < |BeforeClause(cs, splitAt)| ==>
      splitAt < 0 || BeforeClause(cs, splitAt)[i].index < splitAt
  {
    if cs != [] {
      var n := |cs| - 1;
      var head := cs[..n];
      ClauseSplits(head, splitAt);
      var before, inside := BeforeClause(head, splitAt), InClause(head, splitAt);
      assert cs == before + inside + [cs[n]];
      if splitAt >= 0 && cs[n].index >= splitAt {
        assert BeforeClause(cs, splitAt) == before && InClause(cs, splitAt) == inside + [cs[n]];
        assert before + inside + [cs[n]] == before + (inside + [cs[n]]);
      } else {
        EarlyNoneInside(head, splitAt);
        assert BeforeClause(cs, splitAt) == before + [cs[n]] && InClause(cs, splitAt) == [];
      }
    }
  }

  /**
   Every constraint is accounted for. With a provider clause each one is the
   target, a provider requirement or a warned extra, and only one of these.
   */
  lemma FiledOnce(cs: seq<Constraint>, splitAt: int)
    requires ByIndex(cs) && splitAt >= 0
    ensures
      var before := BeforeClause(cs, splitAt);
      cs == (if before == [] then [] else [before[0]]) + Rest(before) + ForProvider(cs, splitAt)
  {
    ClauseSplits(cs, splitAt);
    var before := BeforeClause(cs, splitAt);
    if before != [] {
      assert before == [before[0]] + Rest(before);
    }
  }

  predicate Reads(c: Constraint, metric: string, value: nat) {
    c.metric == metric && c.value == value
  }

  ghost predicate HasReading(cs: seq<Constraint>, metric: string, value: nat) {
    exists c :: c in cs && Reads(c, metric, value)
  }

  ghost predicate DistinctReadings(cs: seq<Constraint>) {
    forall i, j :: 0 <= i < j < |cs| ==> !Reads(cs[i], cs[j].metric, cs[j].value)
  }

  lemma HasReadingLast(cs: seq<Constraint>, metric: string, value: nat)
    requires cs != []
    ensures HasReading(cs, metric, value)
       <==> HasReading(cs[..|cs| - 1], metric, value) || Reads(cs[|cs| - 1], metric, value)
  {
    assert cs == cs[..|cs| - 1] + [cs[|cs| - 1]];
  }

  lemma {:induction false} WarnedExtras(cs: seq<Constraint>, metric: string, value: nat)
    ensures IgnoredExtra(metric, value) in IgnoredExtras(cs) <==> HasReading(cs, metric, value)
  {
    if cs != [] {
      HasReadingLast(cs, metric, value);
      WarnedExtras(cs[..|cs| - 1], metric, value);
      hide HasReading;
    }
  }

  lemma {:induction false} RefusalsOnly(cs: seq<Constraint>)
    ensures forall w :: w in Refusals(cs) ==> w.NotMeasurable?
  {
    if cs != [] {
      RefusalsOnly(cs[..|cs| - 1]);
    }
  }

  lemma {:induction false} UsableFrom(cs: seq<Constraint>, metric: string, value: nat)
    requires !Unmeasurable(metric)
    ensures Requirement(metric, value) in Usable(cs) <==> HasReading(cs, metric, value)
  {
    if cs != [] {
      HasReadingLast(cs, metric, value);
      UsableFrom(cs[..|cs| - 1], metric, value);
      hide HasReading;
    }
  }

  lemma {:induction false} WarnedExactly(cs: seq<Constraint>, splitAt: int, gameId: Option<string>, metric: string,
                                         value: nat)
    ensures IgnoredExtra(metric, value) in Filed(cs, splitAt, gameId).warnings
       <==> HasReading(Rest(BeforeClause(cs, splitAt)), metric, value)
  {
    hide ScoreConfidence;
    hide Usable;
    var before := BeforeClause(cs, splitAt);
    WarnedExtras(Rest(before), metric, value);
    RefusalsOnly((if before == [] then [] else [before[0]]) + ForProvider(cs, splitAt));
    hide HasReading;
    hide IgnoredExtras;
    hide Refusals;
  }

  /**
   Without a provider clause the extras are filed twice. In the extraction itself: a
   measurable constraint is both warned about as ignored and kept as a provider
   requirement if and only if there is no clause and it is not the first.
   */
  lemma FiledTwiceExactly(cs: seq<Constraint>, splitAt: int, gameId: Option<string>, c: Constraint)
    requires ByIndex(cs) && DistinctReadings(cs) && c in cs && !Unmeasurable(c.metric)
    ensures
      var e := Filed(cs, splitAt, gameId);
      (IgnoredExtra(c.metric, c.value) in e.warnings && Requirement(c.metric, c.value) in e.providerRequirements)
      <==> (splitAt < 0 && c != cs[0])
  {
    WarnedExactly(cs, splitAt, gameId, c.metric, c.value);
    UsableFrom(ForProvider(cs, splitAt), c.metric, c.value);
    hide BeforeClause;
    hide Usable;
    hide IgnoredExtras;
    hide Refusals;
    hide ScoreConfidence;
    if splitAt < 0 {
      NoClauseNoneInside(cs, splitAt);
      RestReads(cs, c);
      hide HasReading;
    } else {
      NotOnBothSides(cs, splitAt, c.metric, c.value);
      hide HasReading;
    }
  }

  lemma RestReads(cs: seq<Constraint>, c: Constraint)
    requires DistinctReadings(cs) && c in cs
    ensures HasReading(Rest(cs), c.metric, c.value) <==> c != cs[0]
  {
    assert cs == [cs[0]] + Rest(cs);
    forall k | 0 <= k < |Rest(cs)|
      ensures !Reads(cs[0], Rest(cs)[k].metric, Rest(cs)[k].value)
    {
      assert cs[k + 1] == Rest(cs)[k];
    }
    if c != cs[0] {
      assert c in Rest(cs) && Reads(c, c.metric, c.value);
    }
  }

  /** With a clause, no reading stands both before it and inside it. */
  lemma NotOnBothSides(cs: seq<Constraint>, splitAt: int, metric: string, value: nat)
    requires ByIndex(cs) && DistinctReadings(cs) && splitAt >= 0
    ensures !(HasReading(Rest(BeforeClause(cs, splitAt)), metric, value)
              && HasReading(InClause(cs, splitAt), metric, value))
  {
    ClauseSplits(cs, splitAt);
    var before, inside := BeforeClause(cs, splitAt), InClause(cs, splitAt);
    forall d, e | d in Rest(before) && e in inside
      ensures !(Reads(d, metric, value) && Reads(e, metric, value))
    {
      var i :| 0 <= i < |Rest(before)| && Rest(before)[i] == d;
      var j :| 0 <= j < |inside| && inside[j] == e;
      assert cs[i + 1] == d && cs[|before| + j] == e;
    }
  }

  // ── What an extraction says ───────────────────────────────────────────────

  /** The target is the first constraint of the prompt, if it stands before the provider clause and can be measured. */
  lemma {:induction false} TargetIsFirst(cs: seq<Constraint>, splitAt: int, gameId: Option<string>)
    requires ByIndex(cs)
    ensures
      var e := Filed(cs, splitAt, gameId);
      if cs != [] && (splitAt < 0 || cs[0].index < splitAt) && !Unmeasurable(cs[0].metric)
      then e.target == Some(Requirement(cs[0].metric, cs[0].value))
      else e.target == None
  {
    FirstBefore(cs, splitAt);
    var before := BeforeClause(cs, splitAt);
    hide BeforeClause;
    hide InClause;
    hide Refusals;
    hide IgnoredExtras;
    hide ScoreConfidence;
    hide ByIndex;
    if before != [] {
      UsableOne(before[0]);
    }
    hide Unmeasurable;
  }

  lemma {:induction false} NoTargetExactly(cs: seq<Constraint>, splitAt: int, gameId: Option<string>)
    requires ByIndex(cs)
    ensures NoTarget in Filed(cs, splitAt, gameId).warnings
       <==> cs == [] || (splitAt >= 0 && cs[0].index >= splitAt)
  {
    FirstBefore(cs, splitAt);
    var before := BeforeClause(cs, splitAt);
    var first := if before == [] then [] else [before[0]];
    RefusalsOnly(first + ForProvider(cs, splitAt));
    IgnoredOnly(Rest(before));
    hide BeforeClause;
    hide InClause;
    hide Refusals;
    hide IgnoredExtras;
    hide ScoreConfidence;
    hide ByIndex;
    hide Usable;
  }

  lemma {:induction false} UsableOne(c: Constraint)
    ensures Usable([c]) == if Unmeasurable(c.metric) then [] else [Requirement(c.metric, c.value)]
  {
    assert [c][..0] == [];
    assert Usable([]) == [];
  }

  lemma {:induction false} IgnoredOnly(cs: seq<Constraint>)
    ensures forall w :: w in IgnoredExtras(cs) ==> w.IgnoredExtra?
  {
    if cs != [] {
      IgnoredOnly(cs[..|cs| - 1]);
    }
  }

  lemma {:induction false} FirstBefore(cs: seq<Constraint>, splitAt: int)
    requires ByIndex(cs)
    ensures BeforeClause(cs, splitAt) == [] <==> cs == [] || (splitAt >= 0 && cs[0].index >= splitAt)
    ensures BeforeClause(cs, splitAt) != [] ==> BeforeClause(cs, splitAt)[0] == cs[0]
  {
    ClauseSplits(cs, splitAt);
    hide BeforeClause;
    hide InClause;
  }

  /** The other warnings, each exactly where its cause is. */
  lemma {:induction false} WarningsHaveCauses(cs: seq<Constraint>, splitAt: int, gameId: Option<string>)
    ensures NoGame in Filed(cs, splitAt, gameId).warnings <==> gameId.None?
    ensures NoProviderClause in Filed(cs, splitAt, gameId).warnings <==> splitAt < 0 && |cs| > 1
    ensures Filed(cs, splitAt, gameId).gameId == gameId
  {
    var before := BeforeClause(cs, splitAt);
    var first := if before == [] then [] else [before[0]];
    RefusalsOnly(first + ForProvider(cs, splitAt));
    IgnoredOnly(Rest(before));
    hide Refusals;
    hide IgnoredExtras;
    hide ScoreConfidence;
    hide Usable;
    hide BeforeClause;
    hide InClause;
  }

  lemma {:induction false} RefusalsFrom(cs: seq<Constraint>, metric: string)
    ensures NotMeasurable(metric) in Refusals(cs)
       <==> (metric == "loyalty" || metric == "deception") && exists c :: c in cs && c.metric == metric
  {
    if cs != [] {
      RefusalsFrom(cs[..|cs| - 1], metric);
      assert cs == cs[..|cs| - 1] + [cs[|cs| - 1]];
    }
  }

  /** A metric is refused exactly where the target or a provider requirement names it and it is not measurable. */
  lemma {:induction false} RefusedMetrics(cs: seq<Constraint>, splitAt: int, gameId: Option<string>, metric: string)
    ensures
      var before := BeforeClause(cs, splitAt);
      NotMeasurable(metric) in Filed(cs, splitAt, gameId).warnings <==>
        (metric == "loyalty" || metric == "deception")
        && ((before != [] && before[0].metric == metric)
            || exists c :: c in ForProvider(cs, splitAt) && c.metric == metric)
  {
    var before := BeforeClause(cs, splitAt);
    var first := if before == [] then [] else [before[0]];
    RefusalsFrom(first + ForProvider(cs, splitAt), metric);
    IgnoredOnly(Rest(before));
    hide BeforeClause;
    hide ForProvider;
    hide Refusals;
    hide IgnoredExtras;
    hide ScoreConfidence;
    hide Usable;
  }

  /**
   The confidence: 35, 45 and 20 hundredths for a game, a target and a provider
   requirement, less 15 for each warning, and never below none.
   */
  lemma {:induction false} ConfidenceInNumbers(cs: seq<Constraint>, splitAt: int, gameId: Option<string>)
    ensures
      var e := Filed(cs, splitAt, gameId);
      var hundredths :=
        (if e.gameId.Some? then 35 else 0) + (if e.target.Some? then 45 else 0)
        + (if e.providerRequirements != [] then 20 else 0) - 15 * |e.warnings|;
      e.confidence * 100.0 == (if hundredths < 0 then 0 else hundredths) as real
  {
    hide Refusals;
    hide IgnoredExtras;
    hide Usable;
    hide BeforeClause;
    hide InClause;
  }

  /** Each constraint found is what one kept match reads, at the place where that match starts. */
  lemma {:induction false} FoundExactly(ms: seq<Match>, c: Constraint)
    requires var kept := PickedUpTo(ms, |ms|); forall k :: 0 <= k < |kept| ==> WellFormed(kept[k])
    ensures c in SortByIndex(ToConstraints(PickedUpTo(ms, |ms|))) <==>
      exists i :: 0 <= i < |ms| && Picked(ms, i)
                  && ms[i].metric == Some(c.metric) && ms[i].value == Some(c.value) && ms[i].start == c.index
  {
    var kept := PickedUpTo(ms, |ms|);
    PickedMembers(ms, |ms|);
    SortKeepsMembers(ToConstraints(kept), c);
    ConvertedMembers(kept, c);
    hide Picked;
    hide PickedUpTo;
    if c in ToConstraints(kept) {
      var m :| m in kept && m.metric == Some(c.metric) && m.value == Some(c.value) && m.start == c.index;
      var i :| 0 <= i < |ms| && Picked(ms, i) && ms[i] == m;
    }
    if i :| 0 <= i < |ms| && Picked(ms, i)
            && ms[i].metric == Some(c.metric) && ms[i].value == Some(c.value) && ms[i].start == c.index {
      assert ms[i] in kept;
    }
  }

  lemma {:induction false} ConvertedMembers(kept: seq<Match>, c: Constraint)
    requires forall k :: 0 <= k < |kept| ==> WellFormed(kept[k])
    ensures c in ToConstraints(kept) <==>
      exists m :: m in kept && m.metric == Some(c.metric) && m.value == Some(c.value) && m.start == c.index
  {
    if kept != [] {
      var n := |kept| - 1;
      ConvertedMembers(kept[..n], c);
      assert kept == kept[..n] + [kept[n]];
    }
  }

  lemma {:induction false} SortKeepsMembers(cs: seq<Constraint>, c: Constraint)
    ensures c in SortByIndex(cs) <==> c in cs
  {
    assert c in multiset(SortByIndex(cs)) <==> c in multiset(cs);
    hide SortByIndex;
  }

  // ── Reconciling a model's reading ─────────────────────────────────────────

  /** What a language model proposes. */
  datatype Proposal = Proposal(gameId: Option<string>, target: Option<Requirement>, providers: seq<Requirement>)

  predicate Grounded(r: Requirement, numbers: set<nat>) {
    r.value in numbers && !Unmeasurable(r.metric)
  }

  function KeepGrounded(rs: seq<Requirement>, numbers: set<nat>): (r: seq<Requirement>)
    ensures forall i :: 0 <= i < |r| ==> Grounded(r[i], numbers) && r[i] in rs
  {
    if rs == [] then []
    else
      var head, last := KeepGrounded(rs[..|rs| - 1], numbers), rs[|rs| - 1];
      if Grounded(last, numbers) then head + [last] else head
  }

  datatype Merged = Merged(gameId: Option<string>, target: Option<Requirement>, providers: seq<Requirement>)

  /** mergeExtractions, warnings and confidence apart; numbers are those in the prompt. */
  function Merge(numbers: set<nat>, llm: Proposal, pattern: Extraction): Merged {
    var own := llm.target.Some? && Grounded(llm.target.value, numbers);
    var providers := KeepGrounded(llm.providers, numbers);
    Merged(if llm.gameId.Some? then llm.gameId else pattern.gameId,
           if own then llm.target else pattern.target,
           if providers != [] then providers else pattern.providerRequirements)
  }

  lemma {:induction false} UsableIsMeasurable(cs: seq<Constraint>)
    ensures forall i :: 0 <= i < |Usable(cs)| ==> !Unmeasurable(Usable(cs)[i].metric)
  {
    if cs != [] {
      UsableIsMeasurable(cs[..|cs| - 1]);
    }
  }

  /**
   No reading invents a constraint: whatever the model proposes, each requirement
   kept is the model's with a number from the prompt or one the patterns matched,
   and none names a metric that cannot be measured.
   */
  lemma NothingInvented(numbers: set<nat>, llm: Proposal, cs: seq<Constraint>, splitAt: int, gameId: Option<string>)
    ensures
      var pattern := Filed(cs, splitAt, gameId);
      var m := Merge(numbers, llm, pattern);
      && (m.target.Some? ==>
            !Unmeasurable(m.target.value.metric) && (m.target.value.value in numbers || m.target == pattern.target))
      && (forall i :: 0 <= i < |m.providers| ==>
            !Unmeasurable(m.providers[i].metric)
            && (m.providers[i].value in numbers || m.providers == pattern.providerRequirements))
  {
    var before := BeforeClause(cs, splitAt);
    UsableIsMeasurable(if before == [] then [] else [before[0]]);
    UsableIsMeasurable(ForProvider(cs, splitAt));
    hide Unmeasurable;
  }

  lemma {:induction false} KeptExactly(rs: seq<Requirement>, numbers: set<nat>, r: Requirement)
    ensures r in KeepGrounded(rs, numbers)
       <==> r in rs && r.value in numbers && r.metric != "loyalty" && r.metric != "deception"
  {
    if rs != [] {
      KeptExactly(rs[..|rs| - 1], numbers, r);
      assert rs == rs[..|rs| - 1] + [rs[|rs| - 1]];
    }
  }

  /**
   The model's reading wins wherever the prompt bears it out: a target with a number
   from the prompt stands, each such provider requirement stands if any does, and
   what it leaves open is the patterns'.
   */
  lemma {:induction false} GroundedReadingWins(numbers: set<nat>, llm: Proposal, pattern: Extraction, r: Requirement)
    ensures
      var m := Merge(numbers, llm, pattern);
      var borne := r.value in numbers && r.metric != "loyalty" && r.metric != "deception";
      && (llm.target == Some(r) ==> m.target == if borne then Some(r) else pattern.target)
      && (llm.target.None? ==> m.target == pattern.target)
      && (r in llm.providers && borne ==> r in m.providers)
      && (m.providers != pattern.providerRequirements ==> (r in m.providers <==> r in llm.providers && borne))
      && m.gameId == (if llm.gameId.Some? then llm.gameId else pattern.gameId)
  {
    KeptExactly(llm.providers, numbers, r);
    hide KeepGrounded;
  }
}
