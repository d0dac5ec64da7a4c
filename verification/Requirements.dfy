/**
 The job requirement document: how it is built, the text and hash it commits
 to, and what a third party's check of that hash establishes.
 */
module Requirements {
  import opened Prelude
  import opened Decimal
  import opened Canonical
  import opened JsonNumber
  import opened Json
  import opened Usdc

  // ── Building ──────────────────────────────────────────────────────────────

  /** A predicate as the caller gives it; value None is NaN or an infinity. */
  datatype Predicate = Predicate(metric: string, op: string, value: Option<real>, requireMeasured: Option<bool>)

  /** None stands for undefined. Budgets are text. */
  datatype BuildInput = BuildInput(
    prompt: Option<string>,
    gameId: Option<string>,
    target: Predicate,
    providerRequirements: Option<seq<Predicate>>,
    budgetMin: string,
    budgetMax: string,
    executionWindowSeconds: Option<real>,
    creatorAgentId: Option<string>,
    nonce: Option<string>)

  datatype Requirement = Requirement(metric: string, op: string, value: int, requireMeasured: bool)

  datatype JobDocument = JobDocument(
    prompt: string,
    gameId: string,
    target: Requirement,
    providerRequirements: seq<Requirement>,
    minBaseUnits: string,
    maxBaseUnits: string,
    executionWindowSeconds: int,
    creatorAgentId: string,
    nonce: string)

  datatype BuildError =
    | PromptRequired
    | PromptTooLong
    | GameIdRequired
    | CreatorAgentIdRequired
    | MetricRequired
    | UnknownOperator
    | ValueNotInteger
    | TooManyRequirements
    | BadAmount(amount: AmountError)
    | MinimumNotPositive
    | MaximumBelowMinimum
    | WindowNotPositiveInteger
    | WindowTooLong

  const DEFAULT_WINDOW := 6 * 60 * 60
  const MAX_WINDOW := 30 * 24 * 60 * 60
  const MAX_PROMPT_LENGTH := 4000
  const MAX_PROVIDER_REQUIREMENTS := 12
  const SCHEMA := "a2a-req-v1"

  function TrimOr(text: Option<string>): string {
    if text.None? then "" else Trim(text.value)
  }

  /** String length counts UTF-16 code units. */
  function Utf16Length(s: string): nat {
    if s == "" then 0 else (if s[0] as int >= 0x10000 then 2 else 1) + Utf16Length(s[1..])
  }

  predicate KnownOperator(op: string) {
    op == "gte" || op == "gt" || op == "lte" || op == "lt" || op == "eq"
  }

  function CheckPredicate(p: Predicate): Option<BuildError> {
    if Trim(p.metric) == "" then Some(MetricRequired)
    else if !KnownOperator(p.op) then Some(UnknownOperator)
    else if p.value.None? || !IsInteger(p.value.value) then Some(ValueNotInteger)
    else None
  }

  /** The first complaint, in order. */
  function CheckPredicates(ps: seq<Predicate>): (r: Option<BuildError>)
    ensures r.None? <==> forall i :: 0 <= i < |ps| ==> CheckPredicate(ps[i]).None?
  {
    if ps == [] then None
    else if CheckPredicate(ps[0]).Some? then CheckPredicate(ps[0])
    else
      var r := CheckPredicates(ps[1..]);
      assert forall i :: 1 <= i < |ps| ==> ps[i] == ps[1..][i - 1];
      r
  }

  function Normalize(p: Predicate): Requirement
    requires CheckPredicate(p).None?
  {
    Requirement(Trim(p.metric), p.op, p.value.value.Floor, p.requireMeasured == Some(true))
  }

  function NormalizeAll(ps: seq<Predicate>): (r: seq<Requirement>)
    requires CheckPredicates(ps).None?
    ensures |r| == |ps|
  {
    if ps == [] then [] else [Normalize(ps[0])] + NormalizeAll(ps[1..])
  }

  function CheckWindow(seconds: real): Option<BuildError> {
    if !IsInteger(seconds) || seconds <= 0.0 then Some(WindowNotPositiveInteger)
    else if seconds > MAX_WINDOW as real then Some(WindowTooLong)
    else None
  }

  /** buildRequirementDocument; the default nonce is drawn from the clock and a random source. */
  function Build(input: BuildInput, defaultNonce: string): Result<JobDocument, BuildError> {
    var prompt := TrimOr(input.prompt);
    var requirements := if input.providerRequirements.None? then [] else input.providerRequirements.value;
    if prompt == "" then Err(PromptRequired)
    else if Utf16Length(prompt) > MAX_PROMPT_LENGTH then Err(PromptTooLong)
    else if TrimOr(input.gameId) == "" then Err(GameIdRequired)
    else if TrimOr(input.creatorAgentId) == "" then Err(CreatorAgentIdRequired)
    else if CheckPredicate(input.target).Some? then Err(CheckPredicate(input.target).value)
    else if |requirements| > MAX_PROVIDER_REQUIREMENTS then Err(TooManyRequirements)
    else if CheckPredicates(requirements).Some? then Err(CheckPredicates(requirements).value)
    else
      var min, max := ParseUsdc(input.budgetMin), ParseUsdc(input.budgetMax);
      if min.Err? then Err(BadAmount(min.error))
      else if max.Err? then Err(BadAmount(max.error))
      else if min.value == 0 then Err(MinimumNotPositive)
      else if max.value < min.value then Err(MaximumBelowMinimum)
      else
        var window :=
          if input.executionWindowSeconds.None? then DEFAULT_WINDOW as real else input.executionWindowSeconds.value;
        if CheckWindow(window).Some? then Err(CheckWindow(window).value)
        else
          Ok(JobDocument(prompt, TrimOr(input.gameId), Normalize(input.target), NormalizeAll(requirements),
                         Show(min.value), Show(max.value), window.Floor, TrimOr(input.creatorAgentId),
                         if input.nonce.None? then defaultNonce else input.nonce.value))
  }

  /** What a later reader of a built document may rely on. */
  predicate Settleable(d: JobDocument) {
    && d.prompt != "" && Trimmed(d.prompt)
    && d.gameId != "" && Trimmed(d.gameId)
    && d.creatorAgentId != "" && Trimmed(d.creatorAgentId)
    && 0 < d.executionWindowSeconds <= MAX_WINDOW
    && |d.providerRequirements| <= MAX_PROVIDER_REQUIREMENTS
    && BigIntOf(d.minBaseUnits).Some? && BigIntOf(d.maxBaseUnits).Some?
    && 0 < BigIntOf(d.minBaseUnits).value <= BigIntOf(d.maxBaseUnits).value
  }

  /** Every document that is built can settle: its stored budget texts read back as a proper range. */
  lemma {:induction false} BuiltIsSettleable(input: BuildInput, defaultNonce: string)
    requires Build(input, defaultNonce).Ok?
    ensures Settleable(Build(input, defaultNonce).value)
  {
    hide BigIntOf;
    hide Trim;
    TrimShape(if input.prompt.None? then "" else input.prompt.value);
    TrimShape(if input.gameId.None? then "" else input.gameId.value);
    TrimShape(if input.creatorAgentId.None? then "" else input.creatorAgentId.value);
    BigIntOfShow(ParseUsdc(input.budgetMin).value);
    BigIntOfShow(ParseUsdc(input.budgetMax).value);
  }

  predicate GoodPredicate(p: Predicate) {
    && Trim(p.metric) != "" && p.op in {"gte", "gt", "lte", "lt", "eq"}
    && p.value.Some? && p.value.value == p.value.value.Floor as real
  }

  /** What a caller has to supply, whatever order the checks run in. */
  predicate Buildable(input: BuildInput) {
    && TrimOr(input.prompt) != "" && Utf16Length(TrimOr(input.prompt)) <= 4000
    && TrimOr(input.gameId) != "" && TrimOr(input.creatorAgentId) != ""
    && GoodPredicate(input.target)
    && (input.providerRequirements.Some? ==>
          |input.providerRequirements.value| <= 12
          && forall i :: 0 <= i < |input.providerRequirements.value| ==>
               GoodPredicate(input.providerRequirements.value[i]))
    && ParseUsdc(input.budgetMin).Ok? && ParseUsdc(input.budgetMax).Ok?
    && 0 < ParseUsdc(input.budgetMin).value <= ParseUsdc(input.budgetMax).value
    && (input.executionWindowSeconds.Some? ==>
          IsInteger(input.executionWindowSeconds.value)
          && 0.0 < input.executionWindowSeconds.value <= 2592000.0)
  }

  lemma {:induction false} KnownOperators()
    ensures forall op :: KnownOperator(op) <==> op in {"gte", "gt", "lte", "lt", "eq"}
  {
  }

  /** Length in code units is length in characters, plus one for each beyond the Basic Multilingual Plane. */
  lemma {:induction false} Utf16Counts(s: string)
    ensures |s| <= Utf16Length(s) <= 2 * |s|
    ensures Utf16Length(s) == |s| <==> forall i :: 0 <= i < |s| ==> s[i] as int < 0x10000
  {
    if s != "" {
      Utf16Counts(s[1..]);
      assert forall i :: 1 <= i < |s| ==> s[i] == s[1..][i - 1];
    }
  }

  /** A document is built for exactly the inputs that are complete and within bounds. */
  lemma {:induction false} BuildsExactly(input: BuildInput, defaultNonce: string)
    ensures Build(input, defaultNonce).Ok? <==> Buildable(input)
  {
    KnownOperators();
    hide ParseUsdc;
    hide Trim;
    hide KnownOperator;
    hide Utf16Length;
    hide Normalize;
    hide NormalizeAll;
    assert IsInteger(DEFAULT_WINDOW as real);
    if input.providerRequirements.Some? {
      var ps := input.providerRequirements.value;
      assert forall i :: 0 <= i < |ps| ==> (GoodPredicate(ps[i]) <==> CheckPredicate(ps[i]).None?);
    }
  }

  /** Every predicate a caller names, the target first. */
  function Named(input: BuildInput): seq<Predicate> {
    [input.target] + (if input.providerRequirements.None? then [] else input.providerRequirements.value)
  }

  lemma {:induction false} ComplaintHasCause(ps: seq<Predicate>)
    requires CheckPredicates(ps).Some?
    ensures exists i :: 0 <= i < |ps| && CheckPredicate(ps[i]) == CheckPredicates(ps)
  {
    if CheckPredicate(ps[0]).None? {
      ComplaintHasCause(ps[1..]);
      var i :| 0 <= i < |ps[1..]| && CheckPredicate(ps[1..][i]) == CheckPredicates(ps[1..]);
      assert ps[i + 1] == ps[1..][i];
    }
  }

  /** What is wrong with an input that is refused for this reason. */
  ghost predicate HasDefect(input: BuildInput, e: BuildError) {
    match e
    case PromptRequired => TrimOr(input.prompt) == ""
    case PromptTooLong => Utf16Length(TrimOr(input.prompt)) > 4000
    case GameIdRequired => TrimOr(input.gameId) == ""
    case CreatorAgentIdRequired => TrimOr(input.creatorAgentId) == ""
    case MetricRequired => exists p :: p in Named(input) && Trim(p.metric) == ""
    case UnknownOperator => exists p :: p in Named(input) && !KnownOperator(p.op)
    case ValueNotInteger => exists p :: p in Named(input) && (p.value.Some? ==> !IsInteger(p.value.value))
    case TooManyRequirements => |Named(input)| > 13
    case BadAmount(a) => ParseUsdc(input.budgetMin) == Err(a) || ParseUsdc(input.budgetMax) == Err(a)
    case MinimumNotPositive => ParseUsdc(input.budgetMin) == Ok(0)
    case MaximumBelowMinimum =>
      ParseUsdc(input.budgetMin).Ok? && ParseUsdc(input.budgetMax).Ok?
      && ParseUsdc(input.budgetMax).value < ParseUsdc(input.budgetMin).value
    case WindowNotPositiveInteger =>
      input.executionWindowSeconds.Some?
      && (!IsInteger(input.executionWindowSeconds.value) || input.executionWindowSeconds.value <= 0.0)
    case WindowTooLong => input.executionWindowSeconds.Some? && input.executionWindowSeconds.value > 2592000.0
  }

  /** A refusal names a defect the input really has. */
  lemma {:induction false} RefusalIsTrue(input: BuildInput, defaultNonce: string)
    ensures Build(input, defaultNonce).Err? ==> HasDefect(input, Build(input, defaultNonce).error)
  {
    hide ParseUsdc;
    hide Trim;
    hide KnownOperator;
    hide Utf16Length;
    hide Normalize;
    hide NormalizeAll;
    assert IsInteger(DEFAULT_WINDOW as real);
    assert input.target in Named(input);
    if input.providerRequirements.Some? && CheckPredicates(input.providerRequirements.value).Some? {
      var ps := input.providerRequirements.value;
      ComplaintHasCause(ps);
      var i :| 0 <= i < |ps| && CheckPredicate(ps[i]) == CheckPredicates(ps);
      assert Named(input)[i + 1] == ps[i];
    }
  }

  /** A requirement says what its predicate said; "measured" is required only when asked for. */
  predicate Says(r: Requirement, p: Predicate) {
    r.metric == Trim(p.metric) && r.op == p.op && p.value == Some(r.value as real)
    && (r.requireMeasured <==> p.requireMeasured == Some(true))
  }

  lemma {:induction false} NormalizeAllSays(ps: seq<Predicate>)
    requires CheckPredicates(ps).None?
    ensures forall i :: 0 <= i < |ps| ==> Says(NormalizeAll(ps)[i], ps[i])
  {
    hide Trim;
    hide KnownOperator;
    if ps != [] {
      NormalizeAllSays(ps[1..]);
      forall i | 0 <= i < |ps|
        ensures Says(NormalizeAll(ps)[i], ps[i])
      {
        assert i > 0 ==> ps[i] == ps[1..][i - 1] && NormalizeAll(ps)[i] == NormalizeAll(ps[1..])[i - 1];
      }
    }
  }

  /** The built document carries the input, field by field, with amounts exact to the base unit. */
  lemma {:induction false} BuiltSaysInput(input: BuildInput, defaultNonce: string)
    requires Build(input, defaultNonce).Ok?
    ensures
      var d := Build(input, defaultNonce).value;
      && d.prompt == TrimOr(input.prompt) && d.gameId == TrimOr(input.gameId)
      && d.creatorAgentId == TrimOr(input.creatorAgentId)
      && Says(d.target, input.target)
      && (input.providerRequirements.Some? ==>
            |d.providerRequirements| == |input.providerRequirements.value|
            && forall i :: 0 <= i < |d.providerRequirements| ==>
                 Says(d.providerRequirements[i], input.providerRequirements.value[i]))
      && (input.providerRequirements.None? ==> d.providerRequirements == [])
      && (input.executionWindowSeconds.Some? ==>
            d.executionWindowSeconds as real == input.executionWindowSeconds.value)
      && (input.executionWindowSeconds.None? ==> d.executionWindowSeconds == DEFAULT_WINDOW)
      && d.nonce == (if input.nonce.Some? then input.nonce.value else defaultNonce)
  {
    hide ParseUsdc;
    hide Trim;
    hide KnownOperator;
    hide Utf16Length;
    if input.providerRequirements.Some? {
      NormalizeAllSays(input.providerRequirements.value);
    }
  }

  lemma {:induction false} BuiltBudgetTexts(input: BuildInput, defaultNonce: string)
    requires Build(input, defaultNonce).Ok?
    ensures ParseUsdc(input.budgetMin).Ok? && ParseUsdc(input.budgetMax).Ok?
    ensures Build(input, defaultNonce).value.minBaseUnits == Show(ParseUsdc(input.budgetMin).value)
    ensures Build(input, defaultNonce).value.maxBaseUnits == Show(ParseUsdc(input.budgetMax).value)
  {
    hide ParseUsdc;
    hide Trim;
    hide KnownOperator;
    hide Utf16Length;
    hide Show;
  }

  /** The stored budget is the amount the caller wrote, to the base unit. */
  lemma {:induction false} BuiltBudgetIsExact(input: BuildInput, defaultNonce: string)
    requires Build(input, defaultNonce).Ok?
    ensures IsAmount(Trim(input.budgetMin)) && IsAmount(Trim(input.budgetMax))
    ensures
      var d := Build(input, defaultNonce).value;
      && BigIntOf(d.minBaseUnits).Some? && BigIntOf(d.maxBaseUnits).Some?
      && BigIntOf(d.minBaseUnits).value as real == Exact(Trim(input.budgetMin)) * 1000000.0
      && BigIntOf(d.maxBaseUnits).value as real == Exact(Trim(input.budgetMax)) * 1000000.0
  {
    hide BigIntOf;
    hide ParseUsdc;
    hide Trim;
    hide Exact;
    hide IsAmount;
    hide Build;
    hide Show;
    BuiltBudgetTexts(input, defaultNonce);
    ParseIsExact(input.budgetMin);
    ParseIsExact(input.budgetMax);
    BigIntOfShow(ParseUsdc(input.budgetMin).value);
    BigIntOfShow(ParseUsdc(input.budgetMax).value);
  }

  // ── The document as a value to hash ───────────────────────────────────────

  function RequirementFields(r: Requirement): seq<Field<Js>> {
    [Field("metric", JStr(r.metric)), Field("op", JStr(r.op)), Field("value", JNum(r.value as real))]
    + (if r.requireMeasured then [Field("requireMeasured", JBool(true))] else [])
  }

  function RequirementJs(r: Requirement): Js {
    JObj(RequirementFields(r))
  }

  function RequirementList(rs: seq<Requirement>): seq<Js> {
    if rs == [] then [] else RequirementList(rs[..|rs| - 1]) + [RequirementJs(rs[|rs| - 1])]
  }

  function BudgetFields(min: string, max: string): seq<Field<Js>> {
    [Field("minBaseUnits", JStr(min)), Field("maxBaseUnits", JStr(max))]
  }

  function DocumentFields(d: JobDocument): (r: seq<Field<Js>>)
    ensures |r| == 9
  {
    [Field("schema", JStr(SCHEMA)),
     Field("prompt", JStr(d.prompt)),
     Field("gameId", JStr(d.gameId)),
     Field("target", RequirementJs(d.target)),
     Field("providerRequirements", JArr(RequirementList(d.providerRequirements))),
     Field("budget", JObj(BudgetFields(d.minBaseUnits, d.maxBaseUnits))),
     Field("executionWindowSeconds", JNum(d.executionWindowSeconds as real)),
     Field("creatorAgentId", JStr(d.creatorAgentId)),
     Field("nonce", JStr(d.nonce))]
  }

  function ToJs(d: JobDocument): Js {
    JObj(DocumentFields(d))
  }

  lemma {:induction false} RequirementIsHashable(r: Requirement)
    ensures Unique(RequirementJs(r)) && Acceptable(RequirementJs(r))
    ensures forall i :: 0 <= i < |RequirementFields(r)| ==> Kept(RequirementFields(r)[i])
  {
    var fs := RequirementFields(r);
    assert |fs[0].key| == 6 && |fs[1].key| == 2 && |fs[2].key| == 5;
    assert |fs| == 4 ==> |fs[3].key| == 15;
    assert IsInteger(r.value as real);
    forall i | 0 <= i < |fs|
      ensures AcceptableField(fs[i]) && UniqueField(fs[i])
    {
      assert fs[i].value.JStr? || fs[i].value.JBool? || fs[i].value == JNum(r.value as real);
    }
  }

  predicate Kept(f: Field<Js>) {
    |f.key| != 9 && !f.value.JUndefined?
  }

  lemma {:induction false} RequirementsAreHashable(rs: seq<Requirement>)
    ensures |RequirementList(rs)| == |rs|
    ensures forall i :: 0 <= i < |rs| ==> RequirementList(rs)[i] == RequirementJs(rs[i])
    ensures Unique(JArr(RequirementList(rs))) && Acceptable(JArr(RequirementList(rs)))
  {
    hide RequirementJs;
    if rs != [] {
      var n := |rs| - 1;
      RequirementsAreHashable(rs[..n]);
      RequirementIsHashable(rs[n]);
    }
  }

  lemma {:induction false} BudgetIsHashable(min: string, max: string)
    ensures Unique(JObj(BudgetFields(min, max))) && Acceptable(JObj(BudgetFields(min, max)))
  {
    var fs := BudgetFields(min, max);
    assert fs[0].key[1] == 'i' && fs[1].key[1] == 'a';
    forall i | 0 <= i < |fs|
      ensures AcceptableField(fs[i]) && UniqueField(fs[i])
    {
      assert fs[i].value.JStr?;
    }
  }

  lemma {:induction false} DocumentKeys(d: JobDocument)
    ensures UniqueKeys(DocumentFields(d))
  {
    hide RequirementJs;
    hide RequirementList;
    hide BudgetFields;
    var fs := DocumentFields(d);
    assert fs[0].key[0] == 's' && fs[2].key[0] == 'g' && fs[3].key[0] == 't' && fs[5].key[0] == 'b';
    assert |fs[6].key| == 22 && |fs[7].key| == 14 && |fs[8].key| == 5;
    assert fs[1].key[0] == 'p' && |fs[1].key| == 6 && |fs[4].key| == 20;
    assert |fs[0].key| == |fs[2].key| == |fs[3].key| == |fs[5].key| == 6;
  }

  lemma {:induction false} DocumentFieldKept(d: JobDocument, i: nat)
    requires i < 9
    ensures Kept(DocumentFields(d)[i])
  {
    hide RequirementFields;
    hide RequirementList;
    hide BudgetFields;
  }

  lemma {:induction false} DocumentFieldHashable(d: JobDocument, i: nat)
    requires i < 9
    ensures AcceptableField(DocumentFields(d)[i]) && UniqueField(DocumentFields(d)[i])
  {
    var v := DocumentFields(d)[i].value;
    if i == 3 {
      RequirementIsHashable(d.target);
    } else if i == 4 {
      RequirementsAreHashable(d.providerRequirements);
    } else if i == 5 {
      BudgetIsHashable(d.minBaseUnits, d.maxBaseUnits);
    } else if i == 6 {
      assert IsInteger(d.executionWindowSeconds as real);
    }
    hide RequirementJs;
    hide RequirementList;
    hide BudgetFields;
    assert Unique(v) && Acceptable(v);
  }

  /** A built document is always hashable: canonicalize never throws on it. */
  lemma {:induction false} DocumentIsHashable(d: JobDocument)
    ensures Unique(ToJs(d)) && Acceptable(ToJs(d))
  {
    hide DocumentFields;
    DocumentKeys(d);
    forall i | 0 <= i < |DocumentFields(d)|
      ensures AcceptableField(DocumentFields(d)[i]) && UniqueField(DocumentFields(d)[i])
    {
      DocumentFieldHashable(d, i);
    }
  }

  // ── The text determines the document ──────────────────────────────────────

  lemma {:induction false} FieldMeaning(fields: seq<Field<Js>>, i: nat)
    requires UniqueKeys(fields) && i < |fields| && Kept(fields[i])
    ensures fields[i].key in DenoteFields(fields)
    ensures DenoteFields(fields)[fields[i].key] == Denote(fields[i].value)
  {
    hide Denote;
    DenoteFieldsHolds(fields);
    assert Carries(fields[i], fields[i].key, Denote(fields[i].value)) by {
      assert |"__proto__"| == 9;
    }
    assert HasField(fields, fields[i].key, Denote(fields[i].value));
  }

  lemma {:induction false} SameFieldMeaning(fs: seq<Field<Js>>, gs: seq<Field<Js>>, i: nat)
    requires UniqueKeys(fs) && UniqueKeys(gs) && DenoteFields(fs) == DenoteFields(gs)
    requires i < |fs| && i < |gs| && fs[i].key == gs[i].key && Kept(fs[i]) && Kept(gs[i])
    ensures Denote(fs[i].value) == Denote(gs[i].value)
  {
    hide Denote;
    hide DenoteFields;
    FieldMeaning(fs, i);
    FieldMeaning(gs, i);
  }

  lemma {:induction false} MeasuredShows(r: Requirement)
    ensures "requireMeasured" in DenoteFields(RequirementFields(r)) <==> r.requireMeasured
  {
    var fs := RequirementFields(r);
    RequirementIsHashable(r);
    if r.requireMeasured {
      FieldMeaning(fs, 3);
    } else {
      assert |fs[0].key| == 6 && |fs[1].key| == 2 && |fs[2].key| == 5 && |"requireMeasured"| == 15;
      AbsentField(fs, "requireMeasured");
    }
  }

  lemma {:induction false} RequirementDetermined(r: Requirement, q: Requirement)
    requires Denote(RequirementJs(r)) == Denote(RequirementJs(q))
    ensures r == q
  {
    RequirementIsHashable(r);
    RequirementIsHashable(q);
    MeasuredShows(r);
    MeasuredShows(q);
    SameFieldMeaning(RequirementFields(r), RequirementFields(q), 0);
    SameFieldMeaning(RequirementFields(r), RequirementFields(q), 1);
    SameFieldMeaning(RequirementFields(r), RequirementFields(q), 2);
    assert r.value as real == q.value as real;
  }

  lemma {:induction false} DenoteItemsAt(items: seq<Js>, i: nat)
    requires i < |items|
    ensures |DenoteItems(items)| == |items| && DenoteItems(items)[i] == Denote(items[i])
  {
    DenoteItemsLength(items);
    DenoteItemsLast(items);
    var n := |items| - 1;
    if i < n {
      DenoteItemsAt(items[..n], i);
      assert DenoteItems(items)[i] == DenoteItems(items)[..n][i];
    }
  }

  lemma {:induction false} RequirementsDetermined(rs: seq<Requirement>, qs: seq<Requirement>)
    requires DenoteItems(RequirementList(rs)) == DenoteItems(RequirementList(qs))
    ensures rs == qs
  {
    hide RequirementJs;
    hide Denote;
    hide DenoteItems;
    hide RequirementList;
    var xs, ys := RequirementList(rs), RequirementList(qs);
    RequirementsAreHashable(rs);
    RequirementsAreHashable(qs);
    DenoteItemsLength(xs);
    DenoteItemsLength(ys);
    forall i | 0 <= i < |rs|
      ensures rs[i] == qs[i]
    {
      DenoteItemsAt(xs, i);
      DenoteItemsAt(ys, i);
      RequirementDetermined(rs[i], qs[i]);
    }
  }

  lemma {:induction false} BudgetDetermined(min: string, max: string, min': string, max': string)
    requires Denote(JObj(BudgetFields(min, max))) == Denote(JObj(BudgetFields(min', max')))
    ensures min == min' && max == max'
  {
    BudgetIsHashable(min, max);
    BudgetIsHashable(min', max');
    SameFieldMeaning(BudgetFields(min, max), BudgetFields(min', max'), 0);
    SameFieldMeaning(BudgetFields(min, max), BudgetFields(min', max'), 1);
  }

  lemma {:induction false} FieldsDetermine(d: JobDocument, e: JobDocument, i: nat)
    requires Denote(ToJs(d)) == Denote(ToJs(e)) && i < 9
    ensures Denote(DocumentFields(d)[i].value) == Denote(DocumentFields(e)[i].value)
  {
    DocumentKeys(d);
    DocumentKeys(e);
    DocumentFieldKept(d, i);
    DocumentFieldKept(e, i);
    assert DenoteFields(DocumentFields(d)) == DenoteFields(DocumentFields(e));
    hide DenoteFields;
    hide Denote;
    SameFieldMeaning(DocumentFields(d), DocumentFields(e), i);
  }

  /** Different job documents denote different documents: nothing is lost on the way to the hash. */
  lemma {:induction false} DocumentDetermined(d: JobDocument, e: JobDocument)
    requires Denote(ToJs(d)) == Denote(ToJs(e))
    ensures d == e
  {
    forall i | 0 <= i < 9
      ensures Denote(DocumentFields(d)[i].value) == Denote(DocumentFields(e)[i].value)
    {
      FieldsDetermine(d, e, i);
    }
    PlainFieldsDetermine(d, e);
    NestedFieldsDetermine(d, e);
  }

  lemma {:induction false} PlainFieldsDetermine(d: JobDocument, e: JobDocument)
    requires forall i :: 0 <= i < 9 ==> Denote(DocumentFields(d)[i].value) == Denote(DocumentFields(e)[i].value)
    ensures d.prompt == e.prompt && d.gameId == e.gameId && d.creatorAgentId == e.creatorAgentId
    ensures d.executionWindowSeconds == e.executionWindowSeconds && d.nonce == e.nonce
  {
    hide RequirementJs;
    hide RequirementList;
    hide BudgetFields;
    var fs, gs := DocumentFields(d), DocumentFields(e);
    assert Denote(fs[1].value) == Denote(gs[1].value) && Denote(fs[2].value) == Denote(gs[2].value);
    assert Denote(fs[6].value) == Denote(gs[6].value) && Denote(fs[7].value) == Denote(gs[7].value);
    assert Denote(fs[8].value) == Denote(gs[8].value);
    assert d.executionWindowSeconds as real == e.executionWindowSeconds as real;
  }

  lemma {:induction false} NestedFieldsDetermine(d: JobDocument, e: JobDocument)
    requires forall i :: 0 <= i < 9 ==> Denote(DocumentFields(d)[i].value) == Denote(DocumentFields(e)[i].value)
    ensures d.target == e.target && d.providerRequirements == e.providerRequirements
    ensures d.minBaseUnits == e.minBaseUnits && d.maxBaseUnits == e.maxBaseUnits
  {
    hide RequirementJs;
    hide RequirementList;
    hide BudgetFields;
    var fs, gs := DocumentFields(d), DocumentFields(e);
    assert Denote(fs[3].value) == Denote(gs[3].value);
    RequirementDetermined(d.target, e.target);
    assert Denote(fs[4].value) == Denote(gs[4].value);
    RequirementsDetermined(d.providerRequirements, e.providerRequirements);
    assert Denote(fs[5].value) == Denote(gs[5].value);
    BudgetDetermined(d.minBaseUnits, d.maxBaseUnits, e.minBaseUnits, e.maxBaseUnits);
  }

  // ── What the hashed document says ─────────────────────────────────────────

  /** An object of exactly these fields, measured only where that is required. */
  ghost predicate SaysRequirement(doc: Document, r: Requirement) {
    && doc.DObj?
    && doc.fields.Keys == {"metric", "op", "value"} + (if r.requireMeasured then {"requireMeasured"} else {})
    && doc.fields["metric"] == DStr(r.metric) && doc.fields["op"] == DStr(r.op)
    && doc.fields["value"] == DNum(r.value as real)
    && (r.requireMeasured ==> doc.fields["requireMeasured"] == DBool(true))
  }

  lemma {:induction false} KeysOnly(fields: seq<Field<Js>>, keys: set<string>)
    requires UniqueKeys(fields)
    requires forall i :: 0 <= i < |fields| ==> fields[i].key in keys && Kept(fields[i])
    requires forall k :: k in keys ==> exists i :: 0 <= i < |fields| && fields[i].key == k
    ensures DenoteFields(fields).Keys == keys
  {
    hide Kept;
    forall k | k in keys
      ensures k in DenoteFields(fields)
    {
      var i :| 0 <= i < |fields| && fields[i].key == k;
      FieldMeaning(fields, i);
    }
    forall k | k in DenoteFields(fields)
      ensures k in keys
    {
      if k !in keys {
        AbsentField(fields, k);
      }
    }
  }

  lemma {:induction false} RequirementSays(r: Requirement)
    ensures SaysRequirement(Denote(RequirementJs(r)), r)
  {
    var fs := RequirementFields(r);
    RequirementIsHashable(r);
    assert fs[0].key == "metric" && fs[1].key == "op" && fs[2].key == "value";
    FieldMeaning(fs, 0);
    FieldMeaning(fs, 1);
    FieldMeaning(fs, 2);
    if r.requireMeasured {
      assert fs[3].key == "requireMeasured";
      FieldMeaning(fs, 3);
      KeysOnly(fs, {"metric", "op", "value", "requireMeasured"});
    } else {
      KeysOnly(fs, {"metric", "op", "value"});
    }
  }

  lemma {:induction false} BudgetSays(min: string, max: string)
    ensures Denote(JObj(BudgetFields(min, max))) == DObj(map["minBaseUnits" := DStr(min), "maxBaseUnits" := DStr(max)])
  {
    var fs := BudgetFields(min, max);
    BudgetIsHashable(min, max);
    assert |fs[0].key| == |fs[1].key| == 12;
    FieldMeaning(fs, 0);
    FieldMeaning(fs, 1);
    assert fs[0].key in {"minBaseUnits", "maxBaseUnits"} && fs[1].key in {"minBaseUnits", "maxBaseUnits"};
    KeysOnly(fs, {"minBaseUnits", "maxBaseUnits"});
    assert DenoteFields(fs)["minBaseUnits"] == DStr(min) && DenoteFields(fs)["maxBaseUnits"] == DStr(max);
    hide DenoteFields;
    assert DenoteFields(fs) == map["minBaseUnits" := DStr(min), "maxBaseUnits" := DStr(max)];
  }

  const DOCUMENT_KEYS := {
    "schema", "prompt", "gameId", "target", "providerRequirements", "budget", "executionWindowSeconds",
    "creatorAgentId", "nonce"}

  lemma {:induction false} DocumentKeysOnly(d: JobDocument)
    ensures DenoteFields(DocumentFields(d)).Keys == DOCUMENT_KEYS
  {
    hide RequirementJs;
    hide RequirementList;
    hide BudgetFields;
    var fs := DocumentFields(d);
    DocumentKeys(d);
    forall i | 0 <= i < 9
      ensures Kept(fs[i])
    {
      DocumentFieldKept(d, i);
    }
    hide Kept;
    assert fs[0].key == "schema" && fs[1].key == "prompt" && fs[2].key == "gameId" && fs[3].key == "target";
    assert fs[4].key == "providerRequirements" && fs[5].key == "budget" && fs[6].key == "executionWindowSeconds";
    assert fs[7].key == "creatorAgentId" && fs[8].key == "nonce";
    KeysOnly(fs, DOCUMENT_KEYS);
  }

  /**
   What is hashed says what the source commits to: nine fields, each under its own
   name, the two amounts of the budget and the parts of every requirement in their
   own places.
   */
  ghost predicate SaysJob(doc: Document, d: JobDocument) {
    && doc.DObj?
    && doc.fields.Keys == DOCUMENT_KEYS
    && doc.fields["schema"] == DStr("a2a-req-v1")
    && doc.fields["prompt"] == DStr(d.prompt)
    && doc.fields["gameId"] == DStr(d.gameId)
    && SaysRequirement(doc.fields["target"], d.target)
    && SaysRequirements(doc.fields["providerRequirements"], d.providerRequirements)
    && doc.fields["budget"]
       == DObj(map["minBaseUnits" := DStr(d.minBaseUnits), "maxBaseUnits" := DStr(d.maxBaseUnits)])
    && doc.fields["executionWindowSeconds"] == DNum(d.executionWindowSeconds as real)
    && doc.fields["creatorAgentId"] == DStr(d.creatorAgentId)
    && doc.fields["nonce"] == DStr(d.nonce)
  }

  ghost predicate SaysRequirements(doc: Document, rs: seq<Requirement>) {
    doc.DArr? && |doc.items| == |rs| && forall i :: 0 <= i < |rs| ==> SaysRequirement(doc.items[i], rs[i])
  }

  lemma {:induction false} RequirementsSay(rs: seq<Requirement>)
    ensures SaysRequirements(Denote(JArr(RequirementList(rs))), rs)
  {
    var xs := RequirementList(rs);
    RequirementsAreHashable(rs);
    DenoteItemsLength(xs);
    hide RequirementList;
    hide RequirementJs;
    hide SaysRequirement;
    forall i | 0 <= i < |rs|
      ensures SaysRequirement(DenoteItems(xs)[i], rs[i])
    {
      DenoteItemsAt(xs, i);
      RequirementSays(rs[i]);
    }
  }

  lemma {:induction false} DocumentFieldAt(d: JobDocument, i: nat)
    requires i < 9
    ensures DocumentFields(d)[i].key in DenoteFields(DocumentFields(d))
    ensures DenoteFields(DocumentFields(d))[DocumentFields(d)[i].key] == Denote(DocumentFields(d)[i].value)
  {
    hide DocumentFields;
    hide Denote;
    hide DenoteFields;
    DocumentKeys(d);
    DocumentFieldKept(d, i);
    FieldMeaning(DocumentFields(d), i);
  }

  lemma {:induction false} PlainFieldsSay(d: JobDocument)
    ensures
      var m := DenoteFields(DocumentFields(d));
      && "schema" in m && "prompt" in m && "gameId" in m && "executionWindowSeconds" in m && "creatorAgentId" in m
      && "nonce" in m
      && m["schema"] == DStr("a2a-req-v1") && m["prompt"] == DStr(d.prompt) && m["gameId"] == DStr(d.gameId)
      && m["executionWindowSeconds"] == DNum(d.executionWindowSeconds as real)
      && m["creatorAgentId"] == DStr(d.creatorAgentId) && m["nonce"] == DStr(d.nonce)
  {
    DocumentFieldAt(d, 0);
    DocumentFieldAt(d, 1);
    DocumentFieldAt(d, 2);
    DocumentFieldAt(d, 6);
    DocumentFieldAt(d, 7);
    DocumentFieldAt(d, 8);
    hide DenoteFields;
    hide RequirementJs;
    hide RequirementList;
    hide BudgetFields;
  }

  lemma {:induction false} NestedFieldsSay(d: JobDocument)
    ensures
      var m := DenoteFields(DocumentFields(d));
      && "target" in m && "providerRequirements" in m && "budget" in m
      && m["target"] == Denote(RequirementJs(d.target))
      && m["providerRequirements"] == Denote(JArr(RequirementList(d.providerRequirements)))
      && m["budget"] == Denote(JObj(BudgetFields(d.minBaseUnits, d.maxBaseUnits)))
  {
    DocumentFieldAt(d, 3);
    DocumentFieldAt(d, 4);
    DocumentFieldAt(d, 5);
    hide DenoteFields;
    hide Denote;
    hide RequirementJs;
    hide RequirementList;
    hide BudgetFields;
  }

  lemma {:induction false} DocumentSays(d: JobDocument)
    ensures SaysJob(Denote(ToJs(d)), d)
  {
    DocumentKeysOnly(d);
    PlainFieldsSay(d);
    NestedFieldsSay(d);
    RequirementSays(d.target);
    RequirementsSay(d.providerRequirements);
    BudgetSays(d.minBaseUnits, d.maxBaseUnits);
    assert Denote(ToJs(d)) == DObj(DenoteFields(DocumentFields(d)));
    hide Denote;
    hide DocumentFields;
    hide SaysRequirement;
    hide SaysRequirements;
  }

  /** So does whoever parses the text that was stored: it says the job, field by field. */
  lemma {:induction false} StoredTextSays(num: Numbers, d: JobDocument)
    requires Conforms(num) && Held(num, ToJs(d))
    ensures CanonicalString(num, ToJs(d)).Some?
    ensures
      var parsed := ParseText(num, CanonicalString(num, ToJs(d)).value);
      parsed.Some? && SaysJob(Denote(parsed.value), d)
  {
    DocumentIsHashable(d);
    DocumentSays(d);
    hide ToJs;
    hide SaysJob;
    RejectsExactly(ToJs(d));
    ResultIsCanonical(ToJs(d));
    FormIsHeld(num, ToJs(d));
    MeaningPreserved(ToJs(d));
    RoundTrip(num, Canonicalized(ToJs(d)).value);
  }

  // ── Verifying a stored document ───────────────────────────────────────────

  /** Lower case on the ASCII letters, which are all that hash text contains. */
  function Lower(s: string): string {
    if s == "" then ""
    else [if 'A' <= s[0] <= 'Z' then (s[0] as int + 32) as char else s[0]] + Lower(s[1..])
  }

  datatype VerifyFailure = NotJson | NotCanonical | Mismatch

  datatype Verification = Verification(valid: bool, computedHash: string, reason: Option<VerifyFailure>)

  /** H is the hash of a text's bytes; nothing is assumed about it. */
  function VerifyRequirementsHash(num: Numbers, H: string -> string, stored: string, expected: string): Verification {
    var parsed := ParseText(num, stored);
    if parsed.None? then Verification(false, "", Some(NotJson))
    else
      var text := CanonicalString(num, parsed.value);
      if text.None? then Verification(false, "", Some(NotCanonical))
      else
        var valid := Lower(H(text.value)) == Lower(expected);
        Verification(valid, H(text.value), if valid then None else Some(Mismatch))
  }

  /** Two characters that are one but for the case of an ASCII letter. */
  predicate SameLetter(a: char, b: char) {
    || a == b
    || ('A' <= a <= 'Z' && b as int == a as int + 32)
    || ('A' <= b <= 'Z' && a as int == b as int + 32)
  }

  /** Hash texts are compared without regard to the case of their letters, and in nothing else loosely. */
  lemma {:induction false} LowerIgnoresCase(s: string, t: string)
    ensures Lower(s) == Lower(t) <==> |s| == |t| && forall i :: 0 <= i < |s| ==> SameLetter(s[i], t[i])
  {
    if s != "" && t != "" {
      LowerIgnoresCase(s[1..], t[1..]);
      assert Lower(s)[1..] == Lower(s[1..]) && Lower(t)[1..] == Lower(t[1..]);
      assert Lower(s)[0] == Lower(t)[0] <==> SameLetter(s[0], t[0]);
      assert Lower(s) == Lower(t) <==> Lower(s)[0] == Lower(t)[0] && Lower(s)[1..] == Lower(t)[1..] by {
        assert Lower(s) == [Lower(s)[0]] + Lower(s)[1..] && Lower(t) == [Lower(t)[0]] + Lower(t)[1..];
      }
      assert forall i :: 1 <= i < |s| ==> s[i] == s[1..][i - 1];
      assert forall i :: 1 <= i < |t| ==> t[i] == t[1..][i - 1];
    }
  }

  /** What the check reports, and the hash it recomputed, in each of the four outcomes. */
  lemma {:induction false} VerifyReports(num: Numbers, H: string -> string, stored: string, expected: string)
    ensures
      var parsed := ParseText(num, stored);
      var v := VerifyRequirementsHash(num, H, stored, expected);
      && (v.valid <==> v.reason.None?)
      && (v.reason == Some(NotJson) <==> parsed.None?)
      && (v.reason == Some(NotCanonical) <==> parsed.Some? && !Acceptable(parsed.value))
      && (parsed.Some? && Acceptable(parsed.value) ==>
            CanonicalString(num, parsed.value).Some? && v.computedHash == H(CanonicalString(num, parsed.value).value)
            && (v.valid <==> Lower(v.computedHash) == Lower(expected)))
  {
    if ParseText(num, stored).Some? {
      RejectsExactly(ParseText(num, stored).value);
    }
    hide ParseText;
    hide Lower;
  }

  /** Two different texts with one hash: an explicit break of the hash function. */
  predicate HashClash(H: string -> string, a: string, b: string) {
    a != b && Lower(H(a)) == Lower(H(b))
  }

  /**
   A stored text passes if and only if it parses, its numbers rounded as the engine
   rounds them, to an acceptable value that denotes the committed document, or
   breaks the hash function.
   */
  lemma {:induction false} VerifyAcceptsExactly(num: Numbers, H: string -> string, stored: string, committed: Js)
    requires Conforms(num) && Held(num, committed) && Unique(committed) && Acceptable(committed)
    ensures CanonicalString(num, committed).Some?
    ensures
      var text := CanonicalString(num, committed).value;
      var parsed := ParseText(num, stored);
      VerifyRequirementsHash(num, H, stored, H(text)).valid <==>
        parsed.Some? && Acceptable(parsed.value)
        && (Denote(parsed.value) == Denote(committed)
            || (CanonicalString(num, parsed.value).Some?
                && HashClash(H, CanonicalString(num, parsed.value).value, text)))
  {
    RejectsExactly(committed);
    var parsed := ParseText(num, stored);
    if parsed.Some? {
      ParsedGenuine(num, stored);
      RejectsExactly(parsed.value);
      if Acceptable(parsed.value) {
        TextDecidesDocument(num, parsed.value, committed);
      }
    }
  }

  // ── Documents whose numbers are the engine's own ──────────────────────────

  predicate HeldPredicate(num: Numbers, p: Predicate) {
    p.value.Some? ==> num.round(p.value.value) == p.value
  }

  /** The numbers a caller passes in are doubles. */
  predicate HeldInput(num: Numbers, input: BuildInput) {
    && HeldPredicate(num, input.target)
    && (input.providerRequirements.Some? ==>
          forall i :: 0 <= i < |input.providerRequirements.value| ==>
            HeldPredicate(num, input.providerRequirements.value[i]))
    && (input.executionWindowSeconds.Some? ==>
          num.round(input.executionWindowSeconds.value) == input.executionWindowSeconds)
  }

  lemma {:induction false} RequirementHeld(num: Numbers, r: Requirement)
    requires HeldInt(num, r.value)
    ensures Held(num, RequirementJs(r))
  {
    var fs := RequirementFields(r);
    forall i | 0 <= i < |fs|
      ensures HeldField(num, fs[i])
    {
      assert fs[i].value.JStr? || fs[i].value.JBool? || fs[i].value == JNum(r.value as real);
    }
  }

  lemma {:induction false} RequirementsHeld(num: Numbers, rs: seq<Requirement>)
    requires forall i :: 0 <= i < |rs| ==> HeldInt(num, rs[i].value)
    ensures Held(num, JArr(RequirementList(rs)))
  {
    hide RequirementJs;
    RequirementsAreHashable(rs);
    hide RequirementList;
    forall i | 0 <= i < |rs|
      ensures Held(num, RequirementList(rs)[i])
    {
      RequirementHeld(num, rs[i]);
    }
  }

  lemma {:induction false} DocumentHeld(num: Numbers, d: JobDocument)
    requires HeldInt(num, d.target.value) && HeldInt(num, d.executionWindowSeconds)
    requires forall i :: 0 <= i < |d.providerRequirements| ==> HeldInt(num, d.providerRequirements[i].value)
    ensures Held(num, ToJs(d))
  {
    RequirementHeld(num, d.target);
    RequirementsHeld(num, d.providerRequirements);
    hide RequirementJs;
    hide RequirementList;
    var fs := DocumentFields(d);
    var budget := BudgetFields(d.minBaseUnits, d.maxBaseUnits);
    assert forall i :: 0 <= i < |budget| ==> HeldField(num, budget[i]);
    assert Held(num, fs[5].value);
    forall i | 0 <= i < |fs|
      ensures HeldField(num, fs[i])
    {
      assert fs[i].value.JStr? || fs[i].value == fs[3].value || fs[i].value == fs[4].value
             || fs[i].value == fs[5].value || fs[i].value == JNum(d.executionWindowSeconds as real);
    }
  }

  /** A document built from doubles holds only doubles: building loses no number to the engine. */
  lemma {:induction false} BuiltIsHeld(num: Numbers, input: BuildInput, defaultNonce: string)
    requires Conforms(num) && HeldInput(num, input) && Build(input, defaultNonce).Ok?
    ensures Held(num, ToJs(Build(input, defaultNonce).value))
  {
    hide Held;
    hide ShowsBack;
    hide ToJs;
    var d := Build(input, defaultNonce).value;
    assert HeldInt(num, DEFAULT_WINDOW);
    BuiltSaysInput(input, defaultNonce);
    hide Build;
    hide TrimOr;
    hide Trim;
    forall i | 0 <= i < |d.providerRequirements|
      ensures HeldInt(num, d.providerRequirements[i].value)
    {
      assert Says(d.providerRequirements[i], input.providerRequirements.value[i]);
      assert HeldPredicate(num, input.providerRequirements.value[i]);
    }
    DocumentHeld(num, d);
  }

  /** The text a poster stores passes the check against the hash that was committed. */
  lemma {:induction false} StoredTextVerifies(num: Numbers, H: string -> string, d: JobDocument)
    requires Conforms(num) && Held(num, ToJs(d))
    ensures CanonicalString(num, ToJs(d)).Some?
    ensures
      var text := CanonicalString(num, ToJs(d)).value;
      VerifyRequirementsHash(num, H, text, H(text)).valid
  {
    hide CanonicalString;
    hide ToJs;
    DocumentIsHashable(d);
    TextIsStable(num, ToJs(d));
  }

  /** One committed hash names one job document, or exhibits a hash collision. */
  lemma {:induction false} HashNamesDocument(num: Numbers, H: string -> string, d: JobDocument, e: JobDocument)
    requires Conforms(num) && Held(num, ToJs(d)) && Held(num, ToJs(e))
    ensures CanonicalString(num, ToJs(d)).Some? && CanonicalString(num, ToJs(e)).Some?
    ensures
      var s, t := CanonicalString(num, ToJs(d)).value, CanonicalString(num, ToJs(e)).value;
      Lower(H(s)) == Lower(H(t)) ==> d == e || HashClash(H, s, t)
  {
    hide CanonicalString;
    hide ToJs;
    DocumentIsHashable(d);
    DocumentIsHashable(e);
    TextDecidesDocument(num, ToJs(d), ToJs(e));
    if Denote(ToJs(d)) == Denote(ToJs(e)) {
      DocumentDetermined(d, e);
    }
  }

  /** The two spellings of "not required" build one document. */
  lemma {:induction false} UnmeasuredSpellings(input: BuildInput, defaultNonce: string)
    requires input.target.requireMeasured.None?
    ensures Build(input, defaultNonce)
         == Build(input.(target := input.target.(requireMeasured := Some(false))), defaultNonce)
  {
    hide ParseUsdc;
    hide Trim;
    hide KnownOperator;
  }
}
