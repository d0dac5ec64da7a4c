/**
 Canonical documents: the recursive normal form of a JavaScript value, and what
 two values have in common when they share it.
 */
module Canonical {
  import opened Prelude
  import opened Decimal

  datatype Field<T> = Field(key: string, value: T)

  /** JavaScript values as canonicalize meets them. Objects list their keys in creation order. */
  datatype Js =
    | JNull
    | JUndefined
    | JBool(b: bool)
    | JNum(n: real)
    | JNonFinite
    | JStr(s: string)
    | JArr(items: seq<Js>)
    | JObj(fields: seq<Field<Js>>)
    | JOther

  /** The canonical values: integers only, no undefined. */
  datatype Canon =
    | CNull
    | CBool(b: bool)
    | CInt(n: int)
    | CStr(s: string)
    | CArr(items: seq<Canon>)
    | CObj(fields: seq<Field<Canon>>)

  // ── The order of keys ─────────────────────────────────────────────────────

  predicate LexLess(a: string, b: string) {
    if b == "" then false
    else if a == "" then true
    else a[0] < b[0] || (a[0] == b[0] && LexLess(a[1..], b[1..]))
  }

  /** Keys JavaScript treats as array indices, which it always enumerates first and by number. */
  predicate IndexKey(k: string) {
    k != "" && AllDigits(k) && (k[0] == '0' ==> k == "0") && Value(k) < 4294967295
  }

  /** The order in which a canonical object's keys are printed. */
  predicate KeyLess(a: string, b: string) {
    if IndexKey(a) && IndexKey(b) then Value(a) < Value(b)
    else if IndexKey(a) || IndexKey(b) then IndexKey(a)
    else LexLess(a, b)
  }

  lemma {:induction false} LexTotal(a: string, b: string)
    ensures a == b || LexLess(a, b) || LexLess(b, a)
    ensures !(LexLess(a, b) && LexLess(b, a)) && !LexLess(a, a)
  {
    if a != "" && b != "" {
      LexTotal(a[1..], b[1..]);
      assert a == [a[0]] + a[1..] && b == [b[0]] + b[1..];
    }
    if a != "" {
      LexTotal(a[1..], a[1..]);
    }
  }

  lemma {:induction false} LexTransitive(a: string, b: string, c: string)
    requires LexLess(a, b) && LexLess(b, c)
    ensures LexLess(a, c)
  {
    if a != "" && a[0] == b[0] == c[0] {
      LexTransitive(a[1..], b[1..], c[1..]);
    }
  }

  /** The text order is the one of the first character that differs; a shorter text goes before its extensions. */
  lemma {:induction false} LexLessExactly(a: string, b: string)
    ensures LexLess(a, b) <==> exists k: nat :: LessFrom(a, b, k)
  {
    if a != "" && b != "" && a[0] == b[0] {
      LexLessExactly(a[1..], b[1..]);
      if LexLess(a[1..], b[1..]) {
        var k: nat :| LessFrom(a[1..], b[1..], k);
        assert a[..k + 1] == [a[0]] + a[1..][..k] && b[..k + 1] == [b[0]] + b[1..][..k];
        assert LessFrom(a, b, k + 1);
      }
      if k: nat :| LessFrom(a, b, k) {
        assert k > 0;
        assert a[1..][..k - 1] == a[..k][1..] && b[1..][..k - 1] == b[..k][1..];
        assert LessFrom(a[1..], b[1..], k - 1);
      }
    } else if LexLess(a, b) {
      assert LessFrom(a, b, 0);
    } else if a != "" && b != "" {
      forall k: nat | k > 0 && k <= |a| && k <= |b|
        ensures a[..k] != b[..k]
      {
        assert a[..k][0] != b[..k][0];
      }
    }
  }

  /** The texts agree on k characters, and then a ends or has the smaller one. */
  predicate LessFrom(a: string, b: string, k: nat) {
    && k <= |a| && k < |b| && a[..k] == b[..k]
    && (k == |a| || a[k] < b[k])
  }

  /** Array indices are listed first, from the smallest number up: 2 before 10, and 10 before any name. */
  lemma {:induction false} IndicesByNumber(m: nat, n: nat, name: string)
    requires m < 4294967295 && n < 4294967295 && name != "" && !IsDigit(name[0])
    ensures KeyLess(Show(m), Show(n)) <==> m < n
    ensures KeyLess(Show(m), name) && !KeyLess(name, Show(m))
  {
    ValueOfShow(m);
    ValueOfShow(n);
    hide Show;
    hide Value;
    hide LexLess;
  }

  /** From 2^32 - 1 on a number is a name like any other, and names stand in text order. */
  lemma {:induction false} NamesByText(m: nat, n: nat, name: string, other: string)
    requires m >= 4294967295 && n >= 4294967295
    requires name != "" && !IsDigit(name[0]) && other != "" && !IsDigit(other[0])
    ensures KeyLess(Show(m), Show(n)) <==> LexLess(Show(m), Show(n))
    ensures KeyLess(name, other) <==> LexLess(name, other)
    ensures KeyLess(Show(m), name) <==> LexLess(Show(m), name)
  {
    ValueOfShow(m);
    ValueOfShow(n);
    hide Show;
    hide Value;
    hide LexLess;
  }

  /** KeyLess is a strict total order. */
  lemma {:induction false} KeyTotal(a: string, b: string)
    ensures a == b || KeyLess(a, b) || KeyLess(b, a)
    ensures !(KeyLess(a, b) && KeyLess(b, a)) && !KeyLess(a, a)
  {
    LexTotal(a, b);
    if IndexKey(a) && IndexKey(b) {
      ShowOfValue(a);
      ShowOfValue(b);
    }
  }

  lemma {:induction false} KeyTransitive(a: string, b: string, c: string)
    requires KeyLess(a, b) && KeyLess(b, c)
    ensures KeyLess(a, c)
  {
    if !IndexKey(a) && !IndexKey(b) && !IndexKey(c) {
      LexTransitive(a, b, c);
    }
  }

  ghost predicate Sorted<T>(fs: seq<Field<T>>) {
    forall i, j :: 0 <= i < j < |fs| ==> KeyLess(fs[i].key, fs[j].key)
  }

  ghost predicate UniqueKeys<T>(fs: seq<Field<T>>) {
    forall i, j :: 0 <= i < j < |fs| ==> fs[i].key != fs[j].key
  }

  /** Insert before the first key that is not smaller. */
  function Insert<T>(f: Field<T>, fs: seq<Field<T>>): (r: seq<Field<T>>)
    ensures |r| == |fs| + 1
    ensures multiset(r) == multiset(fs) + multiset{f}
  {
    if fs == [] || KeyLess(f.key, fs[0].key) then [f] + fs
    else
      assert fs == [fs[0]] + fs[1..];
      [fs[0]] + Insert(f, fs[1..])
  }

  function Sort<T>(fs: seq<Field<T>>): (r: seq<Field<T>>)
    ensures |r| == |fs|
    ensures multiset(r) == multiset(fs)
  {
    if fs == [] then []
    else
      assert fs == fs[..|fs| - 1] + [fs[|fs| - 1]];
      Insert(fs[|fs| - 1], Sort(fs[..|fs| - 1]))
  }

  lemma {:induction false} SortedPrepend<T>(f: Field<T>, fs: seq<Field<T>>)
    requires Sorted(fs) && (fs != [] ==> KeyLess(f.key, fs[0].key))
    ensures Sorted([f] + fs)
  {
    forall j | 0 < j < |fs|
      ensures KeyLess(f.key, fs[j].key)
    {
      KeyTransitive(f.key, fs[0].key, fs[j].key);
    }
    hide KeyLess;
  }

  lemma {:induction false} InsertHead<T>(f: Field<T>, fs: seq<Field<T>>)
    requires fs != [] && Sorted(fs) && KeyLess(fs[0].key, f.key)
    ensures KeyLess(fs[0].key, Insert(f, fs[1..])[0].key)
  {
    hide KeyLess;
    var t := Insert(f, fs[1..]);
    assert t[0] in multiset(t);
    assert t[0] in multiset(fs[1..]) || t[0] == f;
    if t[0] != f {
      var k :| 0 <= k < |fs[1..]| && fs[1..][k] == t[0];
      assert KeyLess(fs[0].key, fs[k + 1].key);
    }
  }

  lemma {:induction false} InsertSorted<T>(f: Field<T>, fs: seq<Field<T>>)
    requires Sorted(fs) && forall i :: 0 <= i < |fs| ==> fs[i].key != f.key
    ensures Sorted(Insert(f, fs))
  {
    if fs == [] {
      SortedPrepend(f, fs);
    } else {
      KeyTotal(f.key, fs[0].key);
      hide KeyLess;
      if KeyLess(f.key, fs[0].key) {
        SortedPrepend(f, fs);
      } else {
        InsertSorted(f, fs[1..]);
        InsertHead(f, fs);
        hide Sorted;
        SortedPrepend(fs[0], Insert(f, fs[1..]));
      }
    }
  }

  lemma {:induction false} SortSorted<T>(fs: seq<Field<T>>)
    requires UniqueKeys(fs)
    ensures Sorted(Sort(fs))
  {
    if fs != [] {
      var n := |fs| - 1;
      SortSorted(fs[..n]);
      var t := Sort(fs[..n]);
      forall i | 0 <= i < |t|
        ensures t[i].key != fs[n].key
      {
        assert t[i] in multiset(t);
        assert t[i] in fs[..n];
      }
      InsertSorted(fs[n], t);
    }
  }

  lemma {:induction false} InsertLast<T>(f: Field<T>, fs: seq<Field<T>>)
    requires forall i :: 0 <= i < |fs| ==> KeyLess(fs[i].key, f.key)
    ensures Insert(f, fs) == fs + [f]
  {
    if fs != [] {
      KeyTotal(fs[0].key, f.key);
      InsertLast(f, fs[1..]);
    }
  }

  /** Sorting what is sorted changes nothing. */
  lemma {:induction false} SortFixpoint<T>(fs: seq<Field<T>>)
    requires Sorted(fs)
    ensures Sort(fs) == fs
  {
    if fs != [] {
      var n := |fs| - 1;
      SortFixpoint(fs[..n]);
      InsertLast(fs[n], fs[..n]);
    }
  }

  // ── canonicalize ──────────────────────────────────────────────────────────

  function IsInteger(x: real): bool {
    x == x.Floor as real
  }

  /** The normal form; None is the exception naming something that cannot hash stably. */
  function Canonicalized(v: Js): Option<Canon> {
    match v
    case JNull => Some(CNull)
    case JBool(b) => Some(CBool(b))
    case JNum(n) => if IsInteger(n) then Some(CInt(n.Floor)) else None
    case JStr(s) => Some(CStr(s))
    case JArr(items) =>
      var r := CanonItems(items);
      if r.None? then None else Some(CArr(r.value))
    case JObj(fields) =>
      var r := CanonFields(fields);
      if r.None? then None else Some(CObj(Sort(r.value)))
    case JUndefined => None
    case JNonFinite => None
    case JOther => None
  }

  function CanonItems(items: seq<Js>): (r: Option<seq<Canon>>)
    ensures r.Some? ==> |r.value| == |items|
  {
    if items == [] then Some([])
    else
      var head := CanonItems(items[..|items| - 1]);
      var last := Canonicalized(items[|items| - 1]);
      if head.None? || last.None? then None else Some(head.value + [last.value])
  }

  /**
   Assigning to this key of a plain object sets its prototype, or does nothing:
   either way no field is created, so canonicalize loses it.
   */
  predicate Lost(key: string) {
    key == "__proto__"
  }

  /** Fields in order, undefined ones left out, and the one that never becomes a field. */
  function CanonFields(fields: seq<Field<Js>>): Option<seq<Field<Canon>>> {
    if fields == [] then Some([])
    else
      var head := CanonFields(fields[..|fields| - 1]);
      match fields[|fields| - 1]
      case Field(key, value) =>
        if value.JUndefined? then head
        else
          var last := Canonicalized(value);
          if head.None? || last.None? then None
          else if Lost(key) then head
          else Some(head.value + [Field(key, last.value)])
  }

  /** Exactly what canonicalize accepts: integers only, and undefined only as a field's value. */
  predicate Acceptable(v: Js) {
    match v
    case JNum(n) => IsInteger(n)
    case JArr(items) => forall i :: 0 <= i < |items| ==> Acceptable(items[i])
    case JObj(fields) => forall i :: 0 <= i < |fields| ==> AcceptableField(fields[i])
    case _ => v.JNull? || v.JBool? || v.JStr?
  }

  predicate AcceptableField(f: Field<Js>) {
    f.value.JUndefined? || Acceptable(f.value)
  }

  /** A value is refused if and only if something unacceptable sits somewhere in its tree. */
  lemma {:induction false} RejectsExactly(v: Js)
    ensures Canonicalized(v).Some? <==> Acceptable(v)
  {
    match v
    case JArr(items) => RejectsItems(items);
    case JObj(fields) => RejectsFields(fields);
    case _ =>
  }

  lemma {:induction false} RejectsItems(items: seq<Js>)
    ensures CanonItems(items).Some? <==> forall i :: 0 <= i < |items| ==> Acceptable(items[i])
  {
    if items != [] {
      var n := |items| - 1;
      RejectsItems(items[..n]);
      RejectsExactly(items[n]);
    }
  }

  lemma {:induction false} RejectsFields(fields: seq<Field<Js>>)
    ensures CanonFields(fields).Some? <==> forall i :: 0 <= i < |fields| ==> AcceptableField(fields[i])
  {
    if fields != [] {
      var n := |fields| - 1;
      RejectsFields(fields[..n]);
      match fields[n]
      case Field(key, value) => RejectsExactly(value);
    }
  }

  // ── The document a value denotes ──────────────────────────────────────────

  /**
   Objects as finite maps: neither key order nor undefined fields are part of
   the document, and no document has a field that canonicalize would lose.
   */
  datatype Document =
    | DNull
    | DBool(b: bool)
    | DNum(n: real)
    | DStr(s: string)
    | DArr(items: seq<Document>)
    | DObj(fields: map<string, Document>)
    | DNothing

  function Denote(v: Js): Document {
    match v
    case JNull => DNull
    case JBool(b) => DBool(b)
    case JNum(n) => DNum(n)
    case JStr(s) => DStr(s)
    case JArr(items) => DArr(DenoteItems(items))
    case JObj(fields) => DObj(DenoteFields(fields))
    case _ => DNothing
  }

  function DenoteItems(items: seq<Js>): seq<Document> {
    if items == [] then [] else DenoteItems(items[..|items| - 1]) + [Denote(items[|items| - 1])]
  }

  function DenoteFields(fields: seq<Field<Js>>): map<string, Document> {
    if fields == [] then map[]
    else
      var head := DenoteFields(fields[..|fields| - 1]);
      match fields[|fields| - 1]
      case Field(key, value) => if value.JUndefined? || Lost(key) then head else head[key := Denote(value)]
  }

  function Embed(c: Canon): Js {
    match c
    case CNull => JNull
    case CBool(b) => JBool(b)
    case CInt(n) => JNum(n as real)
    case CStr(s) => JStr(s)
    case CArr(items) => JArr(EmbedItems(items))
    case CObj(fields) => JObj(EmbedFields(fields))
  }

  function EmbedItems(items: seq<Canon>): (r: seq<Js>)
    ensures |r| == |items|
  {
    if items == [] then [] else EmbedItems(items[..|items| - 1]) + [Embed(items[|items| - 1])]
  }

  function EmbedFields(fields: seq<Field<Canon>>): (r: seq<Field<Js>>)
    ensures |r| == |fields|
    ensures forall i :: 0 <= i < |fields| ==> r[i].key == fields[i].key
  {
    if fields == [] then []
    else
      match fields[|fields| - 1]
      case Field(key, value) => EmbedFields(fields[..|fields| - 1]) + [Field(key, Embed(value))]
  }

  ghost predicate IsCanonical(c: Canon) {
    match c
    case CArr(items) => forall i :: 0 <= i < |items| ==> IsCanonical(items[i])
    case CObj(fields) => Sorted(fields) && forall i :: 0 <= i < |fields| ==> CanonicalField(fields[i])
    case _ => true
  }

  ghost predicate CanonicalField(f: Field<Canon>) {
    !Lost(f.key) && IsCanonical(f.value)
  }

  /** JavaScript objects have unique keys; this says so at every depth. */
  ghost predicate Unique(v: Js) {
    match v
    case JArr(items) => forall i :: 0 <= i < |items| ==> Unique(items[i])
    case JObj(fields) => UniqueKeys(fields) && forall i :: 0 <= i < |fields| ==> UniqueField(fields[i])
    case _ => true
  }

  ghost predicate UniqueField(f: Field<Js>) {
    Unique(f.value)
  }

  lemma {:induction false} CanonFieldsStep(head: seq<Field<Js>>, f: Field<Js>)
    requires CanonFields(head).Some? && Canonicalized(f.value).Some? && !f.value.JUndefined?
    ensures CanonFields(head + [f]) ==
      if Lost(f.key) then CanonFields(head)
      else Some(CanonFields(head).value + [Field(f.key, Canonicalized(f.value).value)])
  {
    hide Lost;
    assert (head + [f])[..|head|] == head;
  }

  // ── The result is canonical and means the same ────────────────────────────

  lemma {:induction false} CanonFieldsKeys(fields: seq<Field<Js>>)
    requires UniqueKeys(fields) && CanonFields(fields).Some?
    ensures UniqueKeys(CanonFields(fields).value)
    ensures forall i :: 0 <= i < |CanonFields(fields).value| ==>
      exists j :: 0 <= j < |fields| && fields[j].key == CanonFields(fields).value[i].key
  {
    if fields != [] {
      var n := |fields| - 1;
      CanonFieldsKeys(fields[..n]);
      var head := CanonFields(fields[..n]).value;
      forall i | 0 <= i < |head|
        ensures exists j :: 0 <= j < n && fields[j].key == head[i].key
      {
        var j :| 0 <= j < n && fields[..n][j].key == head[i].key;
        assert fields[j].key == head[i].key;
      }
      if !fields[n].value.JUndefined? && !Lost(fields[n].key) {
        assert CanonFields(fields).value[|head|].key == fields[n].key;
      }
    }
  }

  lemma {:induction false} ResultIsCanonical(v: Js)
    requires Unique(v) && Canonicalized(v).Some?
    ensures IsCanonical(Canonicalized(v).value)
  {
    match v
    case JArr(items) => ItemsAreCanonical(items);
    case JObj(fields) =>
      FieldsAreCanonical(fields);
      CanonFieldsKeys(fields);
      var cs := CanonFields(fields).value;
      SortSorted(cs);
      forall i | 0 <= i < |cs|
        ensures CanonicalField(Sort(cs)[i])
      {
        assert Sort(cs)[i] in multiset(Sort(cs));
        assert Sort(cs)[i] in cs;
      }
    case _ =>
  }

  lemma {:induction false} ItemsAreCanonical(items: seq<Js>)
    requires CanonItems(items).Some? && forall i :: 0 <= i < |items| ==> Unique(items[i])
    ensures forall i :: 0 <= i < |items| ==> IsCanonical(CanonItems(items).value[i])
  {
    if items != [] {
      var n := |items| - 1;
      ItemsAreCanonical(items[..n]);
      ResultIsCanonical(items[n]);
    }
  }

  lemma {:induction false} FieldsAreCanonical(fields: seq<Field<Js>>)
    requires CanonFields(fields).Some? && forall i :: 0 <= i < |fields| ==> UniqueField(fields[i])
    ensures forall f :: f in CanonFields(fields).value ==> CanonicalField(f)
  {
    if fields != [] {
      var n := |fields| - 1;
      FieldsAreCanonical(fields[..n]);
      assert UniqueField(fields[n]);
      match fields[n]
      case Field(key, value) =>
        if !value.JUndefined? {
          ResultIsCanonical(value);
        }
    }
  }

  /** A canonical value is its own normal form. */
  lemma {:induction false} CanonicalIsFixpoint(c: Canon)
    requires IsCanonical(c)
    ensures Canonicalized(Embed(c)) == Some(c)
  {
    hide CanonItems;
    hide CanonFields;
    hide EmbedItems;
    hide EmbedFields;
    hide Sort;
    hide Sorted;
    hide CanonicalField;
    match c
    case CInt(n) =>
      assert IsInteger(n as real);
    case CArr(items) =>
      ItemsFixpoint(items);
      assert Embed(c) == JArr(EmbedItems(items));
    case CObj(fields) =>
      FieldsFixpoint(fields);
      SortFixpoint(fields);
      assert Embed(c) == JObj(EmbedFields(fields));
    case _ =>
  }

  lemma {:induction false} EmbedItemsNone()
    ensures EmbedItems([]) == []
  {
  }

  lemma {:induction false} EmbedItemsLast(items: seq<Canon>)
    requires items != []
    ensures EmbedItems(items)[..|items| - 1] == EmbedItems(items[..|items| - 1])
    ensures EmbedItems(items)[|items| - 1] == Embed(items[|items| - 1])
  {
  }

  lemma {:induction false} ItemsFixpoint(items: seq<Canon>)
    requires forall i :: 0 <= i < |items| ==> IsCanonical(items[i])
    ensures CanonItems(EmbedItems(items)) == Some(items)
  {
    hide IsCanonical;
    hide Canonicalized;
    hide Embed;
    hide EmbedItems;
    if items == [] {
      EmbedItemsNone();
    } else {
      var n := |items| - 1;
      ItemsFixpoint(items[..n]);
      CanonicalIsFixpoint(items[n]);
      EmbedItemsLast(items);
      assert CanonItems(EmbedItems(items)) ==
             Some(CanonItems(EmbedItems(items)[..n]).value + [Canonicalized(EmbedItems(items)[n]).value]);
      assert items == items[..n] + [items[n]];
    }
  }

  lemma {:induction false} EmbedFieldsLast(fields: seq<Field<Canon>>)
    requires fields != []
    ensures EmbedFields(fields) ==
      EmbedFields(fields[..|fields| - 1]) + [Field(fields[|fields| - 1].key, Embed(fields[|fields| - 1].value))]
  {
  }

  lemma {:induction false} CanonFieldsNone()
    ensures CanonFields(EmbedFields([])) == Some([])
  {
  }

  lemma {:induction false} EmbedDefined(c: Canon)
    ensures !Embed(c).JUndefined?
  {
  }

  lemma {:induction false} FieldsFixpoint(fields: seq<Field<Canon>>)
    requires forall i :: 0 <= i < |fields| ==> CanonicalField(fields[i])
    ensures CanonFields(EmbedFields(fields)) == Some(fields)
  {
    hide Lost;
    hide IsCanonical;
    hide Canonicalized;
    hide CanonFields;
    hide Embed;
    hide EmbedFields;
    if fields == [] {
      CanonFieldsNone();
    } else {
      var n := |fields| - 1;
      FieldsFixpoint(fields[..n]);
      assert CanonicalField(fields[n]);
      CanonicalIsFixpoint(fields[n].value);
      EmbedDefined(fields[n].value);
      EmbedFieldsLast(fields);
      CanonFieldsStep(EmbedFields(fields[..n]), Field(fields[n].key, Embed(fields[n].value)));
      assert fields == fields[..n] + [fields[n]];
    }
  }

  /** canonicalize is idempotent. */
  lemma {:induction false} Idempotent(v: Js)
    requires Unique(v) && Canonicalized(v).Some?
    ensures Canonicalized(Embed(Canonicalized(v).value)) == Canonicalized(v)
  {
    ResultIsCanonical(v);
    CanonicalIsFixpoint(Canonicalized(v).value);
  }

  // ── Normal forms and documents correspond ─────────────────────────────────

  ghost predicate HasField(fields: seq<Field<Js>>, k: string, d: Document) {
    exists i :: 0 <= i < |fields| && Carries(fields[i], k, d)
  }

  predicate Carries(f: Field<Js>, k: string, d: Document) {
    f.key == k && !Lost(k) && !f.value.JUndefined? && Denote(f.value) == d
  }

  /** The map an object denotes holds exactly its defined fields. */
  lemma {:induction false} DenoteFieldsHolds(fields: seq<Field<Js>>)
    requires UniqueKeys(fields)
    ensures forall k, d :: HasField(fields, k, d) <==> k in DenoteFields(fields) && DenoteFields(fields)[k] == d
  {
    if fields != [] {
      var n := |fields| - 1;
      var head, f := fields[..n], fields[n];
      DenoteFieldsHolds(head);
      forall k, d
        ensures HasField(fields, k, d) <==> k in DenoteFields(fields) && DenoteFields(fields)[k] == d
      {
        HasFieldSplit(fields, k, d);
        DenoteFieldsSplit(fields);
        if HasField(head, k, d) {
          var i :| 0 <= i < n && Carries(head[i], k, d);
          assert fields[i].key != f.key;
        }
      }
    }
  }

  lemma {:induction false} DenoteFieldsSplit(fields: seq<Field<Js>>)
    requires fields != []
    ensures
      var head, f := DenoteFields(fields[..|fields| - 1]), fields[|fields| - 1];
      DenoteFields(fields) ==
        if f.value.JUndefined? || Lost(f.key) then head else head[f.key := Denote(f.value)]
  {
  }

  lemma {:induction false} HasFieldSplit(fields: seq<Field<Js>>, k: string, d: Document)
    requires fields != []
    ensures HasField(fields, k, d) <==>
      HasField(fields[..|fields| - 1], k, d) || Carries(fields[|fields| - 1], k, d)
  {
    var n := |fields| - 1;
    if HasField(fields, k, d) {
      var i :| 0 <= i < |fields| && Carries(fields[i], k, d);
      assert i < n ==> Carries(fields[..n][i], k, d);
    }
    if HasField(fields[..n], k, d) {
      var i :| 0 <= i < n && Carries(fields[..n][i], k, d);
      assert Carries(fields[i], k, d);
    }
  }

  lemma {:induction false} HasFieldMonotone(fs: seq<Field<Js>>, gs: seq<Field<Js>>, k: string, d: Document)
    requires HasField(fs, k, d) && forall f :: f in fs && !f.value.JUndefined? ==> f in gs
    ensures HasField(gs, k, d)
  {
    var i :| 0 <= i < |fs| && Carries(fs[i], k, d);
    assert fs[i] in fs;
    var j :| 0 <= j < |gs| && gs[j] == fs[i];
    assert Carries(gs[j], k, d);
  }

  /** Objects with the same defined fields, in any order, denote the same document. */
  lemma {:induction false} DefinedFieldsDecide(fs: seq<Field<Js>>, gs: seq<Field<Js>>)
    requires UniqueKeys(fs) && UniqueKeys(gs)
    requires forall f: Field<Js> :: !f.value.JUndefined? ==> (f in fs <==> f in gs)
    ensures DenoteFields(fs) == DenoteFields(gs)
  {
    var m, m' := DenoteFields(fs), DenoteFields(gs);
    DenoteFieldsHolds(fs);
    DenoteFieldsHolds(gs);
    forall k | k in m
      ensures k in m' && m'[k] == m[k]
    {
      assert HasField(fs, k, m[k]);
      HasFieldMonotone(fs, gs, k, m[k]);
    }
    forall k | k in m'
      ensures k in m
    {
      assert HasField(gs, k, m'[k]);
      HasFieldMonotone(gs, fs, k, m'[k]);
    }
  }

  lemma {:induction false} EmbedFieldsAt(fields: seq<Field<Canon>>, i: nat)
    requires i < |fields|
    ensures EmbedFields(fields)[i] == Field(fields[i].key, Embed(fields[i].value))
  {
    var n := |fields| - 1;
    if i < n {
      EmbedFieldsAt(fields[..n], i);
      assert EmbedFields(fields)[..n] == EmbedFields(fields[..n]);
      assert EmbedFields(fields)[i] == EmbedFields(fields)[..n][i];
    }
  }

  lemma {:induction false} SortMeaning(fields: seq<Field<Canon>>)
    requires UniqueKeys(fields)
    ensures DenoteFields(EmbedFields(Sort(fields))) == DenoteFields(EmbedFields(fields))
  {
    SortSorted(fields);
    SortedUnique(Sort(fields));
    forall f
      ensures f in EmbedFields(Sort(fields)) <==> f in EmbedFields(fields)
    {
      EmbedMembers(Sort(fields), fields, f);
      EmbedMembers(fields, Sort(fields), f);
    }
    assert UniqueKeys(EmbedFields(Sort(fields))) && UniqueKeys(EmbedFields(fields));
    DefinedFieldsDecide(EmbedFields(Sort(fields)), EmbedFields(fields));
  }

  lemma {:induction false} SortedUnique<T>(fs: seq<Field<T>>)
    requires Sorted(fs)
    ensures UniqueKeys(fs)
  {
    forall i, j | 0 <= i < j < |fs|
      ensures fs[i].key != fs[j].key
    {
      KeyTotal(fs[i].key, fs[j].key);
    }
  }

  lemma {:induction false} EmbedMembers(xs: seq<Field<Canon>>, ys: seq<Field<Canon>>, f: Field<Js>)
    requires multiset(xs) == multiset(ys)
    ensures f in EmbedFields(xs) ==> f in EmbedFields(ys)
  {
    if f in EmbedFields(xs) {
      var i :| 0 <= i < |EmbedFields(xs)| && EmbedFields(xs)[i] == f;
      EmbedFieldsAt(xs, i);
      assert xs[i] in multiset(ys);
      var j :| 0 <= j < |ys| && ys[j] == xs[i];
      EmbedFieldsAt(ys, j);
    }
  }

  /** The normal form denotes the document its value denotes. */
  lemma {:induction false} MeaningPreserved(v: Js)
    requires Unique(v) && Canonicalized(v).Some?
    ensures Denote(Embed(Canonicalized(v).value)) == Denote(v)
  {
    match v
    case JArr(items) => ItemsMeaning(items);
    case JObj(fields) =>
      FieldsMeaning(fields);
      CanonFieldsKeys(fields);
      SortMeaning(CanonFields(fields).value);
    case _ =>
  }

  lemma {:induction false} ItemsMeaning(items: seq<Js>)
    requires CanonItems(items).Some? && forall i :: 0 <= i < |items| ==> Unique(items[i])
    ensures DenoteItems(EmbedItems(CanonItems(items).value)) == DenoteItems(items)
  {
    if items != [] {
      var n := |items| - 1;
      ItemsMeaning(items[..n]);
      MeaningPreserved(items[n]);
      var cs := CanonItems(items).value;
      assert cs[..n] == CanonItems(items[..n]).value;
      EmbedItemsLast(cs);
    }
  }

  lemma {:induction false} FieldsMeaning(fields: seq<Field<Js>>)
    requires CanonFields(fields).Some? && forall i :: 0 <= i < |fields| ==> UniqueField(fields[i])
    ensures DenoteFields(EmbedFields(CanonFields(fields).value)) == DenoteFields(fields)
  {
    if fields != [] {
      var n := |fields| - 1;
      FieldsMeaning(fields[..n]);
      assert UniqueField(fields[n]);
      match fields[n]
      case Field(key, value) =>
        if !value.JUndefined? && !Lost(key) {
          MeaningPreserved(value);
          FieldMeaningLast(CanonFields(fields[..n]).value, Field(key, Canonicalized(value).value));
        }
    }
  }

  lemma {:induction false} FieldMeaningLast(head: seq<Field<Canon>>, f: Field<Canon>)
    requires !Lost(f.key)
    ensures DenoteFields(EmbedFields(head + [f])) == DenoteFields(EmbedFields(head))[f.key := Denote(Embed(f.value))]
  {
    var fs := head + [f];
    assert fs[..|head|] == head;
    EmbedFieldsAt(fs, |head|);
    EmbedDefined(f.value);
    assert EmbedFields(fs)[..|head|] == EmbedFields(head);
    DenoteFieldsSplit(EmbedFields(fs));
  }

  ghost function KeySet<T>(fs: seq<Field<T>>): set<string> {
    set i | 0 <= i < |fs| :: fs[i].key
  }

  lemma {:induction false} KeySetSplit<T>(fs: seq<Field<T>>)
    requires Sorted(fs) && fs != []
    ensures KeySet(fs[..|fs| - 1]) == KeySet(fs) - {fs[|fs| - 1].key}
  {
    var n := |fs| - 1;
    SortedUnique(fs);
    forall k | k in KeySet(fs) - {fs[n].key}
      ensures k in KeySet(fs[..n])
    {
      var i :| 0 <= i < |fs| && fs[i].key == k;
      assert fs[..n][i].key == k;
    }
    forall k | k in KeySet(fs[..n])
      ensures k in KeySet(fs) - {fs[n].key}
    {
      var i :| 0 <= i < n && fs[..n][i].key == k;
      assert fs[i].key == k;
    }
  }

  lemma {:induction false} KeySetEmpty<T>(fs: seq<Field<T>>)
    ensures KeySet(fs) == {} <==> fs == []
  {
    if fs != [] {
      assert fs[0].key in KeySet(fs);
    }
  }

  /** The last key of a sorted list is its greatest. */
  lemma {:induction false} LastIsGreatest<T>(fs: seq<Field<T>>, k: string)
    requires Sorted(fs) && k in KeySet(fs)
    ensures fs != [] && !KeyLess(fs[|fs| - 1].key, k)
  {
    var i :| 0 <= i < |fs| && fs[i].key == k;
    KeyTotal(fs[i].key, fs[|fs| - 1].key);
  }

  /** Two sorted key lists over one set of keys are the same list. */
  lemma {:induction false} SortedSameKeys<T>(fs: seq<Field<T>>, gs: seq<Field<T>>)
    requires Sorted(fs) && Sorted(gs) && KeySet(fs) == KeySet(gs)
    ensures |fs| == |gs| && forall i :: 0 <= i < |fs| ==> fs[i].key == gs[i].key
  {
    KeySetEmpty(fs);
    KeySetEmpty(gs);
    if fs != [] {
      var m, n := |fs| - 1, |gs| - 1;
      assert fs[m].key in KeySet(fs) && gs[n].key in KeySet(gs);
      LastIsGreatest(fs, gs[n].key);
      LastIsGreatest(gs, fs[m].key);
      KeyTotal(fs[m].key, gs[n].key);
      KeySetSplit(fs);
      KeySetSplit(gs);
      SortedSameKeys(fs[..m], gs[..n]);
      forall k | 0 <= k < m
        ensures fs[k].key == gs[k].key
      {
        assert fs[..m][k].key == gs[..n][k].key;
      }
    }
  }

  lemma {:induction false} DenoteAt(fields: seq<Field<Canon>>, i: nat)
    requires UniqueKeys(fields) && i < |fields| && !Lost(fields[i].key)
    ensures fields[i].key in DenoteFields(EmbedFields(fields))
    ensures DenoteFields(EmbedFields(fields))[fields[i].key] == Denote(Embed(fields[i].value))
  {
    hide DenoteFields;
    hide EmbedFields;
    var es, d := EmbedFields(fields), Denote(Embed(fields[i].value));
    EmbedFieldsAt(fields, i);
    EmbedDefined(fields[i].value);
    DenoteFieldsHolds(es);
    hide Denote;
    hide Embed;
    assert Carries(es[i], fields[i].key, d);
    assert HasField(es, fields[i].key, d);
  }

  /** The keys of the document an embedded object denotes are the object's keys. */
  lemma {:induction false} DenoteKeySet(fields: seq<Field<Canon>>)
    requires UniqueKeys(fields) && forall i :: 0 <= i < |fields| ==> !Lost(fields[i].key)
    ensures DenoteFields(EmbedFields(fields)).Keys == KeySet(fields)
  {
    hide DenoteFields;
    hide EmbedFields;
    hide Denote;
    var es := EmbedFields(fields);
    var m := DenoteFields(es);
    DenoteFieldsHolds(es);
    forall k | k in m
      ensures k in KeySet(fields)
    {
      assert HasField(es, k, m[k]);
      var i :| 0 <= i < |es| && Carries(es[i], k, m[k]);
      assert fields[i].key == k;
    }
    forall k | k in KeySet(fields)
      ensures k in m
    {
      var i :| 0 <= i < |fields| && fields[i].key == k;
      DenoteAt(fields, i);
    }
  }

  /** A canonical value is determined by the document it denotes. */
  lemma {:induction false} CanonicalIsUnique(c: Canon, d: Canon)
    requires IsCanonical(c) && IsCanonical(d) && Denote(Embed(c)) == Denote(Embed(d))
    ensures c == d
  {
    match c
    case CArr(items) =>
      UniqueItems(items, d.items);
    case CObj(fields) =>
      UniqueFields(fields, d.fields);
    case _ =>
  }

  lemma {:induction false} UniqueItems(xs: seq<Canon>, ys: seq<Canon>)
    requires forall i :: 0 <= i < |xs| ==> IsCanonical(xs[i])
    requires forall i :: 0 <= i < |ys| ==> IsCanonical(ys[i])
    requires DenoteItems(EmbedItems(xs)) == DenoteItems(EmbedItems(ys))
    ensures xs == ys
  {
    hide IsCanonical;
    hide Denote;
    hide Embed;
    hide EmbedItems;
    DenoteItemsLength(EmbedItems(xs));
    DenoteItemsLength(EmbedItems(ys));
    if xs != [] {
      var n := |xs| - 1;
      EmbedItemsLast(xs);
      EmbedItemsLast(ys);
      DenoteItemsLast(EmbedItems(xs));
      DenoteItemsLast(EmbedItems(ys));
      UniqueItems(xs[..n], ys[..n]);
      CanonicalIsUnique(xs[n], ys[n]);
      assert xs == xs[..n] + [xs[n]] && ys == ys[..n] + [ys[n]];
    }
  }

  lemma {:induction false} DenoteItemsLength(items: seq<Js>)
    ensures |DenoteItems(items)| == |items|
  {
    if items != [] {
      DenoteItemsLength(items[..|items| - 1]);
    }
  }

  lemma {:induction false} DenoteItemsLast(items: seq<Js>)
    requires items != []
    ensures DenoteItems(items) != []
    ensures DenoteItems(items)[..|DenoteItems(items)| - 1] == DenoteItems(items[..|items| - 1])
    ensures DenoteItems(items)[|DenoteItems(items)| - 1] == Denote(items[|items| - 1])
  {
  }

  lemma {:induction false} UniqueFields(fs: seq<Field<Canon>>, gs: seq<Field<Canon>>)
    requires IsCanonical(CObj(fs)) && IsCanonical(CObj(gs))
    requires DenoteFields(EmbedFields(fs)) == DenoteFields(EmbedFields(gs))
    ensures fs == gs
  {
    hide DenoteFields;
    hide EmbedFields;
    hide IsCanonical;
    hide Sorted;
    hide KeySet;
    hide KeyLess;
    hide Denote;
    hide Embed;
    CanonicalParts(fs);
    CanonicalParts(gs);
    SortedUnique(fs);
    SortedUnique(gs);
    DenoteKeySet(fs);
    DenoteKeySet(gs);
    SortedSameKeys(fs, gs);
    hide UniqueKeys;
    forall i | 0 <= i < |fs|
      ensures fs[i] == gs[i]
    {
      DenoteAt(fs, i);
      DenoteAt(gs, i);
      FieldIsUnique(fs[i], gs[i]);
    }
  }

  lemma {:induction false} CanonicalParts(fs: seq<Field<Canon>>)
    requires IsCanonical(CObj(fs))
    ensures Sorted(fs) && forall i :: 0 <= i < |fs| ==> CanonicalField(fs[i])
  {
  }

  lemma {:induction false} FieldIsUnique(f: Field<Canon>, g: Field<Canon>)
    requires f.key == g.key && CanonicalField(f) && CanonicalField(g)
    requires Denote(Embed(f.value)) == Denote(Embed(g.value))
    ensures f == g
  {
    CanonicalIsUnique(f.value, g.value);
  }

  /**
   Two accepted values have one normal form if and only if they denote one document:
   key order and undefined fields drop out at every depth, and nothing else does.
   */
  lemma {:induction false} SameFormIffSameDocument(v: Js, w: Js)
    requires Unique(v) && Unique(w) && Canonicalized(v).Some? && Canonicalized(w).Some?
    ensures Canonicalized(v) == Canonicalized(w) <==> Denote(v) == Denote(w)
  {
    MeaningPreserved(v);
    MeaningPreserved(w);
    if Denote(v) == Denote(w) {
      ResultIsCanonical(v);
      ResultIsCanonical(w);
      CanonicalIsUnique(Canonicalized(v).value, Canonicalized(w).value);
    }
  }

  /** Key order and undefined fields do not reach the normal form. */
  lemma {:induction false} SameFieldsSameForm(fs: seq<Field<Js>>, gs: seq<Field<Js>>)
    requires Unique(JObj(fs)) && Unique(JObj(gs))
    requires forall f: Field<Js> :: !f.value.JUndefined? ==> (f in fs <==> f in gs)
    ensures Canonicalized(JObj(fs)) == Canonicalized(JObj(gs))
  {
    SameDefinedAccept(fs, gs);
    SameDefinedAccept(gs, fs);
    RejectsExactly(JObj(fs));
    RejectsExactly(JObj(gs));
    if Canonicalized(JObj(fs)).Some? {
      DefinedFieldsDecide(fs, gs);
      SameFormIffSameDocument(JObj(fs), JObj(gs));
    }
  }

  lemma {:induction false} SameDefinedAccept(fs: seq<Field<Js>>, gs: seq<Field<Js>>)
    requires forall f: Field<Js> :: !f.value.JUndefined? ==> (f in fs <==> f in gs)
    ensures Acceptable(JObj(fs)) ==> Acceptable(JObj(gs))
  {
    if Acceptable(JObj(fs)) {
      forall i | 0 <= i < |gs|
        ensures AcceptableField(gs[i])
      {
        if !gs[i].value.JUndefined? {
          assert gs[i] in gs;
          var j :| 0 <= j < |fs| && fs[j] == gs[i];
        }
      }
    }
  }

  lemma {:induction false} AppendItem(items: seq<Js>, x: Js)
    requires CanonItems(items).Some? && Canonicalized(x).Some?
    ensures CanonItems(items + [x]) == Some(CanonItems(items).value + [Canonicalized(x).value])
  {
    assert (items + [x])[..|items|] == items;
  }

  /**
   The one way the hash fails to bind a document: a field named __proto__, with
   whatever value, leaves no trace in the normal form.
   */
  lemma {:induction false} ProtoFieldIsLost(fields: seq<Field<Js>>, value: Js)
    requires Canonicalized(value).Some?
    ensures Canonicalized(JObj(fields + [Field("__proto__", value)])) == Canonicalized(JObj(fields))
  {
    var f := Field("__proto__", value);
    assert Lost(f.key);
    LostField(fields, f);
  }

  lemma {:induction false} LostField(fields: seq<Field<Js>>, f: Field<Js>)
    requires Lost(f.key) && Canonicalized(f.value).Some?
    ensures CanonFields(fields + [f]) == CanonFields(fields)
  {
    hide Lost;
    assert (fields + [f])[..|fields|] == fields;
  }

  // ── With every field kept ─────────────────────────────────────────────────

  /** The document with nothing left out of it, fields named __proto__ included. */
  function WholeDocument(v: Js): Document {
    match v
    case JArr(items) => DArr(WholeItems(items))
    case JObj(fields) => DObj(WholeFields(fields))
    case _ => Denote(v)
  }

  function WholeItems(items: seq<Js>): seq<Document> {
    if items == [] then [] else WholeItems(items[..|items| - 1]) + [WholeDocument(items[|items| - 1])]
  }

  function WholeFields(fields: seq<Field<Js>>): map<string, Document> {
    if fields == [] then map[]
    else
      var head := WholeFields(fields[..|fields| - 1]);
      match fields[|fields| - 1]
      case Field(key, value) => if value.JUndefined? then head else head[key := WholeDocument(value)]
  }

  /** No defined field is named __proto__, at any depth. */
  predicate Plain(v: Js) {
    match v
    case JArr(items) => forall i :: 0 <= i < |items| ==> Plain(items[i])
    case JObj(fields) => forall i :: 0 <= i < |fields| ==> PlainField(fields[i])
    case _ => true
  }

  predicate PlainField(f: Field<Js>) {
    f.value.JUndefined? || (!Lost(f.key) && Plain(f.value))
  }

  predicate AllPlain(fields: seq<Field<Js>>) {
    forall i :: 0 <= i < |fields| ==> PlainField(fields[i])
  }

  lemma {:induction false} AbsentField(fields: seq<Field<Js>>, k: string)
    requires forall i :: 0 <= i < |fields| ==> fields[i].key != k
    ensures k !in DenoteFields(fields) && k !in WholeFields(fields)
  {
    if fields != [] {
      AbsentField(fields[..|fields| - 1], k);
      DenoteFieldsSplit(fields);
      WholeFieldsSplit(fields);
    }
  }

  lemma {:induction false} LostIsAbsent(fields: seq<Field<Js>>, k: string)
    requires Lost(k)
    ensures k !in DenoteFields(fields)
  {
    if fields != [] {
      LostIsAbsent(fields[..|fields| - 1], k);
      DenoteFieldsSplit(fields);
    }
  }

  lemma {:induction false} WholeFieldsSplit(fields: seq<Field<Js>>)
    requires fields != []
    ensures
      var head, f := WholeFields(fields[..|fields| - 1]), fields[|fields| - 1];
      WholeFields(fields) == if f.value.JUndefined? then head else head[f.key := WholeDocument(f.value)]
  {
  }

  lemma {:induction false} SameUpdate(m: map<string, Document>, n: map<string, Document>,
                                      k: string, x: Document, y: Document)
    requires k !in m && k !in n
    ensures m[k := x] == n[k := y] <==> m == n && x == y
  {
    if m[k := x] == n[k := y] {
      assert m[k := x][k] == n[k := y][k];
      assert m == m[k := x] - {k} && n == n[k := y] - {k};
    }
  }

  /** Nothing is missing from the document if and only if the value is plain. */
  lemma {:induction false} PlainExactly(v: Js)
    requires Unique(v)
    ensures WholeDocument(v) == Denote(v) <==> Plain(v)
    decreases v, 2
  {
    match v
    case JArr(items) => PlainItems(items);
    case JObj(fields) => PlainFields(fields);
    case _ =>
  }

  lemma {:induction false} PlainItems(items: seq<Js>)
    requires forall i :: 0 <= i < |items| ==> Unique(items[i])
    ensures |WholeItems(items)| == |DenoteItems(items)| == |items|
    ensures WholeItems(items) == DenoteItems(items) <==> forall i :: 0 <= i < |items| ==> Plain(items[i])
    decreases items, 1
  {
    hide Plain;
    hide Denote;
    hide WholeDocument;
    if items != [] {
      var n := |items| - 1;
      PlainItems(items[..n]);
      PlainExactly(items[n]);
      assert WholeItems(items) == WholeItems(items[..n]) + [WholeDocument(items[n])];
      assert DenoteItems(items) == DenoteItems(items[..n]) + [Denote(items[n])];
      assert WholeItems(items)[..n] == WholeItems(items[..n]) && DenoteItems(items)[..n] == DenoteItems(items[..n]);
      assert WholeItems(items)[n] == WholeDocument(items[n]) && DenoteItems(items)[n] == Denote(items[n]);
      assert items == items[..n] + [items[n]];
    }
  }

  lemma {:induction false} PlainFields(fields: seq<Field<Js>>)
    requires Unique(JObj(fields))
    ensures WholeFields(fields) == DenoteFields(fields) <==> AllPlain(fields)
    decreases fields, 1
  {
    hide Plain;
    hide Denote;
    hide WholeDocument;
    hide Lost;
    if fields != [] {
      var n := |fields| - 1;
      var head, f := fields[..n], fields[n];
      PlainFields(head);
      WholeFieldsSplit(fields);
      DenoteFieldsSplit(fields);
      hide WholeFields;
      hide DenoteFields;
      PlainLast(fields);
      if !f.value.JUndefined? {
        if Lost(f.key) {
          LostIsAbsent(fields, f.key);
          assert f.key in WholeFields(fields);
        } else {
          FieldPlainExactly(f);
          AbsentField(head, f.key);
          SameUpdate(WholeFields(head), DenoteFields(head), f.key, WholeDocument(f.value), Denote(f.value));
        }
      }
    }
  }

  lemma {:induction false} FieldPlainExactly(f: Field<Js>)
    requires UniqueField(f)
    ensures WholeDocument(f.value) == Denote(f.value) <==> Plain(f.value)
    decreases f, 0
  {
    match f
    case Field(_, value) => PlainExactly(value);
  }

  lemma {:induction false} PlainLast(fields: seq<Field<Js>>)
    requires fields != []
    ensures AllPlain(fields) <==> AllPlain(fields[..|fields| - 1]) && PlainField(fields[|fields| - 1])
  {
    hide PlainField;
    var n := |fields| - 1;
    assert forall i :: 0 <= i < n ==> fields[..n][i] == fields[i];
  }

  /** The normal form keeps the whole document if and only if no defined field is named __proto__. */
  lemma {:induction false} FormKeepsWholeExactly(v: Js)
    requires Unique(v) && Canonicalized(v).Some?
    ensures Denote(Embed(Canonicalized(v).value)) == WholeDocument(v) <==> Plain(v)
  {
    MeaningPreserved(v);
    PlainExactly(v);
  }

  /** On such values the form decides the whole document, with no exception left. */
  lemma {:induction false} PlainFormsDecide(v: Js, w: Js)
    requires Unique(v) && Unique(w) && Canonicalized(v).Some? && Canonicalized(w).Some?
    requires Plain(v) && Plain(w)
    ensures Canonicalized(v) == Canonicalized(w) <==> WholeDocument(v) == WholeDocument(w)
  {
    SameFormIffSameDocument(v, w);
    PlainExactly(v);
    PlainExactly(w);
  }

  lemma {:induction false} PairItems(a: Js, b: Js)
    requires Canonicalized(a).Some? && Canonicalized(b).Some?
    ensures CanonItems([a, b]) == Some([Canonicalized(a).value, Canonicalized(b).value])
  {
    hide Canonicalized;
    var none: seq<Js> := [];
    var x, y := Canonicalized(a).value, Canonicalized(b).value;
    AppendItem(none, a);
    AppendItem([a], b);
    assert none + [a] == [a] && [a] + [b] == [a, b];
    assert CanonItems(none).value + [x] == [x] && [x] + [y] == [x, y];
  }

  /** Arrays are ordered data: swapping two different items changes the document. */
  lemma {:induction false} ArrayOrderMatters(a: Js, b: Js)
    requires Unique(a) && Unique(b) && Canonicalized(a).Some? && Canonicalized(b).Some?
    ensures Canonicalized(JArr([a, b])) == Canonicalized(JArr([b, a])) <==> Denote(a) == Denote(b)
  {
    SameFormIffSameDocument(a, b);
    PairItems(a, b);
    PairItems(b, a);
    var x, y := Canonicalized(a).value, Canonicalized(b).value;
    assert [x, y] == [y, x] ==> [x, y][0] == [y, x][0];
  }

  // ── The loop that fills the result object ─────────────────────────────────

  ghost predicate LexSorted(fs: seq<Field<Js>>) {
    forall i, j :: 0 <= i < j < |fs| ==> LexLess(fs[i].key, fs[j].key)
  }

  function LexInsert(f: Field<Js>, fs: seq<Field<Js>>): seq<Field<Js>> {
    if fs == [] || LexLess(f.key, fs[0].key) then [f] + fs else [fs[0]] + LexInsert(f, fs[1..])
  }

  /** The built-in sort of the key list, carried out on the fields. */
  function LexSort(fs: seq<Field<Js>>): seq<Field<Js>> {
    if fs == [] then [] else LexInsert(fs[0], LexSort(fs[1..]))
  }

  lemma {:induction false} LexInsertMembers(f: Field<Js>, fs: seq<Field<Js>>)
    ensures forall x :: x in LexInsert(f, fs) <==> x == f || x in fs
  {
    if fs != [] && !LexLess(f.key, fs[0].key) {
      LexInsertMembers(f, fs[1..]);
      assert fs == [fs[0]] + fs[1..];
    }
  }

  lemma {:induction false} LexInsertSorted(f: Field<Js>, fs: seq<Field<Js>>)
    requires LexSorted(fs) && forall x :: x in fs ==> x.key != f.key
    ensures LexSorted(LexInsert(f, fs))
  {
    if fs != [] {
      LexTotal(f.key, fs[0].key);
      var r := LexInsert(f, fs);
      if LexLess(f.key, fs[0].key) {
        forall j | 1 < j < |r|
          ensures LexLess(f.key, r[j].key)
        {
          LexTransitive(f.key, fs[0].key, fs[j - 1].key);
        }
      } else {
        LexInsertSorted(f, fs[1..]);
        LexInsertMembers(f, fs[1..]);
        forall j | 0 < j < |r|
          ensures LexLess(fs[0].key, r[j].key)
        {
          assert r[j] in LexInsert(f, fs[1..]);
        }
      }
    }
  }

  lemma {:induction false} LexSortSorts(fs: seq<Field<Js>>)
    requires UniqueKeys(fs)
    ensures LexSorted(LexSort(fs))
    ensures forall x :: x in LexSort(fs) <==> x in fs
  {
    if fs != [] {
      LexSortSorts(fs[1..]);
      LexInsertMembers(fs[0], LexSort(fs[1..]));
      LexInsertSorted(fs[0], LexSort(fs[1..]));
      assert fs == [fs[0]] + fs[1..];
    }
  }

  /** Assigning a new key of an object: index keys take their place by number, others go last. */
  function Put(fs: seq<Field<Canon>>, f: Field<Canon>): seq<Field<Canon>> {
    if Lost(f.key) then fs
    else if IndexKey(f.key) then PutIndex(fs, f) else fs + [f]
  }

  function PutIndex(fs: seq<Field<Canon>>, f: Field<Canon>): seq<Field<Canon>> {
    if fs == [] || !IndexKey(fs[0].key) || (IndexKey(f.key) && Value(f.key) < Value(fs[0].key)) then [f] + fs
    else [fs[0]] + PutIndex(fs[1..], f)
  }

  lemma {:induction false} PutIndexInserts(fs: seq<Field<Canon>>, f: Field<Canon>)
    requires IndexKey(f.key)
    ensures PutIndex(fs, f) == Insert(f, fs)
  {
    if fs != [] {
      PutIndexInserts(fs[1..], f);
    }
  }

  /** Filling an object in plain text order lists its keys in printing order. */
  lemma {:induction false} PutInserts(fs: seq<Field<Canon>>, f: Field<Canon>)
    requires !Lost(f.key) && forall i :: 0 <= i < |fs| ==> LexLess(fs[i].key, f.key)
    ensures Put(fs, f) == Insert(f, fs)
  {
    if IndexKey(f.key) {
      PutIndexInserts(fs, f);
    } else {
      InsertLast(f, fs);
    }
  }

  lemma {:induction false} PutNothing(fs: seq<Field<Canon>>, f: Field<Canon>)
    requires Lost(f.key)
    ensures Put(fs, f) == fs
  {
  }

  lemma {:induction false} SortKeysFrom(fields: seq<Field<Js>>, next: string)
    requires UniqueKeys(fields) && CanonFields(fields).Some?
    requires forall i :: 0 <= i < |fields| ==> LexLess(fields[i].key, next)
    ensures forall i :: 0 <= i < |Sort(CanonFields(fields).value)| ==>
      LexLess(Sort(CanonFields(fields).value)[i].key, next)
  {
    var cs := CanonFields(fields).value;
    CanonFieldsKeys(fields);
    forall i | 0 <= i < |Sort(cs)|
      ensures LexLess(Sort(cs)[i].key, next)
    {
      assert Sort(cs)[i] in multiset(Sort(cs));
      assert Sort(cs)[i] in cs;
    }
  }

  lemma {:induction false} LexSortUnique(fs: seq<Field<Js>>)
    requires Unique(JObj(fs))
    ensures Unique(JObj(LexSort(fs)))
  {
    LexSortSorts(fs);
    LexSortedUnique(LexSort(fs));
    forall i | 0 <= i < |LexSort(fs)|
      ensures UniqueField(LexSort(fs)[i])
    {
      assert LexSort(fs)[i] in fs;
      var j :| 0 <= j < |fs| && fs[j] == LexSort(fs)[i];
      assert UniqueField(fs[j]);
    }
  }

  lemma {:induction false} LexSortedUnique(fs: seq<Field<Js>>)
    requires LexSorted(fs)
    ensures UniqueKeys(fs)
  {
    forall i, j | 0 <= i < j < |fs|
      ensures fs[i].key != fs[j].key
    {
      LexTotal(fs[i].key, fs[j].key);
    }
  }

  lemma {:induction false} SortStep(cs: seq<Field<Canon>>, f: Field<Canon>)
    ensures Sort(cs + [f]) == Insert(f, Sort(cs))
  {
    assert (cs + [f])[..|cs|] == cs;
  }

  /** One turn of the key loop. */
  lemma {:induction false} FillStep(fields: seq<Field<Js>>, i: nat)
    requires LexSorted(fields) && i < |fields| && CanonFields(fields[..i]).Some?
    requires Canonicalized(fields[i].value).Some?
    ensures CanonFields(fields[..i + 1]).Some?
    ensures Sort(CanonFields(fields[..i + 1]).value) ==
      Put(Sort(CanonFields(fields[..i]).value), Field(fields[i].key, Canonicalized(fields[i].value).value))
  {
    hide Lost;
    hide Canonicalized;
    hide Insert;
    hide Sort;
    hide Put;
    LexSortedUnique(fields);
    var cs := CanonFields(fields[..i]).value;
    var f := Field(fields[i].key, Canonicalized(fields[i].value).value);
    assert fields[..i + 1] == fields[..i] + [fields[i]];
    assert !fields[i].value.JUndefined? by {
      UndefinedRefused();
    }
    CanonFieldsStep(fields[..i], fields[i]);
    if Lost(f.key) {
      PutNothing(Sort(cs), f);
    } else {
      SortStep(cs, f);
      SortKeysFrom(fields[..i], f.key);
      PutInserts(Sort(cs), f);
    }
  }

  lemma {:induction false} UndefinedRefused()
    ensures Canonicalized(JUndefined) == None
  {
  }

  lemma {:induction false} FillSkip(fields: seq<Field<Js>>, i: nat)
    requires i < |fields| && fields[i].value.JUndefined?
    ensures CanonFields(fields[..i + 1]) == CanonFields(fields[..i])
  {
    assert fields[..i + 1][..i] == fields[..i];
  }

  lemma {:induction false} FieldRefused(fields: seq<Field<Js>>, i: nat)
    requires i < |fields| && !AcceptableField(fields[i])
    ensures CanonFields(fields).None?
  {
    RejectsFields(fields);
  }

  /** canonicalize as written: sort the keys, then fill a fresh object key by key. */
  method Canonicalize(v: Js) returns (r: Option<Canon>)
    requires Unique(v)
    ensures r == Canonicalized(v)
    decreases v
  {
    match v
    case JNull => r := Some(CNull);
    case JBool(b) => r := Some(CBool(b));
    case JNum(n) => r := if IsInteger(n) then Some(CInt(n.Floor)) else None;
    case JStr(s) => r := Some(CStr(s));
    case JArr(items) =>
      var entries := CanonicalizeItems(items);
      r := if entries.None? then None else Some(CArr(entries.value));
    case JObj(fields) =>
      var result := CanonicalizeFields(fields);
      r := if result.None? then None else Some(CObj(result.value));
    case _ => r := None;
  }

  method CanonicalizeItems(items: seq<Js>) returns (r: Option<seq<Canon>>)
    requires forall i :: 0 <= i < |items| ==> Unique(items[i])
    ensures r == CanonItems(items)
    decreases items
  {
    var entries := [];
    for i := 0 to |items|
      invariant CanonItems(items[..i]) == Some(entries)
    {
      var entry := Canonicalize(items[i]);
      assert items[..i + 1][..i] == items[..i];
      if entry.None? {
        RejectsExactly(items[i]);
        RejectsItems(items);
        return None;
      }
      entries := entries + [entry.value];
    }
    assert items[..|items|] == items;
    r := Some(entries);
  }

  method CanonicalizeFields(source: seq<Field<Js>>) returns (r: Option<seq<Field<Canon>>>)
    requires Unique(JObj(source))
    ensures r == if CanonFields(source).None? then None else Some(Sort(CanonFields(source).value))
    decreases source
  {
    var keys := LexSort(source);
    LexSortSorts(source);
    LexSortUnique(source);
    SameFieldsSameForm(keys, source);
    var result := [];
    for i := 0 to |keys|
      invariant CanonFields(keys[..i]).Some? && result == Sort(CanonFields(keys[..i]).value)
    {
      assert keys[i] in source && UniqueField(keys[i]);
      match keys[i]
      case Field(key, value) =>
        if value.JUndefined? {
          FillSkip(keys, i);
        } else {
          var entry := Canonicalize(value);
          if entry.None? {
            RejectsExactly(value);
            FieldRefused(keys, i);
            return None;
          }
          FillStep(keys, i);
          result := Put(result, Field(key, entry.value));
        }
    }
    assert keys[..|keys|] == keys;
    r := Some(result);
  }
}
