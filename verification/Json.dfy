/**
 Canonical text: printing a canonical value (JSON, sections 3 to 7 of RFC 8259),
 the reader that undoes it, and the proof that the text determines the value.
 */
module Json {
  import opened Prelude
  import opened Decimal
  import opened Canonical
  import opened JsonNumber

  // ── Printing ──────────────────────────────────────────────────────────────

  const QUOTE: char := '\"'
  const SLASH: char := '\\'

  function EscapeChar(c: char): (r: string)
    ensures r != ""
  {
    if c == QUOTE then [SLASH, QUOTE]
    else if c == SLASH then [SLASH, SLASH]
    else if c as int == 8 then [SLASH, 'b']
    else if c as int == 9 then [SLASH, 't']
    else if c as int == 10 then [SLASH, 'n']
    else if c as int == 12 then [SLASH, 'f']
    else if c as int == 13 then [SLASH, 'r']
    else if c < ' ' then [SLASH, 'u', '0', '0', HexDigit(c as int / 16), HexDigit(c as int % 16)]
    else [c]
  }

  function Escape(s: string): string {
    if s == "" then "" else EscapeChar(s[0]) + Escape(s[1..])
  }

  /** JSON.stringify of a canonical value. */
  function Print(num: Numbers, c: Canon): string
    decreases c
  {
    match c
    case CNull => "null"
    case CBool(b) => if b then "true" else "false"
    case CInt(n) => num.show(n)
    case CStr(s) => [QUOTE] + Escape(s) + [QUOTE]
    case CArr(items) => ['['] + PrintArray(num, items)
    case CObj(fields) => ['{'] + PrintObject(num, fields)
  }

  function PrintArray(num: Numbers, items: seq<Canon>): string
    decreases items, 1
  {
    if items == [] then [']'] else PrintElements(num, items)
  }

  function PrintObject(num: Numbers, fields: seq<Field<Canon>>): string
    decreases fields, 1
  {
    if fields == [] then ['}'] else PrintMembers(num, fields)
  }

  /** Elements with their commas, up to and including the closing bracket. */
  function PrintElements(num: Numbers, items: seq<Canon>): string
    requires items != []
    decreases items, 0
  {
    Print(num, items[0]) + (if |items| == 1 then [']'] else [','] + PrintElements(num, items[1..]))
  }

  function MemberText(num: Numbers, f: Field<Canon>): string
    decreases f
  {
    match f
    case Field(key, value) => [QUOTE] + Escape(key) + [QUOTE] + [':'] + Print(num, value)
  }

  function PrintMembers(num: Numbers, fields: seq<Field<Canon>>): string
    requires fields != []
    decreases fields, 0
  {
    MemberText(num, fields[0]) + (if |fields| == 1 then ['}'] else [','] + PrintMembers(num, fields[1..]))
  }

  /** canonicalString; None is canonicalize's exception. */
  function CanonicalString(num: Numbers, v: Js): Option<string> {
    var c := Canonicalized(v);
    if c.None? then None else Some(Print(num, c.value))
  }

  // ── Reading ───────────────────────────────────────────────────────────────

  predicate JsonSpace(c: char) {
    c == ' ' || c as int == 9 || c as int == 10 || c as int == 13
  }

  function SkipSpace(s: string): (r: string)
    ensures |r| <= |s|
  {
    if s != "" && JsonSpace(s[0]) then SkipSpace(s[1..]) else s
  }

  predicate StartsWith(s: string, word: string) {
    |word| <= |s| && s[..|word|] == word
  }

  function ParseHex4(s: string): (r: Parsed<nat>)
    ensures r.Parsed? ==> |r.rest| < |s| && r.value < 65536
  {
    if |s| < 4 then Stuck
    else
      var a, b, c, d := RadixDigit(s[0]), RadixDigit(s[1]), RadixDigit(s[2]), RadixDigit(s[3]);
      if a < 16 && b < 16 && c < 16 && d < 16 then Parsed(((a * 16 + b) * 16 + c) * 16 + d, s[4..])
      else Stuck
  }

  /** A four-digit escape: one code unit, or the two halves of a surrogate pair. */
  function ParseCodeUnit(s: string): (r: Parsed<char>)
    ensures r.Parsed? ==> |r.rest| < |s|
  {
    match ParseHex4(s)
    case Stuck => Stuck
    case Parsed(u, rest) =>
      if u < 0xD800 || u >= 0xE000 then Parsed(u as char, rest)
      else if u >= 0xDC00 || !StartsWith(rest, [SLASH, 'u']) then Stuck
      else
        match ParseHex4(rest[2..])
        case Stuck => Stuck
        case Parsed(w, rest') =>
          if 0xDC00 <= w < 0xE000
          then Parsed((0x10000 + (u - 0xD800) * 1024 + (w - 0xDC00)) as char, rest')
          else Stuck
  }

  /** What follows a reverse solidus. */
  function ParseEscape(s: string): (r: Parsed<char>)
    ensures r.Parsed? ==> |r.rest| < |s|
  {
    if s == "" then Stuck
    else if s[0] == QUOTE || s[0] == SLASH || s[0] == '/' then Parsed(s[0], s[1..])
    else if s[0] == 'b' then Parsed(8 as char, s[1..])
    else if s[0] == 't' then Parsed(9 as char, s[1..])
    else if s[0] == 'n' then Parsed(10 as char, s[1..])
    else if s[0] == 'f' then Parsed(12 as char, s[1..])
    else if s[0] == 'r' then Parsed(13 as char, s[1..])
    else if s[0] == 'u' then ParseCodeUnit(s[1..])
    else Stuck
  }

  function ParseStringChar(s: string): (r: Parsed<char>)
    requires s != ""
    ensures r.Parsed? ==> |r.rest| < |s|
  {
    if s[0] == SLASH then ParseEscape(s[1..]) else Parsed(s[0], s[1..])
  }

  /** The characters of a string, after its opening quote. */
  function ParseString(s: string): (r: Parsed<string>)
    ensures r.Parsed? ==> |r.rest| < |s|
    decreases |s|
  {
    if s == "" || s[0] < ' ' then Stuck
    else if s[0] == QUOTE then Parsed("", s[1..])
    else
      match ParseStringChar(s)
      case Stuck => Stuck
      case Parsed(c, rest) =>
        match ParseString(rest)
        case Stuck => Stuck
        case Parsed(t, rest') => Parsed([c] + t, rest')
  }

  function Keyword(s: string, word: string, v: Js): (r: Parsed<Js>)
    requires word != ""
    ensures r.Parsed? ==> |r.rest| < |s| && r.value == v
  {
    if StartsWith(s, word) then Parsed(v, s[|word|..]) else Stuck
  }

  function ParseValue(num: Numbers, s: string): (r: Parsed<Js>)
    ensures r.Parsed? ==> |r.rest| < |s|
    decreases |s|, 3
  {
    var t := SkipSpace(s);
    if t == "" then Stuck else ParseToken(num, t)
  }

  function ParseToken(num: Numbers, s: string): (r: Parsed<Js>)
    requires s != ""
    ensures r.Parsed? ==> |r.rest| < |s|
    decreases |s|, 2
  {
    if s[0] == '{' then ParseObject(num, s[1..])
    else if s[0] == '[' then ParseArray(num, s[1..])
    else if s[0] == QUOTE then
      match ParseString(s[1..])
      case Stuck => Stuck
      case Parsed(text, rest) => Parsed(JStr(text), rest)
    else if s[0] == 'n' then Keyword(s, "null", JNull)
    else if s[0] == 't' then Keyword(s, "true", JBool(true))
    else if s[0] == 'f' then Keyword(s, "false", JBool(false))
    else ParseNumber(num, s)
  }

  function ParseArray(num: Numbers, s: string): (r: Parsed<Js>)
    ensures r.Parsed? ==> |r.rest| < |s|
    decreases |s|, 5
  {
    var t := SkipSpace(s);
    if t != "" && t[0] == ']' then Parsed(JArr([]), t[1..])
    else
      match ParseElements(num, s)
      case Stuck => Stuck
      case Parsed(items, rest) => Parsed(JArr(items), rest)
  }

  function ParseElements(num: Numbers, s: string): (r: Parsed<seq<Js>>)
    ensures r.Parsed? ==> |r.rest| < |s|
    decreases |s|, 4
  {
    match ParseValue(num, s)
    case Stuck => Stuck
    case Parsed(v, r1) =>
      var t := SkipSpace(r1);
      if t == "" then Stuck
      else if t[0] == ']' then Parsed([v], t[1..])
      else if t[0] != ',' then Stuck
      else
        match ParseElements(num, t[1..])
        case Stuck => Stuck
        case Parsed(vs, r2) => Parsed([v] + vs, r2)
  }

  predicate HasKey<T>(fields: seq<Field<T>>, key: string) {
    exists i :: 0 <= i < |fields| && fields[i].key == key
  }

  function ParseObject(num: Numbers, s: string): (r: Parsed<Js>)
    ensures r.Parsed? ==> |r.rest| < |s|
    decreases |s|, 5
  {
    var t := SkipSpace(s);
    if t != "" && t[0] == '}' then Parsed(JObj([]), t[1..])
    else
      match ParseMembers(num, s)
      case Stuck => Stuck
      case Parsed(fields, rest) => Parsed(JObj(fields), rest)
  }

  /** Of two members with one key the later one stands. */
  function ParseMembers(num: Numbers, s: string): (r: Parsed<seq<Field<Js>>>)
    ensures r.Parsed? ==> |r.rest| < |s|
    decreases |s|, 4
  {
    match ParseMember(num, s)
    case Stuck => Stuck
    case Parsed(f, r1) =>
      var t := SkipSpace(r1);
      if t == "" then Stuck
      else if t[0] == '}' then Parsed([f], t[1..])
      else if t[0] != ',' then Stuck
      else
        match ParseMembers(num, t[1..])
        case Stuck => Stuck
        case Parsed(fs, r2) => Parsed(if HasKey(fs, f.key) then fs else [f] + fs, r2)
  }

  function ParseMember(num: Numbers, s: string): (r: Parsed<Field<Js>>)
    ensures r.Parsed? ==> |r.rest| < |s|
    decreases |s|, 3
  {
    var t := SkipSpace(s);
    if t == "" || t[0] != QUOTE then Stuck
    else
      match ParseString(t[1..])
      case Stuck => Stuck
      case Parsed(key, r1) =>
        var u := SkipSpace(r1);
        if u == "" || u[0] != ':' then Stuck
        else
          match ParseValue(num, u[1..])
          case Stuck => Stuck
          case Parsed(v, r2) => Parsed(Field(key, v), r2)
  }

  /** JSON.parse; None is its SyntaxError. */
  function ParseText(num: Numbers, s: string): Option<Js> {
    match ParseValue(num, s)
    case Stuck => None
    case Parsed(v, rest) => if SkipSpace(rest) == "" then Some(v) else None
  }

  // ── What is read is a JavaScript value ────────────────────────────────────

  /** Every number in the value is a double. */
  ghost predicate Held(num: Numbers, v: Js) {
    match v
    case JNum(x) => num.round(x) == Some(x)
    case JArr(items) => forall i :: 0 <= i < |items| ==> Held(num, items[i])
    case JObj(fields) => forall i :: 0 <= i < |fields| ==> HeldField(num, fields[i])
    case _ => true
  }

  ghost predicate HeldField(num: Numbers, f: Field<Js>) {
    Held(num, f.value)
  }

  ghost predicate HeldCanon(num: Numbers, c: Canon) {
    match c
    case CInt(n) => HeldInt(num, n)
    case CArr(items) => forall i :: 0 <= i < |items| ==> HeldCanon(num, items[i])
    case CObj(fields) => forall i :: 0 <= i < |fields| ==> HeldCanonField(num, fields[i])
    case _ => true
  }

  ghost predicate HeldCanonField(num: Numbers, f: Field<Canon>) {
    HeldCanon(num, f.value)
  }

  /** No key twice in any object; and, of an engine that conforms, no number that is not a double. */
  ghost predicate Genuine(num: Numbers, v: Js) {
    Unique(v) && (Conforms(num) ==> Held(num, v))
  }

  lemma {:induction false} ParsedGenuine(num: Numbers, s: string)
    ensures ParseValue(num, s).Parsed? ==> Genuine(num, ParseValue(num, s).value)
    decreases |s|, 3
  {
    hide Genuine;
    var t := SkipSpace(s);
    if t != "" {
      TokenGenuine(num, t);
    }
  }

  lemma {:induction false} NumberGenuine(num: Numbers, s: string)
    ensures ParseNumber(num, s).Parsed? ==> Genuine(num, ParseNumber(num, s).value)
  {
    hide ParseExact;
    hide ShowsBack;
  }

  lemma {:induction false} GenuineArray(num: Numbers, items: seq<Js>)
    requires forall i :: 0 <= i < |items| ==> Genuine(num, items[i])
    ensures Genuine(num, JArr(items))
  {
    hide Conforms;
  }

  lemma {:induction false} TokenGenuine(num: Numbers, s: string)
    requires s != ""
    ensures ParseToken(num, s).Parsed? ==> Genuine(num, ParseToken(num, s).value)
    decreases |s|, 2
  {
    hide ParseNumber;
    hide ParseMembers;
    hide ParseElements;
    hide ParseString;
    hide Conforms;
    if s[0] == '{' {
      MembersGenuine(num, s[1..]);
    } else if s[0] == '[' {
      ElementsGenuine(num, s[1..]);
      var p := ParseElements(num, s[1..]);
      if p.Parsed? {
        GenuineArray(num, p.value);
      }
      GenuineArray(num, []);
      hide Genuine;
    } else {
      NumberGenuine(num, s);
    }
  }

  lemma {:induction false} ElementsGenuine(num: Numbers, s: string)
    ensures ParseElements(num, s).Parsed? ==>
      forall i :: 0 <= i < |ParseElements(num, s).value| ==> Genuine(num, ParseElements(num, s).value[i])
    decreases |s|, 4
  {
    hide Genuine;
    ParsedGenuine(num, s);
    var p := ParseValue(num, s);
    if p.Parsed? {
      var t := SkipSpace(p.rest);
      if t != "" && t[0] == ',' {
        ElementsGenuine(num, t[1..]);
      }
    }
  }

  lemma {:induction false} GenuineMember(num: Numbers, f: Field<Js>, fs: seq<Field<Js>>)
    requires Genuine(num, f.value) && Genuine(num, JObj(fs)) && !HasKey(fs, f.key)
    ensures Genuine(num, JObj([f] + fs))
  {
    hide Conforms;
    var all := [f] + fs;
    assert UniqueField(f) && (Conforms(num) ==> HeldField(num, f));
    forall i | 1 <= i < |all|
      ensures all[i] == fs[i - 1] && UniqueField(all[i]) && (Conforms(num) ==> HeldField(num, all[i]))
    {
      assert UniqueField(fs[i - 1]) && (Conforms(num) ==> HeldField(num, fs[i - 1]));
    }
    hide UniqueField;
    hide HeldField;
    assert UniqueKeys(all) by {
      assert forall j :: 1 <= j < |all| ==> all[j].key != f.key;
    }
  }

  lemma {:induction false} GenuineSingle(num: Numbers, f: Field<Js>)
    requires Genuine(num, f.value)
    ensures Genuine(num, JObj([f]))
  {
    GenuineMember(num, f, []);
    assert [f] + [] == [f];
  }

  lemma {:induction false} MembersGenuine(num: Numbers, s: string)
    ensures ParseMembers(num, s).Parsed? ==> Genuine(num, JObj(ParseMembers(num, s).value))
    decreases |s|, 4
  {
    hide Genuine;
    hide ParseMember;
    MemberGenuine(num, s);
    var p := ParseMember(num, s);
    if p.Parsed? {
      GenuineSingle(num, p.value);
      var t := SkipSpace(p.rest);
      if t != "" && t[0] == ',' {
        MembersGenuine(num, t[1..]);
        var q := ParseMembers(num, t[1..]);
        if q.Parsed? && !HasKey(q.value, p.value.key) {
          GenuineMember(num, p.value, q.value);
        }
      }
    }
  }

  lemma {:induction false} MemberGenuine(num: Numbers, s: string)
    ensures ParseMember(num, s).Parsed? ==> Genuine(num, ParseMember(num, s).value.value)
    decreases |s|, 3
  {
    hide Genuine;
    var t := SkipSpace(s);
    if t != "" && t[0] == QUOTE {
      var p := ParseString(t[1..]);
      if p.Parsed? {
        var u := SkipSpace(p.rest);
        if u != "" {
          ParsedGenuine(num, u[1..]);
        }
      }
    }
  }

  /** A value made of doubles has a normal form made of doubles. */
  lemma {:induction false} FormIsHeld(num: Numbers, v: Js)
    requires Held(num, v) && Canonicalized(v).Some?
    ensures HeldCanon(num, Canonicalized(v).value)
  {
    match v
    case JArr(items) => ItemsAreHeld(num, items);
    case JObj(fields) =>
      FieldsAreHeld(num, fields);
      var cs := CanonFields(fields).value;
      forall i | 0 <= i < |cs|
        ensures HeldCanonField(num, Sort(cs)[i])
      {
        assert Sort(cs)[i] in multiset(Sort(cs));
        assert Sort(cs)[i] in cs;
      }
    case _ =>
  }

  lemma {:induction false} ItemsAreHeld(num: Numbers, items: seq<Js>)
    requires CanonItems(items).Some? && forall i :: 0 <= i < |items| ==> Held(num, items[i])
    ensures forall i :: 0 <= i < |items| ==> HeldCanon(num, CanonItems(items).value[i])
  {
    if items != [] {
      var n := |items| - 1;
      ItemsAreHeld(num, items[..n]);
      FormIsHeld(num, items[n]);
    }
  }

  lemma {:induction false} FieldsAreHeld(num: Numbers, fields: seq<Field<Js>>)
    requires CanonFields(fields).Some? && forall i :: 0 <= i < |fields| ==> HeldField(num, fields[i])
    ensures forall f :: f in CanonFields(fields).value ==> HeldCanonField(num, f)
  {
    if fields != [] {
      var n := |fields| - 1;
      FieldsAreHeld(num, fields[..n]);
      assert HeldField(num, fields[n]);
      match fields[n]
      case Field(key, value) =>
        if !value.JUndefined? {
          FormIsHeld(num, value);
        }
    }
  }

  // ── The reader undoes the printer ─────────────────────────────────────────

  lemma {:induction false} ReadEscapedChar(c: char, t: string)
    ensures
      var s := EscapeChar(c) + t;
      s[0] >= ' ' && s[0] != QUOTE
      && ParseStringChar(s) == Parsed(c, t)
  {
    var e := EscapeChar(c);
    assert (e + t)[0] == e[0];
    if |e| == 1 {
      assert (e + t)[1..] == t;
    } else if |e| == 2 {
      assert (e + t)[1..][0] == e[1] && (e + t)[1..][1..] == t;
    } else {
      ReadHexChar(c, t);
    }
  }

  lemma {:induction false} ReadHexChar(c: char, t: string)
    requires c < ' '
    ensures
      var e := [SLASH, 'u', '0', '0', HexDigit(c as int / 16), HexDigit(c as int % 16)];
      ParseEscape((e + t)[1..]) == Parsed(c, t)
  {
    var h := ['0', '0', HexDigit(c as int / 16), HexDigit(c as int % 16)];
    var e := [SLASH, 'u'] + h;
    var s := (e + t)[1..];
    assert s[0] == 'u' && s[1..] == h + t;
    assert (h + t)[4..] == t;
    assert ParseHex4(h + t) == Parsed(c as int, t);
  }

  lemma {:induction false} ReadCharStep(s: string, c: char, t: string, text: string, rest: string)
    requires s != "" && s[0] >= ' ' && s[0] != QUOTE
    requires ParseStringChar(s) == Parsed(c, t)
    requires |t| < |s| && ParseString(t) == Parsed(text, rest)
    ensures ParseString(s) == Parsed([c] + text, rest)
  {
    hide ParseStringChar;
  }

  lemma {:induction false} ReadQuote(rest: string)
    ensures ParseString([QUOTE] + rest) == Parsed("", rest)
  {
    assert ([QUOTE] + rest)[1..] == rest;
  }

  lemma {:induction false} EscapeSplit(s: string, tail: string)
    ensures s == "" ==> Escape(s) + tail == tail
    ensures s != "" ==> Escape(s) + tail == EscapeChar(s[0]) + (Escape(s[1..]) + tail)
  {
    hide EscapeChar;
  }

  /** Reading an escaped string gives the string back. */
  lemma {:induction false} ReadEscaped(s: string, rest: string)
    ensures ParseString(Escape(s) + ([QUOTE] + rest)) == Parsed(s, rest)
  {
    hide EscapeChar;
    hide Escape;
    hide ParseStringChar;
    hide ParseString;
    var tail := [QUOTE] + rest;
    EscapeSplit(s, tail);
    if s == "" {
      ReadQuote(rest);
    } else {
      var t := Escape(s[1..]) + tail;
      ReadEscapedChar(s[0], t);
      ReadEscaped(s[1..], rest);
      ReadCharStep(EscapeChar(s[0]) + t, s[0], t, s[1..], rest);
      assert s == [s[0]] + s[1..];
    }
  }

  lemma {:induction false} PrintStarts(num: Numbers, c: Canon)
    requires Conforms(num) && HeldCanon(num, c)
    ensures Print(num, c) != "" && !JsonSpace(Print(num, c)[0]) && Print(num, c)[0] != ']'
  {
    if c.CInt? {
      ReadShown(num, c.n, "");
    }
  }

  /**
   Printing then reading is the identity on canonical values, whatever follows
   the text.
   */
  lemma {:induction false} ReadPrinted(num: Numbers, c: Canon, rest: string)
    requires Conforms(num) && HeldCanon(num, c) && IsCanonical(c) && Delimited(rest)
    ensures ParseValue(num, Print(num, c) + rest) == Parsed(Embed(c), rest)
    decreases c
  {
    PrintStarts(num, c);
    var s := Print(num, c) + rest;
    assert s[0] == Print(num, c)[0];
    assert SkipSpace(s) == s;
    ReadToken(num, c, rest);
  }

  lemma {:induction false} ReadWord(word: string, rest: string)
    ensures StartsWith(word + rest, word) && (word + rest)[|word|..] == rest
  {
  }

  lemma {:induction false} ReadSimpleToken(num: Numbers, c: Canon, rest: string)
    requires c.CNull? || c.CBool?
    ensures Print(num, c) != "" && ParseToken(num, Print(num, c) + rest) == Parsed(Embed(c), rest)
  {
    hide ParseNumber;
    hide ParseObject;
    hide ParseArray;
    hide ParseString;
    ReadWord("null", rest);
    ReadWord("true", rest);
    ReadWord("false", rest);
  }

  lemma {:induction false} ReadStringToken(num: Numbers, text: string, rest: string)
    ensures ParseToken(num, Print(num, CStr(text)) + rest) == Parsed(JStr(text), rest)
  {
    hide ParseNumber;
    hide ParseObject;
    hide ParseArray;
    hide ParseString;
    hide Keyword;
    hide Escape;
    var s := Print(num, CStr(text)) + rest;
    assert s[0] == QUOTE && s[1..] == Escape(text) + ([QUOTE] + rest);
    ReadEscaped(text, rest);
  }

  lemma {:induction false} NumberToken(num: Numbers, s: string)
    requires s != "" && (s[0] == '-' || IsDigit(s[0]))
    ensures ParseToken(num, s) == ParseNumber(num, s)
  {
    hide ParseNumber;
    hide ParseObject;
    hide ParseArray;
    hide ParseString;
    hide Keyword;
  }

  lemma {:induction false} ReadIntToken(num: Numbers, n: int, rest: string)
    requires Conforms(num) && HeldInt(num, n) && Delimited(rest)
    ensures num.show(n) != "" && ParseToken(num, num.show(n) + rest) == Parsed(JNum(n as real), rest)
  {
    hide ParseNumber;
    hide ParseToken;
    hide Delimited;
    ReadShown(num, n, rest);
    hide Conforms;
    Cut(num.show(n), rest);
    NumberToken(num, num.show(n) + rest);
  }

  lemma {:induction false} OpensArray(num: Numbers, items: seq<Canon>, rest: string)
    ensures ParseToken(num, Print(num, CArr(items)) + rest) == ParseArray(num, PrintArray(num, items) + rest)
  {
    hide PrintArray;
    hide ParseArray;
    var s := Print(num, CArr(items)) + rest;
    assert s[0] == '[' && s[1..] == PrintArray(num, items) + rest;
  }

  lemma {:induction false} OpensObject(num: Numbers, fields: seq<Field<Canon>>, rest: string)
    ensures ParseToken(num, Print(num, CObj(fields)) + rest) == ParseObject(num, PrintObject(num, fields) + rest)
  {
    hide PrintObject;
    hide ParseObject;
    var s := Print(num, CObj(fields)) + rest;
    assert s[0] == '{' && s[1..] == PrintObject(num, fields) + rest;
  }

  lemma {:induction false} EmbedCases(num: Numbers, c: Canon)
    ensures c.CInt? ==> Print(num, c) == num.show(c.n)
    ensures match c
            case CInt(n) => Embed(c) == JNum(n as real)
            case CStr(s) => Embed(c) == JStr(s)
            case CArr(items) => Embed(c) == JArr(EmbedItems(items))
            case CObj(fields) => Embed(c) == JObj(EmbedFields(fields))
            case _ => true
  {
  }

  lemma {:induction false} ReadToken(num: Numbers, c: Canon, rest: string)
    requires Conforms(num) && HeldCanon(num, c) && IsCanonical(c) && Delimited(rest)
    ensures ParseToken(num, Print(num, c) + rest) == Parsed(Embed(c), rest)
    decreases c, 0
  {
    hide ParseToken;
    hide Delimited;
    hide Print;
    hide Embed;
    hide Conforms;
    EmbedCases(num, c);
    match c
    case CInt(n) =>
      ReadIntToken(num, n, rest);
    case CStr(s) =>
      ReadStringToken(num, s, rest);
    case CArr(items) =>
      ReadArray(num, items, rest);
      OpensArray(num, items, rest);
    case CObj(fields) =>
      SortedUnique(fields);
      ReadObject(num, fields, rest);
      OpensObject(num, fields, rest);
    case _ =>
      ReadSimpleToken(num, c, rest);
  }

  lemma {:induction false} ReadArray(num: Numbers, items: seq<Canon>, rest: string)
    requires Conforms(num) && forall i :: 0 <= i < |items| ==> IsCanonical(items[i]) && HeldCanon(num, items[i])
    ensures ParseArray(num, PrintArray(num, items) + rest) == Parsed(JArr(EmbedItems(items)), rest)
    decreases items, 1
  {
    if items == [] {
      assert ([']'] + rest)[1..] == rest;
    } else {
      var s := PrintElements(num, items) + rest;
      PrintStarts(num, items[0]);
      assert s[0] == Print(num, items[0])[0];
      ReadElements(num, items, rest);
    }
  }

  lemma {:induction false} ElementsStop(num: Numbers, s: string, v: Js, more: string)
    requires ParseValue(num, s) == Parsed(v, more) && more != "" && more[0] == ']'
    ensures ParseElements(num, s) == Parsed([v], more[1..])
  {
    hide ParseValue;
    assert SkipSpace(more) == more;
  }

  lemma {:induction false} ElementsStep(num: Numbers, s: string, v: Js, more: string, vs: seq<Js>, rest: string)
    requires ParseValue(num, s) == Parsed(v, more) && more != "" && more[0] == ','
    requires ParseElements(num, more[1..]) == Parsed(vs, rest)
    ensures ParseElements(num, s) == Parsed([v] + vs, rest)
  {
    hide ParseValue;
    assert SkipSpace(more) == more;
  }

  lemma {:induction false} PrintElementsSplit(num: Numbers, items: seq<Canon>, rest: string)
    requires items != []
    ensures PrintElements(num, items) + rest
         == Print(num, items[0])
            + (if |items| == 1 then [']'] + rest else [','] + (PrintElements(num, items[1..]) + rest))
  {
    hide Print;
  }

  lemma {:induction false} ReadElements(num: Numbers, items: seq<Canon>, rest: string)
    requires Conforms(num) && items != []
    requires forall i :: 0 <= i < |items| ==> IsCanonical(items[i]) && HeldCanon(num, items[i])
    ensures ParseElements(num, PrintElements(num, items) + rest) == Parsed(EmbedItems(items), rest)
    decreases items, 0
  {
    hide ParseValue;
    hide ParseElements;
    hide PrintElements;
    hide IsCanonical;
    hide HeldCanon;
    hide Conforms;
    hide Print;
    hide Embed;
    hide EmbedItems;
    var more := if |items| == 1 then [']'] + rest else [','] + (PrintElements(num, items[1..]) + rest);
    var s := PrintElements(num, items) + rest;
    PrintElementsSplit(num, items, rest);
    ReadPrinted(num, items[0], more);
    EmbedItemsHead(items);
    if |items| == 1 {
      assert more[1..] == rest;
      assert EmbedItems(items) == [Embed(items[0])];
      ElementsStop(num, s, Embed(items[0]), more);
    } else {
      assert more[1..] == PrintElements(num, items[1..]) + rest;
      ReadElements(num, items[1..], rest);
      ElementsStep(num, s, Embed(items[0]), more, EmbedItems(items[1..]), rest);
    }
  }

  lemma {:induction false} EmbedItemsAt(items: seq<Canon>, i: nat)
    requires i < |items|
    ensures EmbedItems(items)[i] == Embed(items[i])
  {
    var n := |items| - 1;
    EmbedItemsLast(items);
    if i < n {
      EmbedItemsAt(items[..n], i);
      assert EmbedItems(items)[i] == EmbedItems(items)[..n][i];
    }
  }

  lemma {:induction false} EmbedItemsHead(items: seq<Canon>)
    requires items != []
    ensures EmbedItems(items) == [Embed(items[0])] + EmbedItems(items[1..])
  {
    hide EmbedItems;
    hide Embed;
    forall i | 0 <= i < |items|
      ensures EmbedItems(items)[i] == ([Embed(items[0])] + EmbedItems(items[1..]))[i]
    {
      EmbedItemsAt(items, i);
      if i > 0 {
        EmbedItemsAt(items[1..], i - 1);
      }
    }
  }

  lemma {:induction false} EmbedFieldsHead(fields: seq<Field<Canon>>)
    requires fields != []
    ensures EmbedFields(fields) == [Field(fields[0].key, Embed(fields[0].value))] + EmbedFields(fields[1..])
  {
    forall i | 0 <= i < |fields|
      ensures EmbedFields(fields)[i]
           == ([Field(fields[0].key, Embed(fields[0].value))] + EmbedFields(fields[1..]))[i]
    {
      EmbedFieldsAt(fields, i);
      if i > 0 {
        EmbedFieldsAt(fields[1..], i - 1);
      }
    }
  }

  lemma {:induction false} ReadObject(num: Numbers, fields: seq<Field<Canon>>, rest: string)
    requires Conforms(num) && UniqueKeys(fields)
    requires forall i :: 0 <= i < |fields| ==> CanonicalField(fields[i]) && HeldCanonField(num, fields[i])
    ensures ParseObject(num, PrintObject(num, fields) + rest) == Parsed(JObj(EmbedFields(fields)), rest)
    decreases fields, 2
  {
    if fields == [] {
      assert (['}'] + rest)[1..] == rest;
    } else {
      var s := PrintMembers(num, fields) + rest;
      assert MemberText(num, fields[0])[0] == QUOTE;
      assert s[0] == MemberText(num, fields[0])[0];
      ReadMembers(num, fields, rest);
    }
  }

  lemma {:induction false} MembersStop(num: Numbers, s: string, f: Field<Js>, more: string)
    requires ParseMember(num, s) == Parsed(f, more) && more != "" && more[0] == '}'
    ensures ParseMembers(num, s) == Parsed([f], more[1..])
  {
    hide ParseMember;
    assert SkipSpace(more) == more;
  }

  lemma {:induction false} MembersStep(num: Numbers, s: string, f: Field<Js>, more: string,
                                       fs: seq<Field<Js>>, rest: string)
    requires ParseMember(num, s) == Parsed(f, more) && more != "" && more[0] == ','
    requires ParseMembers(num, more[1..]) == Parsed(fs, rest) && !HasKey(fs, f.key)
    ensures ParseMembers(num, s) == Parsed([f] + fs, rest)
  {
    hide ParseMember;
    assert SkipSpace(more) == more;
  }

  lemma {:induction false} PrintMembersSplit(num: Numbers, fields: seq<Field<Canon>>, rest: string)
    requires fields != []
    ensures PrintMembers(num, fields) + rest
         == MemberText(num, fields[0])
            + (if |fields| == 1 then ['}'] + rest else [','] + (PrintMembers(num, fields[1..]) + rest))
  {
    hide MemberText;
  }

  lemma {:induction false} ReadMembers(num: Numbers, fields: seq<Field<Canon>>, rest: string)
    requires Conforms(num) && fields != [] && UniqueKeys(fields)
    requires forall i :: 0 <= i < |fields| ==> CanonicalField(fields[i]) && HeldCanonField(num, fields[i])
    ensures ParseMembers(num, PrintMembers(num, fields) + rest) == Parsed(EmbedFields(fields), rest)
    decreases fields, 1
  {
    hide ParseMembers;
    hide ParseMember;
    hide CanonicalField;
    hide HeldCanonField;
    hide Conforms;
    hide PrintMembers;
    hide MemberText;
    hide Embed;
    hide EmbedFields;
    var more := if |fields| == 1 then ['}'] + rest else [','] + (PrintMembers(num, fields[1..]) + rest);
    var s := PrintMembers(num, fields) + rest;
    var f := Field(fields[0].key, Embed(fields[0].value));
    PrintMembersSplit(num, fields, rest);
    ReadMember(num, fields[0], more);
    EmbedFieldsHead(fields);
    if |fields| == 1 {
      assert more[1..] == rest;
      assert EmbedFields(fields) == [f];
      MembersStop(num, s, f, more);
    } else {
      assert more[1..] == PrintMembers(num, fields[1..]) + rest;
      ReadMembers(num, fields[1..], rest);
      assert !HasKey(EmbedFields(fields[1..]), fields[0].key);
      MembersStep(num, s, f, more, EmbedFields(fields[1..]), rest);
    }
  }

  lemma {:induction false} MemberReads(num: Numbers, s: string, key: string, after: string, v: Js, more: string)
    requires s != "" && s[0] == QUOTE && ParseString(s[1..]) == Parsed(key, after)
    requires after != "" && after[0] == ':' && ParseValue(num, after[1..]) == Parsed(v, more)
    ensures ParseMember(num, s) == Parsed(Field(key, v), more)
  {
    hide ParseValue;
    hide ParseString;
    assert SkipSpace(s) == s && SkipSpace(after) == after;
  }

  lemma {:induction false} MemberSplit(num: Numbers, f: Field<Canon>, more: string)
    ensures MemberText(num, f) + more
         == [QUOTE] + (Escape(f.key) + ([QUOTE] + ([':'] + (Print(num, f.value) + more))))
  {
    hide Escape;
    hide Print;
  }

  lemma {:induction false} ReadMember(num: Numbers, f: Field<Canon>, more: string)
    requires Conforms(num) && CanonicalField(f) && HeldCanonField(num, f) && Delimited(more)
    ensures ParseMember(num, MemberText(num, f) + more) == Parsed(Field(f.key, Embed(f.value)), more)
    decreases f, 0
  {
    hide ParseMember;
    hide ParseValue;
    hide ParseString;
    hide MemberText;
    hide Escape;
    hide Print;
    hide Embed;
    hide Conforms;
    hide Delimited;
    var value := Print(num, f.value) + more;
    var after := [':'] + value;
    var tail := Escape(f.key) + ([QUOTE] + after);
    var s := [QUOTE] + tail;
    assert s[1..] == tail && after[1..] == value;
    MemberSplit(num, f, more);
    ReadEscaped(f.key, after);
    ReadPrinted(num, f.value, more);
    MemberReads(num, s, f.key, after, Embed(f.value), more);
  }

  // ── Canonical text is faithful ────────────────────────────────────────────

  /** Parsing what was printed gives the value back. */
  lemma {:induction false} RoundTrip(num: Numbers, c: Canon)
    requires Conforms(num) && IsCanonical(c) && HeldCanon(num, c)
    ensures ParseText(num, Print(num, c)) == Some(Embed(c))
  {
    ReadPrinted(num, c, "");
    assert Print(num, c) + "" == Print(num, c);
  }

  /** Two canonical values never print alike. */
  lemma {:induction false} PrintInjective(num: Numbers, c: Canon, d: Canon)
    requires Conforms(num) && IsCanonical(c) && IsCanonical(d) && HeldCanon(num, c) && HeldCanon(num, d)
    requires Print(num, c) == Print(num, d)
    ensures c == d
  {
    RoundTrip(num, c);
    RoundTrip(num, d);
    CanonicalIsFixpoint(c);
    CanonicalIsFixpoint(d);
  }

  /** canonicalString gives two accepted values one text if and only if they denote one document. */
  lemma {:induction false} TextDecidesDocument(num: Numbers, v: Js, w: Js)
    requires Conforms(num) && Held(num, v) && Held(num, w)
    requires Unique(v) && Unique(w) && Acceptable(v) && Acceptable(w)
    ensures CanonicalString(num, v).Some? && CanonicalString(num, w).Some?
    ensures CanonicalString(num, v) == CanonicalString(num, w) <==> Denote(v) == Denote(w)
  {
    RejectsExactly(v);
    RejectsExactly(w);
    SameFormIffSameDocument(v, w);
    ResultIsCanonical(v);
    ResultIsCanonical(w);
    FormIsHeld(num, v);
    FormIsHeld(num, w);
    if CanonicalString(num, v) == CanonicalString(num, w) {
      PrintInjective(num, Canonicalized(v).value, Canonicalized(w).value);
    }
  }

  /** Canonical text is a fixed point of reading and printing again. */
  lemma {:induction false} TextIsStable(num: Numbers, v: Js)
    requires Conforms(num) && Held(num, v) && Unique(v) && Acceptable(v)
    ensures CanonicalString(num, v).Some?
    ensures ParseText(num, CanonicalString(num, v).value).Some?
    ensures Genuine(num, ParseText(num, CanonicalString(num, v).value).value)
    ensures CanonicalString(num, ParseText(num, CanonicalString(num, v).value).value) == CanonicalString(num, v)
  {
    RejectsExactly(v);
    ResultIsCanonical(v);
    FormIsHeld(num, v);
    var c := Canonicalized(v).value;
    RoundTrip(num, c);
    ParsedGenuine(num, Print(num, c));
    CanonicalIsFixpoint(c);
  }

  // ── White space around a text ─────────────────────────────────────────────

  predicate AllSpace(w: string) {
    forall i :: 0 <= i < |w| ==> JsonSpace(w[i])
  }

  lemma {:induction false} SkipsSpace(w: string, s: string)
    requires AllSpace(w)
    ensures SkipSpace(w + s) == SkipSpace(s)
  {
    if w == "" {
      assert w + s == s;
    } else {
      assert (w + s)[1..] == w[1..] + s;
      SkipsSpace(w[1..], s);
    }
  }

  lemma {:induction false} SpaceIsSkipped(w: string)
    requires AllSpace(w)
    ensures SkipSpace(w) == ""
  {
    SkipsSpace(w, "");
    assert w + "" == w;
  }

  /** White space at the end is met only when everything else has been skipped. */
  lemma {:induction false} SkipSpaceAppended(s: string, w: string)
    requires AllSpace(w)
    ensures SkipSpace(s + w) == if SkipSpace(s) == "" then "" else SkipSpace(s) + w
  {
    if s == "" {
      assert s + w == w;
      SpaceIsSkipped(w);
    } else {
      CutAt(s, w, 1);
      SkipSpaceAppended(s[1..], w);
    }
  }

  lemma {:induction false} HexAppended(s: string, w: string)
    requires AllSpace(w)
    ensures ParseHex4(s + w) == Appended(ParseHex4(s), w)
  {
    if |s| >= 4 {
      CutAt(s, w, 4);
    } else if |s + w| >= 4 {
      assert (s + w)[3] == w[3 - |s|] && JsonSpace(w[3 - |s|]);
    }
  }

  lemma {:induction false} CodeUnitAppended(s: string, w: string)
    requires AllSpace(w)
    ensures ParseCodeUnit(s + w) == Appended(ParseCodeUnit(s), w)
  {
    HexAppended(s, w);
    var p := ParseHex4(s);
    if p.Parsed? {
      if |p.rest| >= 2 {
        CutAt(p.rest, w, 2);
        HexAppended(p.rest[2..], w);
      } else if |p.rest + w| >= 2 {
        assert (p.rest + w)[1] == w[1 - |p.rest|] && JsonSpace(w[1 - |p.rest|]);
        assert !StartsWith(p.rest + w, [SLASH, 'u']);
      }
    }
    hide ParseHex4;
  }

  lemma {:induction false} EscapeAppended(s: string, w: string)
    requires AllSpace(w)
    ensures ParseEscape(s + w) == Appended(ParseEscape(s), w)
  {
    hide ParseCodeUnit;
    if s == "" {
      assert s + w == w;
    } else {
      CutAt(s, w, 1);
      CodeUnitAppended(s[1..], w);
    }
  }

  /** A string left open stays open. */
  lemma {:induction false} SpaceClosesNothing(w: string)
    requires AllSpace(w)
    ensures ParseString(w) == Stuck
  {
    if w != "" {
      SpaceClosesNothing(w[1..]);
    }
  }

  lemma {:induction false} StringCharAppended(s: string, w: string)
    requires s != "" && AllSpace(w)
    ensures ParseStringChar(s + w) == Appended(ParseStringChar(s), w)
  {
    hide ParseEscape;
    CutAt(s, w, 1);
    EscapeAppended(s[1..], w);
  }

  lemma {:induction false} StringAppended(s: string, w: string)
    requires AllSpace(w)
    ensures ParseString(s + w) == Appended(ParseString(s), w)
    decreases |s|
  {
    hide ParseStringChar;
    if s == "" {
      assert s + w == w;
      SpaceClosesNothing(w);
    } else {
      CutAt(s, w, 1);
      StringCharAppended(s, w);
      var p := ParseStringChar(s);
      if p.Parsed? {
        StringAppended(p.rest, w);
      }
    }
  }

  lemma {:induction false} KeywordAppended(s: string, word: string, v: Js, w: string)
    requires word != "" && AllSpace(w) && !JsonSpace(word[|word| - 1])
    ensures Keyword(s + w, word, v) == Appended(Keyword(s, word, v), w)
  {
    var n := |word|;
    if n <= |s| {
      CutAt(s, w, n);
    } else if n <= |s + w| {
      assert (s + w)[..n][n - 1] == w[n - 1 - |s|] && JsonSpace(w[n - 1 - |s|]);
    }
  }

  lemma {:induction false} ValueAppended(num: Numbers, s: string, w: string)
    requires AllSpace(w)
    ensures ParseValue(num, s + w) == Appended(ParseValue(num, s), w)
    decreases |s|, 3
  {
    hide ParseToken;
    SkipSpaceAppended(s, w);
    var t := SkipSpace(s);
    if t != "" {
      TokenAppended(num, t, w);
    }
  }

  lemma {:induction false} TokenAppended(num: Numbers, s: string, w: string)
    requires s != "" && AllSpace(w)
    ensures ParseToken(num, s + w) == Appended(ParseToken(num, s), w)
    decreases |s|, 2
  {
    hide ParseNumber;
    hide ParseObject;
    hide ParseArray;
    hide ParseString;
    hide Keyword;
    CutAt(s, w, 1);
    if s[0] == '{' {
      ObjectAppended(num, s[1..], w);
    } else if s[0] == '[' {
      ArrayAppended(num, s[1..], w);
    } else if s[0] == QUOTE {
      StringAppended(s[1..], w);
    } else {
      KeywordAppended(s, "null", JNull, w);
      KeywordAppended(s, "true", JBool(true), w);
      KeywordAppended(s, "false", JBool(false), w);
      assert Delimited(w);
      NumberAppended(num, s, w);
    }
  }

  lemma {:induction false} ArrayAppended(num: Numbers, s: string, w: string)
    requires AllSpace(w)
    ensures ParseArray(num, s + w) == Appended(ParseArray(num, s), w)
    decreases |s|, 5
  {
    hide ParseElements;
    SkipSpaceAppended(s, w);
    var t := SkipSpace(s);
    if t != "" {
      CutAt(t, w, 1);
    }
    hide SkipSpace;
    ElementsAppended(num, s, w);
  }

  lemma {:induction false} ElementsAppended(num: Numbers, s: string, w: string)
    requires AllSpace(w)
    ensures ParseElements(num, s + w) == Appended(ParseElements(num, s), w)
    decreases |s|, 4
  {
    hide ParseValue;
    ValueAppended(num, s, w);
    var p := ParseValue(num, s);
    if p.Parsed? {
      SkipSpaceAppended(p.rest, w);
      var t := SkipSpace(p.rest);
      if t != "" {
        CutAt(t, w, 1);
        ElementsAppended(num, t[1..], w);
      }
      hide SkipSpace;
    }
  }

  lemma {:induction false} ObjectAppended(num: Numbers, s: string, w: string)
    requires AllSpace(w)
    ensures ParseObject(num, s + w) == Appended(ParseObject(num, s), w)
    decreases |s|, 5
  {
    hide ParseMembers;
    SkipSpaceAppended(s, w);
    var t := SkipSpace(s);
    if t != "" {
      CutAt(t, w, 1);
    }
    hide SkipSpace;
    MembersAppended(num, s, w);
  }

  lemma {:induction false} MembersAppended(num: Numbers, s: string, w: string)
    requires AllSpace(w)
    ensures ParseMembers(num, s + w) == Appended(ParseMembers(num, s), w)
    decreases |s|, 4
  {
    hide ParseMember;
    MemberAppended(num, s, w);
    var p := ParseMember(num, s);
    if p.Parsed? {
      SkipSpaceAppended(p.rest, w);
      var t := SkipSpace(p.rest);
      if t != "" {
        CutAt(t, w, 1);
        MembersAppended(num, t[1..], w);
      }
      hide SkipSpace;
    }
  }

  lemma {:induction false} MemberAppended(num: Numbers, s: string, w: string)
    requires AllSpace(w)
    ensures ParseMember(num, s + w) == Appended(ParseMember(num, s), w)
    decreases |s|, 3
  {
    hide ParseValue;
    hide ParseString;
    SkipSpaceAppended(s, w);
    var t := SkipSpace(s);
    if t != "" {
      CutAt(t, w, 1);
      StringAppended(t[1..], w);
      var p := ParseString(t[1..]);
      if p.Parsed? {
        SkipSpaceAppended(p.rest, w);
        var u := SkipSpace(p.rest);
        if u != "" {
          CutAt(u, w, 1);
          ValueAppended(num, u[1..], w);
        }
      }
    }
    hide SkipSpace;
  }

  /** White space on either side of a text changes nothing for its reader, be the text good or bad. */
  lemma {:induction false} OuterSpaceIgnored(num: Numbers, before: string, s: string, after: string)
    requires AllSpace(before) && AllSpace(after)
    ensures ParseText(num, before + s + after) == ParseText(num, s)
  {
    hide ParseToken;
    assert before + s + after == before + (s + after);
    SkipsSpace(before, s + after);
    ValueAppended(num, s, after);
    var p := ParseValue(num, s);
    if p.Parsed? {
      SkipSpaceAppended(p.rest, after);
    }
    hide SkipSpace;
    assert ParseValue(num, before + (s + after)) == ParseValue(num, s + after);
  }

  /** White space is these four characters and no other. */
  lemma {:induction false} SpaceExactly(num: Numbers, c: char)
    ensures ParseText(num, "null" + [c]).Some? <==> c == ' ' || c == '\t' || c == '\n' || c == '\r'
  {
    var s := "null" + [c];
    assert !JsonSpace(s[0]) && s[..4] == "null" && s[4..] == [c];
    assert ParseValue(num, s) == Parsed(JNull, [c]);
    assert [c][1..] == "";
    assert SkipSpace([c]) == if JsonSpace(c) then "" else [c];
  }

  // ── Members, escapes ──────────────────────────────────────────────────────

  lemma {:induction false} MembersReplaced(num: Numbers, s: string, f: Field<Js>, more: string, fs: seq<Field<Js>>,
                                           rest: string)
    requires ParseMember(num, s) == Parsed(f, more) && more != "" && more[0] == ','
    requires ParseMembers(num, more[1..]) == Parsed(fs, rest) && HasKey(fs, f.key)
    ensures ParseMembers(num, s) == Parsed(fs, rest)
  {
    hide ParseMember;
    assert SkipSpace(more) == more;
  }

  /** Of two members with one key the later one stands, and the earlier one leaves no trace. */
  lemma {:induction false} LaterMemberStands(num: Numbers, key: string, v: Canon, w: Canon, rest: string)
    requires Conforms(num) && !Lost(key)
    requires IsCanonical(v) && HeldCanon(num, v) && IsCanonical(w) && HeldCanon(num, w)
    ensures
      ParseMembers(num, MemberText(num, Field(key, v)) + ([','] + (MemberText(num, Field(key, w)) + (['}'] + rest))))
        == Parsed([Field(key, Embed(w))], rest)
  {
    hide ParseMember;
    hide ParseMembers;
    hide MemberText;
    hide Embed;
    hide IsCanonical;
    hide HeldCanon;
    hide Conforms;
    var close := ['}'] + rest;
    var second := MemberText(num, Field(key, w)) + close;
    var comma := [','] + second;
    assert close[1..] == rest && comma[1..] == second;
    ReadMember(num, Field(key, w), close);
    MembersStop(num, second, Field(key, Embed(w)), close);
    ReadMember(num, Field(key, v), comma);
    assert [Field(key, Embed(w))][0].key == key;
    MembersReplaced(num, MemberText(num, Field(key, v)) + comma, Field(key, Embed(v)), comma, [Field(key, Embed(w))],
                    rest);
  }

  function Hex4(u: nat): string
    requires u < 0x10000
  {
    [HexDigit(u / 4096), HexDigit(u / 256 % 16), HexDigit(u / 16 % 16), HexDigit(u % 16)]
  }

  lemma NibblesAdd(u: nat)
    ensures ((u / 4096 * 16 + u / 256 % 16) * 16 + u / 16 % 16) * 16 + u % 16 == u
  {
    assert u / 16 == u / 256 * 16 + u / 16 % 16;
    assert u / 256 == u / 4096 * 16 + u / 256 % 16;
  }

  lemma {:induction false} ReadHex4(u: nat, rest: string)
    requires u < 0x10000
    ensures ParseHex4(Hex4(u) + rest) == Parsed(u, rest)
  {
    hide RadixDigit;
    hide HexDigit;
    var a, b, c, d := HexDigit(u / 4096), HexDigit(u / 256 % 16), HexDigit(u / 16 % 16), HexDigit(u % 16);
    var s := [a, b, c, d] + rest;
    assert s[0] == a && s[1] == b && s[2] == c && s[3] == d && s[4..] == rest;
    NibblesAdd(u);
  }

  /** A character escaped by its code reads as itself: one unit, or the two surrogates of one beyond 0xFFFF. */
  lemma {:induction false} ReadCoded(c: char, rest: string)
    ensures c as int < 0x10000 ==> ParseCodeUnit(Hex4(c as int) + rest) == Parsed(c, rest)
    ensures c as int >= 0x10000 ==>
      var n := c as int - 0x10000;
      ParseCodeUnit(Hex4(0xD800 + n / 1024) + ([SLASH, 'u'] + (Hex4(0xDC00 + n % 1024) + rest))) == Parsed(c, rest)
  {
    hide ParseHex4;
    hide Hex4;
    if c as int < 0x10000 {
      ReadHex4(c as int, rest);
    } else {
      var n := c as int - 0x10000;
      var low := Hex4(0xDC00 + n % 1024) + rest;
      var tail := [SLASH, 'u'] + low;
      ReadHex4(0xD800 + n / 1024, tail);
      ReadHex4(0xDC00 + n % 1024, rest);
      assert StartsWith(tail, [SLASH, 'u']) && tail[2..] == low;
      assert n == n / 1024 * 1024 + n % 1024;
    }
  }

  /** The escapes of a single letter. */
  lemma {:induction false} ReadLetterEscapes(t: string)
    ensures ParseEscape([QUOTE] + t) == Parsed(QUOTE, t) && ParseEscape([SLASH] + t) == Parsed(SLASH, t)
    ensures ParseEscape(['/'] + t) == Parsed('/', t)
    ensures ParseEscape(['b'] + t) == Parsed(8 as char, t) && ParseEscape(['t'] + t) == Parsed(9 as char, t)
    ensures ParseEscape(['n'] + t) == Parsed(10 as char, t) && ParseEscape(['f'] + t) == Parsed(12 as char, t)
    ensures ParseEscape(['r'] + t) == Parsed(13 as char, t)
  {
    assert (['b'] + t)[1..] == t && (['t'] + t)[1..] == t && (['n'] + t)[1..] == t && (['f'] + t)[1..] == t;
    assert (['r'] + t)[1..] == t && (['/'] + t)[1..] == t && ([QUOTE] + t)[1..] == t && ([SLASH] + t)[1..] == t;
  }
}
