/**
 The attribution suffix on transaction calldata (schema 0 of ERC-8021): encoding
 a list of codes, reading them back, and appending them to hexadecimal text.
 */
module BuilderCode {
  import opened Prelude
  import opened Decimal
  import opened Utf8

  // ── Hexadecimal text ──────────────────────────────────────────────────────

  function HexBody(bs: seq<byte>): string {
    if bs == [] then "" else [HexDigit(bs[0] / 16), HexDigit(bs[0] % 16)] + HexBody(bs[1..])
  }

  const HEX_START: string := ['0', 'x']

  /** hexlify. */
  function Hexlify(bs: seq<byte>): string {
    HEX_START + HexBody(bs)
  }

  function ReadHex(s: string): Option<seq<byte>> {
    if s == "" then Some([])
    else if |s| == 1 || RadixDigit(s[0]) == 16 || RadixDigit(s[1]) == 16 then None
    else
      var rest := ReadHex(s[2..]);
      if rest.None? then None else Some([RadixDigit(s[0]) * 16 + RadixDigit(s[1])] + rest.value)
  }

  /** getBytes; None is its exception for text that is not whole bytes of hex. */
  function GetBytes(s: string): Option<seq<byte>> {
    if HEX_START <= s then ReadHex(s[2..]) else None
  }

  lemma {:induction false} ReadHexOfBody(bs: seq<byte>)
    ensures ReadHex(HexBody(bs)) == Some(bs)
  {
    if bs != [] {
      var s := HexBody(bs);
      ReadHexOfBody(bs[1..]);
      assert s[2..] == HexBody(bs[1..]);
      assert bs == [bs[0]] + bs[1..];
    }
  }

  lemma ReadHexPair(x: char, y: char, s: string)
    requires RadixDigit(x) < 16 && RadixDigit(y) < 16 && ReadHex(s).Some?
    ensures ReadHex([x, y] + s) == Some([RadixDigit(x) * 16 + RadixDigit(y)] + ReadHex(s).value)
  {
    assert ([x, y] + s)[2..] == s;
  }

  lemma ReadHexParts(s: string)
    requires s != "" && ReadHex(s).Some?
    ensures |s| >= 2 && RadixDigit(s[0]) < 16 && RadixDigit(s[1]) < 16 && ReadHex(s[2..]).Some?
    ensures s == [s[0], s[1]] + s[2..]
  {
    hide RadixDigit;
  }

  lemma Associate<T>(a: seq<T>, b: seq<T>, c: seq<T>)
    ensures a + b + c == a + (b + c)
  {
  }

  lemma {:induction false} ReadHexAppend(a: string, b: string)
    requires ReadHex(a).Some? && ReadHex(b).Some?
    ensures ReadHex(a + b) == Some(ReadHex(a).value + ReadHex(b).value)
  {
    if a == "" {
      assert a + b == b;
      assert ReadHex(a).value + ReadHex(b).value == ReadHex(b).value;
    } else {
      ReadHexParts(a);
      hide ReadHex;
      hide RadixDigit;
      var head, rest := [a[0], a[1]], a[2..];
      var first: byte := RadixDigit(a[0]) * 16 + RadixDigit(a[1]);
      ReadHexAppend(rest, b);
      ReadHexPair(a[0], a[1], rest);
      ReadHexPair(a[0], a[1], rest + b);
      Associate(head, rest, b);
      Associate([first], ReadHex(rest).value, ReadHex(b).value);
    }
  }

  // ── Codes ─────────────────────────────────────────────────────────────────

  function Join(codes: seq<string>): string {
    if codes == [] then ""
    else if |codes| == 1 then codes[0]
    else codes[0] + [','] + Join(codes[1..])
  }

  /** split(','): always at least one part. */
  function Split(s: string): (r: seq<string>)
    ensures r != []
  {
    if s == "" then [""]
    else
      var rest := Split(s[1..]);
      if s[0] == ',' then [""] + rest else [[s[0]] + rest[0]] + rest[1..]
  }

  function NonEmpty(codes: seq<string>): seq<string> {
    if codes == [] then []
    else if codes[0] == "" then NonEmpty(codes[1..])
    else [codes[0]] + NonEmpty(codes[1..])
  }

  function TrimAll(codes: seq<string>): seq<string> {
    if codes == [] then [] else [Trim(codes[0])] + TrimAll(codes[1..])
  }

  /** The codes that count: trimmed, and not empty after that. */
  function Present(codes: seq<string>): seq<string> {
    NonEmpty(TrimAll(codes))
  }

  predicate CommaFree(codes: seq<string>) {
    forall i :: 0 <= i < |codes| ==> ',' !in codes[i]
  }

  lemma {:induction false} SplitWord(w: string)
    requires ',' !in w
    ensures Split(w) == [w]
  {
    if w != "" {
      SplitWord(w[1..]);
      assert w == [w[0]] + w[1..];
    }
  }

  lemma {:induction false} SplitFirst(w: string, s: string)
    requires ',' !in w
    ensures Split(w + [','] + s) == [w] + Split(s)
  {
    if w == "" {
      assert w + [','] + s == [','] + s && ([','] + s)[1..] == s;
    } else {
      SplitFirst(w[1..], s);
      assert (w + [','] + s)[1..] == w[1..] + [','] + s;
      assert w == [w[0]] + w[1..];
    }
  }

  /** Splitting undoes joining when no code holds the separator. */
  lemma {:induction false} SplitJoin(codes: seq<string>)
    requires codes != [] && CommaFree(codes)
    ensures Split(Join(codes)) == codes
  {
    if |codes| == 1 {
      SplitWord(codes[0]);
    } else {
      SplitFirst(codes[0], Join(codes[1..]));
      SplitJoin(codes[1..]);
      assert codes == [codes[0]] + codes[1..];
    }
  }

  lemma {:induction false} NonEmptyShape(codes: seq<string>)
    ensures forall i :: 0 <= i < |NonEmpty(codes)| ==> NonEmpty(codes)[i] != ""
    ensures NonEmpty(NonEmpty(codes)) == NonEmpty(codes)
  {
    if codes != [] {
      NonEmptyShape(codes[1..]);
      if codes[0] != "" {
        assert ([codes[0]] + NonEmpty(codes[1..]))[1..] == NonEmpty(codes[1..]);
      }
    }
  }

  // ── The suffix ────────────────────────────────────────────────────────────

  const MARKER: seq<byte> :=
    [0x80, 0x21, 0x80, 0x21, 0x80, 0x21, 0x80, 0x21, 0x80, 0x21, 0x80, 0x21, 0x80, 0x21, 0x80, 0x21]

  const SCHEMA_BASIC: byte := 0
  const MAX_CODES_BYTES := 255

  /** Codes, their length, the schema and the marker: laid out to be read from the end. */
  function Tail(body: seq<byte>, schema: byte): seq<byte>
    requires |body| <= MAX_CODES_BYTES
  {
    body + [|body|, schema] + MARKER
  }

  datatype SuffixError = CommaInCode | TooManyBytes

  /** encodeBuilderCodeSuffix. */
  function EncodeSuffix(codes: seq<string>): Result<string, SuffixError> {
    var present := Present(codes);
    if present == [] then Ok(HEX_START)
    else if !CommaFree(present) then Err(CommaInCode)
    else
      var body := Utf8.Encode(Join(present));
      if |body| > MAX_CODES_BYTES then Err(TooManyBytes) else Ok(Hexlify(Tail(body, SCHEMA_BASIC)))
  }

  datatype Attribution = Attribution(codes: seq<string>, schemaId: byte)

  function DecodeBytes(bytes: seq<byte>): Option<Attribution> {
    var n := |bytes| - |MARKER|;
    if n < 2 || bytes[n..] != MARKER then None
    else
      var codesEnd := n - 2;
      var codesStart := codesEnd - bytes[n - 2];
      if codesStart < 0 then None
      else
        var text := Utf8.Decode(bytes[codesStart..codesEnd]);
        if text.None? then None else Some(Attribution(NonEmpty(Split(text.value)), bytes[n - 1]))
  }

  /** decodeBuilderCodeSuffix; None is its null. */
  function DecodeSuffix(calldata: string): Option<Attribution> {
    var bytes := GetBytes(calldata);
    if bytes.None? then None else DecodeBytes(bytes.value)
  }

  /** appendDataSuffix. */
  function AppendSuffix(calldata: string, suffix: string): string {
    if suffix == "" || suffix == HEX_START then calldata
    else calldata + (if HEX_START <= suffix then suffix[2..] else suffix)
  }

  // ── Reading from the end ──────────────────────────────────────────────────

  lemma TailParts(prefix: seq<byte>, body: seq<byte>, length: byte, schema: byte, marker: seq<byte>)
    ensures
      var bytes := prefix + (body + [length, schema] + marker);
      var n := |prefix| + |body| + 2;
      && |bytes| == n + |marker| && bytes[n..] == marker
      && bytes[n - 2] == length && bytes[n - 1] == schema && bytes[|prefix|..n - 2] == body
  {
  }

  lemma {:induction false} DecodeTail(prefix: seq<byte>, body: seq<byte>, schema: byte)
    requires |body| <= MAX_CODES_BYTES && Utf8.Decode(body).Some?
    ensures DecodeBytes(prefix + Tail(body, schema)) ==
      Some(Attribution(NonEmpty(Split(Utf8.Decode(body).value)), schema))
  {
    hide Utf8.Decode;
    hide NonEmpty;
    hide Split;
    TailParts(prefix, body, |body|, schema, MARKER);
    var n := |prefix| + |body| + 2;
    DecodeParts(prefix + Tail(body, schema), n, |prefix|);
  }

  lemma DecodeParts(bytes: seq<byte>, n: nat, start: nat)
    requires |bytes| == n + |MARKER| && n >= 2 && bytes[n..] == MARKER && start == n - 2 - bytes[n - 2]
    requires Utf8.Decode(bytes[start..n - 2]).Some?
    ensures DecodeBytes(bytes) ==
      Some(Attribution(NonEmpty(Split(Utf8.Decode(bytes[start..n - 2]).value)), bytes[n - 1]))
  {
    hide Utf8.Decode;
    hide NonEmpty;
    hide Split;
  }

  /** Exactly the byte strings that end in a whole suffix are read as one, and as that one. */
  lemma DecodeBytesExactly(bytes: seq<byte>, d: Attribution)
    ensures DecodeBytes(bytes) == Some(d) <==> exists prefix, text :: EndsIn(bytes, prefix, text, d)
  {
    if DecodeBytes(bytes) == Some(d) {
      TailOfDecoded(bytes, d);
    }
    forall prefix, text | EndsIn(bytes, prefix, text, d)
      ensures DecodeBytes(bytes) == Some(d)
    {
      DecodeEncode(text);
      DecodeTail(prefix, Utf8.Encode(text), d.schemaId);
    }
  }

  predicate EndsIn(bytes: seq<byte>, prefix: seq<byte>, text: string, d: Attribution) {
    && |Utf8.Encode(text)| <= MAX_CODES_BYTES
    && bytes == prefix + Tail(Utf8.Encode(text), d.schemaId)
    && d.codes == NonEmpty(Split(text))
  }

  lemma TailOfDecoded(bytes: seq<byte>, d: Attribution)
    requires DecodeBytes(bytes) == Some(d)
    ensures exists prefix, text :: EndsIn(bytes, prefix, text, d)
  {
    hide Utf8.Decode;
    var n := |bytes| - |MARKER|;
    var start := n - 2 - bytes[n - 2];
    var prefix, body := bytes[..start], bytes[start..n - 2];
    var text := Utf8.Decode(body).value;
    EncodeDecode(body);
    assert bytes == prefix + Tail(body, bytes[n - 1]);
    assert EndsIn(bytes, prefix, text, d);
  }

  // ── The round trip through hexadecimal text ───────────────────────────────

  lemma HexTail(tail: seq<byte>)
    requires tail != []
    ensures Hexlify(tail) != HEX_START && HEX_START <= Hexlify(tail) && Hexlify(tail)[2..] == HexBody(tail)
  {
    assert |HexBody(tail)| >= 2;
  }

  lemma ReadBehindStart(calldata: string, body: string)
    requires HEX_START <= calldata
    ensures HEX_START <= calldata + body && (calldata + body)[2..] == calldata[2..] + body
  {
  }

  lemma AppendedBytes(calldata: string, tail: seq<byte>)
    requires GetBytes(calldata).Some? && tail != []
    ensures
      var appended := AppendSuffix(calldata, Hexlify(tail));
      calldata <= appended && GetBytes(appended) == Some(GetBytes(calldata).value + tail)
  {
    hide ReadHex;
    hide HexBody;
    hide Hexlify;
    HexTail(tail);
    ReadHexOfBody(tail);
    ReadHexAppend(calldata[2..], HexBody(tail));
    ReadBehindStart(calldata, HexBody(tail));
  }

  /**
   For any calldata and any list that encodes, the appended calldata reads back as
   exactly the trimmed non-empty codes under schema 0, and starts with the
   calldata unchanged.
   */
  lemma RoundTrip(calldata: string, codes: seq<string>)
    requires GetBytes(calldata).Some? && EncodeSuffix(codes).Ok? && Present(codes) != []
    ensures
      var appended := AppendSuffix(calldata, EncodeSuffix(codes).value);
      && calldata <= appended
      && DecodeSuffix(appended) == Some(Attribution(Present(codes), SCHEMA_BASIC))
      && GetBytes(appended).Some? && GetBytes(calldata).value <= GetBytes(appended).value
  {
    hide GetBytes;
    hide DecodeBytes;
    hide AppendSuffix;
    var present := Present(codes);
    var body := Utf8.Encode(Join(present));
    DecodeEncode(Join(present));
    SplitJoin(present);
    NonEmptyShape(TrimAll(codes));
    AppendedBytes(calldata, Tail(body, SCHEMA_BASIC));
    DecodeTail(GetBytes(calldata).value, body, SCHEMA_BASIC);
  }

  /** With no code present the calldata is left exactly as it was. */
  lemma NothingToAttribute(calldata: string, codes: seq<string>)
    requires Present(codes) == []
    ensures EncodeSuffix(codes).Ok? && AppendSuffix(calldata, EncodeSuffix(codes).value) == calldata
  {
  }

  /** A refused list is one that could not be read back: a comma would split a code, or the length would not fit. */
  lemma RefusedExactly(codes: seq<string>)
    ensures EncodeSuffix(codes).Err? <==>
      Present(codes) != []
      && (Split(Join(Present(codes))) != Present(codes) || |Utf8.Encode(Join(Present(codes)))| > MAX_CODES_BYTES)
  {
    var present := Present(codes);
    if present != [] {
      if CommaFree(present) {
        SplitJoin(present);
      } else {
        SplitCommaFree(Join(present));
      }
    }
  }

  lemma {:induction false} SplitCommaFree(s: string)
    ensures CommaFree(Split(s))
  {
    if s != "" {
      SplitCommaFree(s[1..]);
      var rest := Split(s[1..]);
      if s[0] != ',' {
        var r := [[s[0]] + rest[0]] + rest[1..];
        assert forall i :: 1 <= i < |r| ==> r[i] == rest[i];
      }
    }
  }

  // ── The configured suffix ─────────────────────────────────────────────────

  /** What the environment's code comes to: a bad one is no attribution, never a failure. */
  function SuffixOf(code: Option<string>): string {
    if code.None? || Trim(code.value) == "" then HEX_START
    else
      var r := EncodeSuffix([Trim(code.value)]);
      if r.Ok? then r.value else HEX_START
  }

  /** The module variable that remembers the first answer. */
  class Configured {
    var cachedSuffix: Option<string>

    constructor ()
      ensures cachedSuffix == None
    {
      cachedSuffix := None;
    }

    /** Read once: later changes of the environment are not seen until the cache is reset. */
    method Suffix(code: Option<string>) returns (suffix: string)
      modifies this
      ensures suffix == if old(cachedSuffix).Some? then old(cachedSuffix).value else SuffixOf(code)
      ensures cachedSuffix == Some(suffix)
    {
      if cachedSuffix.Some? {
        return cachedSuffix.value;
      }
      if code.None? || Trim(code.value) == "" {
        cachedSuffix := Some(HEX_START);
        return HEX_START;
      }
      var encoded := EncodeSuffix([Trim(code.value)]);
      suffix := if encoded.Ok? then encoded.value else HEX_START;
      cachedSuffix := Some(suffix);
    }

    method Reset()
      modifies this
      ensures cachedSuffix == None
    {
      cachedSuffix := None;
    }
  }

  /** The configured suffix never disturbs a transaction: what it is appended to stays whole and in front. */
  lemma ConfiguredIsHarmless(calldata: string, code: Option<string>)
    requires GetBytes(calldata).Some?
    ensures
      var appended := AppendSuffix(calldata, SuffixOf(code));
      calldata <= appended && GetBytes(appended).Some? && GetBytes(calldata).value <= GetBytes(appended).value
  {
    if code.Some? && Trim(code.value) != "" {
      var codes := [Trim(code.value)];
      if EncodeSuffix(codes).Ok? {
        if Present(codes) == [] {
          NothingToAttribute(calldata, codes);
        } else {
          RoundTrip(calldata, codes);
        }
      }
    }
  }

  // ── The layout ────────────────────────────────────────────────────────────

  /** 0x8021 eight times over. */
  predicate EndsInMarker(bs: seq<byte>, n: nat)
    requires n + 16 <= |bs|
  {
    forall i :: 0 <= i < 8 ==> bs[n + 2 * i] == 0x80 && bs[n + 2 * i + 1] == 0x21
  }

  lemma {:induction false} MarkerRepeats(front: seq<byte>)
    ensures EndsInMarker(front + MARKER, |front|)
  {
    var bs := front + MARKER;
    forall i | 0 <= i < 8
      ensures bs[|front| + 2 * i] == 0x80 && bs[|front| + 2 * i + 1] == 0x21
    {
      assert bs[|front| + 2 * i] == MARKER[2 * i] && bs[|front| + 2 * i + 1] == MARKER[2 * i + 1];
    }
  }

  /**
   Byte by byte: the joined codes in UTF-8, then how many bytes they are, then the
   schema number zero, then the marker, and nothing more.
   */
  lemma {:induction false} SuffixLayout(codes: seq<string>)
    requires EncodeSuffix(codes).Ok? && Present(codes) != []
    ensures GetBytes(EncodeSuffix(codes).value).Some?
    ensures
      var bs := GetBytes(EncodeSuffix(codes).value).value;
      var text := Utf8.Encode(Join(Present(codes)));
      var n := |text|;
      && |bs| == n + 18 && bs[..n] == text && n <= 255
      && bs[n] == n && bs[n + 1] == 0 && EndsInMarker(bs, n + 2)
  {
    hide Utf8.Encode;
    hide Present;
    hide Join;
    var text := Utf8.Encode(Join(Present(codes)));
    var front := text + [|text| as byte, 0 as byte];
    var bs := front + MARKER;
    assert Tail(text, SCHEMA_BASIC) == bs;
    ReadHexOfBody(bs);
    assert (HEX_START + HexBody(bs))[2..] == HexBody(bs);
    MarkerRepeats(front);
  }
}
