/**
 UTF-8 (RFC 3629) as a codec on byte sequences: the encoder, the strict decoder,
 and the proof that each is exactly the other's inverse.
 */
module Utf8 {
  import opened Prelude

  type byte = b: int | 0 <= b < 256

  function EncodeChar(c: char): (r: seq<byte>)
    ensures 1 <= |r| <= 4
  {
    var n := c as int;
    if n < 0x80 then [n]
    else if n < 0x800 then [0xC0 + n / 64, 0x80 + n % 64]
    else if n < 0x10000 then [0xE0 + n / 4096, 0x80 + n / 64 % 64, 0x80 + n % 64]
    else [0xF0 + n / 262144, 0x80 + n / 4096 % 64, 0x80 + n / 64 % 64, 0x80 + n % 64]
  }

  function Encode(s: string): seq<byte> {
    if s == "" then [] else EncodeChar(s[0]) + Encode(s[1..])
  }

  predicate Continues(b: byte) {
    0x80 <= b < 0xC0
  }

  /** How many bytes a sequence opened by this byte has; 0 where none can start. */
  function SequenceLength(lead: byte): (n: nat)
    ensures n <= 4
  {
    if lead < 0x80 then 1
    else if lead < 0xC0 then 0
    else if lead < 0xE0 then 2
    else if lead < 0xF0 then 3
    else if lead < 0xF8 then 4
    else 0
  }

  function Bits(b: byte, tag: int): int {
    (b as int) - tag
  }

  function CodePoint(bs: seq<byte>): int
    requires bs != [] && |bs| == SequenceLength(bs[0])
  {
    if |bs| == 1 then bs[0]
    else if |bs| == 2 then Bits(bs[0], 0xC0) * 64 + Bits(bs[1], 0x80)
    else if |bs| == 3 then Bits(bs[0], 0xE0) * 4096 + Bits(bs[1], 0x80) * 64 + Bits(bs[2], 0x80)
    else Bits(bs[0], 0xF0) * 262144 + Bits(bs[1], 0x80) * 4096 + Bits(bs[2], 0x80) * 64 + Bits(bs[3], 0x80)
  }

  /** The least code point that needs a sequence of this length: anything below is overlong. */
  function LeastPoint(length: nat): int {
    if length <= 1 then 0 else if length == 2 then 0x80 else if length == 3 then 0x800 else 0x10000
  }

  predicate Scalar(n: int) {
    0 <= n < 0xD800 || 0xE000 <= n < 0x110000
  }

  /** The first character and the bytes it takes, refusing every malformed, overlong or surrogate sequence. */
  function DecodeHead(bs: seq<byte>): (r: Option<(char, nat)>)
    requires bs != []
    ensures r.Some? ==> 1 <= r.value.1 <= |bs|
  {
    var n := SequenceLength(bs[0]);
    if n == 0 || n > |bs| || exists i :: 1 <= i < n && !Continues(bs[i]) then None
    else
      var point := CodePoint(bs[..n]);
      if point < LeastPoint(n) || !Scalar(point) then None else Some((point as char, n))
  }

  function Decode(bs: seq<byte>): Option<string> {
    if bs == [] then Some("")
    else
      var head := DecodeHead(bs);
      if head.None? then None
      else
        var rest := Decode(bs[head.value.1..]);
        if rest.None? then None else Some([head.value.0] + rest.value)
  }

  lemma {:induction false} HeadOfEncoded(c: char, more: seq<byte>)
    ensures DecodeHead(EncodeChar(c) + more) == Some((c, |EncodeChar(c)|))
  {
    var e := EncodeChar(c);
    var bs := e + more;
    assert bs[0] == e[0];
    assert SequenceLength(e[0]) == |e|;
    assert bs[..|e|] == e;
    assert forall i :: 1 <= i < |e| ==> Continues(bs[i]) && bs[i] == e[i];
    PointOfEncoded(c);
  }

  lemma {:induction false} PointOfEncoded(c: char)
    ensures SequenceLength(EncodeChar(c)[0]) == |EncodeChar(c)|
    ensures CodePoint(EncodeChar(c)) == c as int && Scalar(c as int) && c as int >= LeastPoint(|EncodeChar(c)|)
  {
    var n := c as int;
    assert n / 64 / 64 == n / 4096 && n / 4096 / 64 == n / 262144;
  }

  lemma Rebuild2(a: byte, b: byte)
    requires 0xC0 <= a < 0xE0 && Continues(b)
    ensures var point := CodePoint([a, b]); point >= 0x80 && Scalar(point) ==> EncodeChar(point as char) == [a, b]
  {
    Split64(Bits(a, 0xC0), Bits(b, 0x80));
  }

  lemma Rebuild3(a: byte, b: byte, c: byte)
    requires 0xE0 <= a < 0xF0 && Continues(b) && Continues(c)
    ensures var point := CodePoint([a, b, c]);
      point >= 0x800 && Scalar(point) ==> EncodeChar(point as char) == [a, b, c]
  {
    var high := Bits(a, 0xE0) * 64 + Bits(b, 0x80);
    Split64(high, Bits(c, 0x80));
    Split64(Bits(a, 0xE0), Bits(b, 0x80));
    assert CodePoint([a, b, c]) == high * 64 + Bits(c, 0x80);
  }

  lemma {:induction false} Rebuild4(a: byte, b: byte, c: byte, d: byte)
    requires 0xF0 <= a < 0xF8 && Continues(b) && Continues(c) && Continues(d)
    ensures var point := CodePoint([a, b, c, d]);
      point >= 0x10000 && Scalar(point) ==> EncodeChar(point as char) == [a, b, c, d]
  {
    var top := Bits(a, 0xF0) * 64 + Bits(b, 0x80);
    var high := top * 64 + Bits(c, 0x80);
    Split64(high, Bits(d, 0x80));
    Split64(top, Bits(c, 0x80));
    Split64(Bits(a, 0xF0), Bits(b, 0x80));
    assert CodePoint([a, b, c, d]) == high * 64 + Bits(d, 0x80);
  }

  /** Strictness: the bytes of an accepted character are the ones the encoder gives it. */
  lemma {:induction false} HeadIsEncoded(bs: seq<byte>)
    requires bs != [] && DecodeHead(bs).Some?
    ensures EncodeChar(DecodeHead(bs).value.0) == bs[..DecodeHead(bs).value.1]
  {
    hide EncodeChar;
    var n := SequenceLength(bs[0]);
    assert forall i :: 1 <= i < n ==> Continues(bs[i]);
    if n == 1 {
      SingleByte(bs[0]);
      assert bs[..1] == [bs[0]];
    } else if n == 2 {
      assert bs[..2] == [bs[0], bs[1]];
      Rebuild2(bs[0], bs[1]);
    } else if n == 3 {
      assert bs[..3] == [bs[0], bs[1], bs[2]];
      Rebuild3(bs[0], bs[1], bs[2]);
    } else {
      assert bs[..4] == [bs[0], bs[1], bs[2], bs[3]];
      Rebuild4(bs[0], bs[1], bs[2], bs[3]);
    }
  }

  lemma SingleByte(b: byte)
    requires b < 0x80
    ensures EncodeChar(b as int as char) == [b]
  {
  }

  lemma Split64(high: int, low: int)
    requires high >= 0 && 0 <= low < 64
    ensures (high * 64 + low) / 64 == high && (high * 64 + low) % 64 == low
  {
  }

  /** Decoding what was encoded gives the text back. */
  lemma {:induction false} DecodeEncode(s: string)
    ensures Decode(Encode(s)) == Some(s)
  {
    if s != "" {
      var e, more := EncodeChar(s[0]), Encode(s[1..]);
      HeadOfEncoded(s[0], more);
      assert (e + more)[|e|..] == more;
      DecodeEncode(s[1..]);
      assert s == [s[0]] + s[1..];
    }
  }

  /** A byte sequence that decodes at all is the encoding of what it decodes to. */
  lemma {:induction false} EncodeDecode(bs: seq<byte>)
    requires Decode(bs).Some?
    ensures Encode(Decode(bs).value) == bs
  {
    hide DecodeHead;
    hide EncodeChar;
    if bs != [] {
      var c, n := DecodeHead(bs).value.0, DecodeHead(bs).value.1;
      HeadIsEncoded(bs);
      EncodeDecode(bs[n..]);
      var t := Decode(bs[n..]).value;
      assert ([c] + t)[1..] == t;
      assert bs == bs[..n] + bs[n..];
    }
  }
}
