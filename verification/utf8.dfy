/** UTF-8 as the two halves use it: the client encodes its command text
    with Python's `str.encode("utf-8")`, the server turns the received bytes
    back into text with Rust's `String::from_utf8_lossy`, which replaces each
    maximal ill-formed subpart by one U+FFFD. */
module Utf8 {
  import opened Bytes

  const REPLACEMENT: char := '\U{FFFD}'

  /** The encoding of one scalar value: 1 to 4 bytes, the value's base-64
      digits under the lead and continuation markers. */
  function EncodeChar(c: char): (bs: seq<byte>)
    ensures 1 <= |bs| <= 4
    ensures (c as int < 0x80) <==> |bs| == 1
  {
    var v := c as int;
    var q1 := v / 64;
    var q2 := q1 / 64;
    if v < 0x80 then [v]
    else if v < 0x800 then [0xC0 + q1, 0x80 + v % 64]
    else if v < 0x1_0000 then [0xE0 + q2, 0x80 + q1 % 64, 0x80 + v % 64]
    else [0xF0 + q2 / 64, 0x80 + q2 % 64, 0x80 + q1 % 64, 0x80 + v % 64]
  }

  function Encode(s: string): seq<byte>
  {
    if |s| == 0 then [] else EncodeChar(s[0]) + Encode(s[1..])
  }

  /** `bs[i]` exists and is a continuation byte in `lo..hi`. */
  predicate InRange(bs: seq<byte>, i: nat, lo: byte, hi: byte)
  {
    i < |bs| && lo <= bs[i] <= hi
  }

  predicate Continuation(bs: seq<byte>, i: nat)
  {
    InRange(bs, i, 0x80, 0xBF)
  }

  /** The scalar value spelt by a well-formed 2-, 3- or 4-byte sequence. */
  function Value2(b0: byte, b1: byte): int { (b0 - 0xC0) * 64 + (b1 - 0x80) }
  function Value3(b0: byte, b1: byte, b2: byte): int { (b0 - 0xE0) * 4096 + (b1 - 0x80) * 64 + (b2 - 0x80) }
  function Value4(b0: byte, b1: byte, b2: byte, b3: byte): int
  {
    (b0 - 0xF0) * 262144 + (b1 - 0x80) * 4096 + (b2 - 0x80) * 64 + (b3 - 0x80)
  }

  /** The first character `from_utf8_lossy` produces for `bs`, and how many
      bytes it consumes. A lead byte whose continuation does not follow
      yields U+FFFD for the lead byte and every continuation byte that did
      fit; a byte that cannot start a sequence yields U+FFFD alone. */
  function DecodeOne(bs: seq<byte>): (r: (char, nat))
    requires |bs| > 0
    ensures 1 <= r.1 <= |bs| && r.1 <= 4
  {
    var b0 := bs[0];
    if b0 < 0x80 then (b0 as char, 1)
    else if 0xC2 <= b0 <= 0xDF then
      if Continuation(bs, 1) then (Value2(b0, bs[1]) as char, 2) else (REPLACEMENT, 1)
    else if 0xE0 <= b0 <= 0xEF then
      var lo: byte := if b0 == 0xE0 then 0xA0 else 0x80;
      var hi: byte := if b0 == 0xED then 0x9F else 0xBF;
      if !InRange(bs, 1, lo, hi) then (REPLACEMENT, 1)
      else if !Continuation(bs, 2) then (REPLACEMENT, 2)
      else (Value3(b0, bs[1], bs[2]) as char, 3)
    else if 0xF0 <= b0 <= 0xF4 then
      var lo: byte := if b0 == 0xF0 then 0x90 else 0x80;
      var hi: byte := if b0 == 0xF4 then 0x8F else 0xBF;
      if !InRange(bs, 1, lo, hi) then (REPLACEMENT, 1)
      else if !Continuation(bs, 2) then (REPLACEMENT, 2)
      else if !Continuation(bs, 3) then (REPLACEMENT, 3)
      else (Value4(b0, bs[1], bs[2], bs[3]) as char, 4)
    else (REPLACEMENT, 1)
  }

  /** Rust's `String::from_utf8_lossy`. */
  function DecodeLossy(bs: seq<byte>): string
    decreases |bs|
  {
    if |bs| == 0 then []
    else
      var (c, n) := DecodeOne(bs);
      [c] + DecodeLossy(bs[n..])
  }

  lemma DecodeTwo(c: char, rest: seq<byte>)
    requires 0x80 <= c as int < 0x800
    ensures DecodeOne(EncodeChar(c) + rest) == (c, 2)
  {
    var v := c as int;
    assert v == (v / 64) * 64 + v % 64;
  }

  lemma DecodeThree(c: char, rest: seq<byte>)
    requires 0x800 <= c as int < 0x1_0000
    ensures DecodeOne(EncodeChar(c) + rest) == (c, 3)
  {
    var v := c as int;
    var q1 := v / 64;
    var q2 := q1 / 64;
    var bs := EncodeChar(c) + rest;
    assert v == q1 * 64 + v % 64;
    assert q1 == q2 * 64 + q1 % 64;
    assert q2 == 0 ==> q1 % 64 >= 32;
    assert q2 == 13 ==> q1 % 64 < 32;
    assert bs[0] == 0xE0 + q2 && bs[1] == 0x80 + q1 % 64 && bs[2] == 0x80 + v % 64;
  }

  lemma DecodeFour(c: char, rest: seq<byte>)
    requires 0x1_0000 <= c as int
    ensures DecodeOne(EncodeChar(c) + rest) == (c, 4)
  {
    var v := c as int;
    var q1 := v / 64;
    var q2 := q1 / 64;
    var q3 := q2 / 64;
    var bs := EncodeChar(c) + rest;
    assert v == q1 * 64 + v % 64;
    assert q1 == q2 * 64 + q1 % 64;
    assert q2 == q3 * 64 + q2 % 64;
    assert q3 == 0 ==> q2 % 64 >= 16;
    assert q3 == 4 ==> q2 % 64 < 16;
    assert bs[0] == 0xF0 + q3 && bs[1] == 0x80 + q2 % 64 && bs[2] == 0x80 + q1 % 64 && bs[3] == 0x80 + v % 64;
  }

  /** Decoding the encoding of a character gives that character back and
      consumes exactly its bytes, whatever follows. */
  lemma DecodeEncodeChar(c: char, rest: seq<byte>)
    ensures DecodeOne(EncodeChar(c) + rest) == (c, |EncodeChar(c)|)
  {
    var v := c as int;
    if v < 0x80 {
    } else if v < 0x800 {
      DecodeTwo(c, rest);
    } else if v < 0x1_0000 {
      DecodeThree(c, rest);
    } else {
      DecodeFour(c, rest);
    }
  }

  /** Text encoded by the client is decoded by the server to the same text. */
  lemma {:induction false} DecodeEncode(s: string)
    ensures DecodeLossy(Encode(s)) == s
  {
    if |s| > 0 {
      var e := EncodeChar(s[0]);
      DecodeEncodeChar(s[0], Encode(s[1..]));
      assert (e + Encode(s[1..]))[|e|..] == Encode(s[1..]);
      DecodeEncode(s[1..]);
      assert [s[0]] + s[1..] == s;
    }
  }

  /** Each character takes at most four bytes. */
  lemma {:induction false} EncodeLength(s: string)
    ensures |Encode(s)| <= 4 * |s|
  {
    if |s| > 0 {
      EncodeLength(s[1..]);
    }
  }
}
