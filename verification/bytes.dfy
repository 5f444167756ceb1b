/** Bytes on the wire and the 4-byte big-endian length prefix that both
    the server and the client put in front of every message. */
module Bytes {

  type byte = x: int | 0 <= x < 256

  /** One more than the largest `u32`. */
  const U32_LIMIT: nat := 0x1_0000_0000

  /** How many bytes a read takes: the least of what was asked, what the
      buffer holds and what is waiting. */
  function Min(a: nat, b: nat): nat { if a <= b then a else b }

  /** Python's `int.from_bytes(bs, "big", signed=False)`; on exactly four
      bytes also Rust's `u32::from_be_bytes`. */
  function BigEndian(bs: seq<byte>): nat
  {
    if |bs| == 0 then 0 else BigEndian(bs[..|bs| - 1]) * 256 + bs[|bs| - 1]
  }

  /** Rust's `n.to_be_bytes()` for a `u32` and Python's `struct.pack(">I", n)`:
      the base-256 digits of `n`, most significant first. */
  function U32Be(n: nat): (bs: seq<byte>)
    requires n < U32_LIMIT
    ensures |bs| == 4
  {
    var q1 := n / 256;
    var q2 := q1 / 256;
    [q2 / 256, q2 % 256, q1 % 256, n % 256]
  }

  lemma BigEndianOfFour(bs: seq<byte>)
    requires |bs| == 4
    ensures BigEndian(bs) == ((bs[0] as int * 256 + bs[1]) * 256 + bs[2]) * 256 + bs[3]
  {
    var b1, b2, b3 := bs[..1], bs[..2], bs[..3];
    assert b3[..2] == b2 && b2[..1] == b1 && b1[..0] == [];
    assert BigEndian(b1) == bs[0];
    assert BigEndian(b2) == bs[0] as int * 256 + bs[1];
    assert BigEndian(b3) == BigEndian(b2) * 256 + bs[2];
    assert bs[..4] == bs;
  }

  /** One base-256 digit step: `q * 256 + r` with a digit `r` divides back
      to `q` and leaves `r`. */
  lemma DigitStep(q: nat, r: nat)
    requires r < 256
    ensures (q * 256 + r) / 256 == q && (q * 256 + r) % 256 == r
  {
  }

  /** Reading back the four bytes written for `n` gives `n`. */
  lemma U32BeRoundTrip(n: nat)
    requires n < U32_LIMIT
    ensures BigEndian(U32Be(n)) == n
  {
    var q1 := n / 256;
    var q2 := q1 / 256;
    BigEndianOfFour(U32Be(n));
    assert q2 == (q2 / 256) * 256 + q2 % 256;
    assert q1 == q2 * 256 + q1 % 256;
    assert n == q1 * 256 + n % 256;
  }

  /** Any four bytes are the encoding of the value they spell, so the
      length prefix is a bijection between `u32` values and 4-byte strings. */
  lemma BigEndianRoundTrip(bs: seq<byte>)
    requires |bs| == 4
    ensures BigEndian(bs) < U32_LIMIT
    ensures U32Be(BigEndian(bs)) == bs
  {
    BigEndianOfFour(bs);
    var x2 := bs[0] as int * 256 + bs[1];
    var x1 := x2 * 256 + bs[2];
    var v := x1 * 256 + bs[3];
    assert x2 < 256 * 256;
    assert x1 < 256 * 256 * 256;
    DigitStep(x1, bs[3]);
    DigitStep(x2, bs[2]);
    DigitStep(bs[0], bs[1]);
  }

  /** A frame: the payload length as a 4-byte big-endian prefix, then the
      payload. */
  function Frame(p: seq<byte>): (f: seq<byte>)
    requires |p| < U32_LIMIT
    ensures |f| == 4 + |p|
    ensures BigEndian(f[..4]) == |p| && f[4..] == p
  {
    U32BeRoundTrip(|p|);
    assert (U32Be(|p|) + p)[..4] == U32Be(|p|);
    U32Be(|p|) + p
  }

  /** Every payload is small enough to be framed. */
  ghost predicate Frameable(ps: seq<seq<byte>>)
  {
    forall i :: 0 <= i < |ps| ==> |ps[i]| < U32_LIMIT
  }

  /** The frames of `ps`, one after another. */
  function Frames(ps: seq<seq<byte>>): seq<byte>
    requires Frameable(ps)
  {
    if |ps| == 0 then [] else Frame(ps[0]) + Frames(ps[1..])
  }

  /** Zero bytes, used for the part of a fixed buffer a short read leaves untouched. */
  function Zeros(n: nat): (z: seq<byte>)
    ensures |z| == n && forall i :: 0 <= i < n ==> z[i] == 0
  {
    seq(n, _ => 0)
  }
}
