/** The server's half of the framing: `send_image` writes a frame, and the
    first part of `read_command` reads one. The pipe is the bytes the client
    has written that the server has not read yet, plus the script of answers
    the operating system gives to the server's successive `read` calls. */
module ServerWire {
  import opened Bytes

  /** `BUFFER_SIZE`: the most one payload read asks for. */
  const BUFFER_SIZE: nat := 4096

  /** `send_image`: the payload length cast `as u32` (so only its low 32 bits
      survive), big-endian, then the payload. */
  function SendImage(img: seq<byte>): (out: seq<byte>)
    ensures |out| == 4 + |img| && out[4..] == img
    ensures BigEndian(out[..4]) == |img| % U32_LIMIT
    ensures |img| < U32_LIMIT ==> out == Frame(img)
  {
    U32BeRoundTrip(|img| % U32_LIMIT);
    assert (U32Be(|img| % U32_LIMIT) + img)[..4] == U32Be(|img| % U32_LIMIT);
    U32Be(|img| % U32_LIMIT) + img
  }

  /** What one `stream.read(&mut buf)` returns: up to `limit` bytes (never
      more than the buffer holds, never more than has been written), or an
      I/O error. */
  datatype Reply = Deliver(limit: nat) | IoError

  datatype Inbound = Inbound(data: seq<byte>, replies: seq<Reply>)

  /** How far `read_command` gets before it dispatches: the header read
      returned nothing (`Idle`), a read failed (`Failed`, the `?`), the script
      ran out while the loop still wanted bytes (`Blocked`), or the loop
      ended with `data`. */
  datatype Receive = Idle | Failed | Blocked | Received(data: seq<byte>)

  datatype ReceiveRun = ReceiveRun(result: Receive, rest: Inbound)

  /** The accumulation loop of `read_command`: while fewer than `msgSize`
      bytes have arrived, read into the 4096-byte buffer and append what came. */
  function ReadPayload(inb: Inbound, msgSize: nat, data: seq<byte>): (r: ReceiveRun)
    ensures r.result.Received? ==>
              && msgSize <= |r.result.data|
              && (|data| < msgSize ==> |r.result.data| < msgSize + BUFFER_SIZE)
              && (|data| >= msgSize ==> r.result.data == data)
              && data + inb.data == r.result.data + r.rest.data
    ensures r.result.Received? || r.result.Failed? || r.result.Blocked?
    ensures |r.rest.replies| <= |inb.replies|
    decreases |inb.replies|
  {
    if |data| >= msgSize then ReceiveRun(Received(data), inb)
    else if |inb.replies| == 0 then ReceiveRun(Blocked, inb)
    else match inb.replies[0]
      case IoError => ReceiveRun(Failed, Inbound(inb.data, inb.replies[1..]))
      case Deliver(limit) =>
        var k := Min(Min(BUFFER_SIZE, limit), |inb.data|);
        assert inb.data == inb.data[..k] + inb.data[k..];
        ReadPayload(Inbound(inb.data[k..], inb.replies[1..]), msgSize, data + inb.data[..k])
  }

  /** The declared size: the bytes the header read returned, padded with the
      zeros still in the 4-byte buffer, read as a big-endian `u32`. */
  function HeaderValue(got: seq<byte>): nat
    requires |got| <= 4
  {
    BigEndian(got + Zeros(4 - |got|))
  }

  /** The header read took `h` bytes, at least one; at least the size they
      declare followed, and less than one buffer more; header and data are,
      in order, the front of the pipe. */
  ghost predicate ReceivedAfterHeader(inb: Inbound, h: nat, r: ReceiveRun)
    requires r.result.Received?
  {
    && 0 < h <= 4 && h <= |inb.data|
    && HeaderValue(inb.data[..h]) <= |r.result.data| < HeaderValue(inb.data[..h]) + BUFFER_SIZE + 1
    && inb.data == inb.data[..h] + r.result.data + r.rest.data
  }

  /** `read_command` up to the decoding of the text: read at most 4 header
      bytes; if none came, stop; otherwise loop until at least the declared
      size has arrived. */
  function ReceiveCommand(inb: Inbound): (r: ReceiveRun)
    ensures r.result.Idle? <==> |inb.replies| > 0 && inb.replies[0].Deliver? && Min(Min(4, inb.replies[0].limit), |inb.data|) == 0
    ensures r.result.Received? ==>
              && |inb.replies| > 0 && inb.replies[0].Deliver?
              && ReceivedAfterHeader(inb, Min(Min(4, inb.replies[0].limit), |inb.data|), r)
  {
    if |inb.replies| == 0 then ReceiveRun(Blocked, inb)
    else match inb.replies[0]
      case IoError => ReceiveRun(Failed, Inbound(inb.data, inb.replies[1..]))
      case Deliver(limit) =>
        var h := Min(Min(4, limit), |inb.data|);
        if h == 0 then ReceiveRun(Idle, Inbound(inb.data, inb.replies[1..]))
        else
          var r := ReadPayload(Inbound(inb.data[h..], inb.replies[1..]), HeaderValue(inb.data[..h]), []);
          PayloadAfterHeader(inb, h);
          r
  }

  /** The payload loop started after an `h`-byte header ends, when it
      receives, as `ReceivedAfterHeader` says. */
  lemma PayloadAfterHeader(inb: Inbound, h: nat)
    requires 0 < h <= 4 && h <= |inb.data| && |inb.replies| > 0
    ensures var r := ReadPayload(Inbound(inb.data[h..], inb.replies[1..]), HeaderValue(inb.data[..h]), []);
            r.result.Received? ==> ReceivedAfterHeader(inb, h, r)
  {
    var r := ReadPayload(Inbound(inb.data[h..], inb.replies[1..]), HeaderValue(inb.data[..h]), []);
    if r.result.Received? {
      assert inb.data == inb.data[..h] + inb.data[h..];
      assert [] + inb.data[h..] == inb.data[h..];
    }
  }

  /** Every read delivers at least `floor` bytes when asked for them. */
  ghost predicate Generous(replies: seq<Reply>, floor: nat)
  {
    forall i :: 0 <= i < |replies| ==> replies[i].Deliver? && replies[i].limit >= floor
  }

  lemma {:induction false} PayloadOfFrame(p: seq<byte>, inb: Inbound, data: seq<byte>)
    requires data + inb.data == p
    requires Generous(inb.replies, 1)
    requires |inb.replies| >= |inb.data|
    ensures ReadPayload(inb, |p|, data).result == Received(p)
    ensures ReadPayload(inb, |p|, data).rest.data == []
    decreases |inb.replies|
  {
    if |data| >= |p| {
      assert inb.data == [];
    } else {
      var k := Min(Min(BUFFER_SIZE, inb.replies[0].limit), |inb.data|);
      var next := Inbound(inb.data[k..], inb.replies[1..]);
      assert k >= 1;
      assert (data + inb.data[..k]) + next.data == p by {
        assert inb.data == inb.data[..k] + inb.data[k..];
      }
      PayloadOfFrame(p, next, data + inb.data[..k]);
    }
  }

  /** When the client's frame is all there is in the pipe, the header
      arrives whole and every read delivers something, the server
      reassembles exactly the payload, however the reads split it. */
  lemma ReceiveWholeFrame(p: seq<byte>, replies: seq<Reply>)
    requires |p| < U32_LIMIT
    requires Generous(replies, 4)
    requires |replies| > |p|
    ensures ReceiveCommand(Inbound(Frame(p), replies)).result == Received(p)
  {
    var f := Frame(p);
    assert f[..4] + Zeros(0) == f[..4];
    PayloadOfFrame(p, Inbound(f[4..], replies[1..]), []);
  }

  /** Reads are not capped at what is left of the message: a client frame
      followed at once by another is read past its end, so the data handed on
      is longer than the declared size and holds the start of the next frame. */
  lemma ReadPastFrameEnd()
    ensures var p: seq<byte> := [0x61];
            var q: seq<byte> := [0x62];
            ReceiveCommand(Inbound(Frame(p) + Frame(q), [Deliver(4), Deliver(BUFFER_SIZE)])).result
              == Received(p + Frame(q))
  {
    var p: seq<byte> := [0x61];
    var q: seq<byte> := [0x62];
    var s := Frame(p) + Frame(q);
    assert s[..4] == Frame(p)[..4];
    assert s[..4] + Zeros(0) == s[..4];
    assert HeaderValue(s[..4]) == 1;
    assert s[4..][..6] == p + Frame(q) == s[4..];
    assert ReadPayload(Inbound(s[4..], [Deliver(BUFFER_SIZE)]), 1, []) == ReadPayload(Inbound([], []), 1, p + Frame(q));
  }
}
