/** The client's half of the framing: `write_msg` and `read_msg`. The pipe
    the client reads is the bytes the server has written that the client has
    not read yet, plus the script of what the operating system answers to
    the client's successive `ReadFile` calls. */
module ClientWire {
  import opened Bytes
  import opened Optional

  /** `READ_BUFFER_SIZE` (sic: 4069). */
  const READ_BUFFER_SIZE: nat := 4069

  /** `pywintypes.error` codes the client recognises. */
  const NO_PIPE: int := 2
  const BROKEN_PIPE: int := 109

  /** The exceptions that leave the wire functions: "no pipe", "broken
      pipe, bye bye", `struct.error` from packing an oversized length, a
      `TypeError` from using the `None` a read returned, and the
      `TimeoutError` of `ask_for_images`. */
  datatype PyError = NoPipe | BrokenPipe | PackError | TypeError | Timeout

  /** How a Python call ends: it returns, it raises a recognised exception,
      a `pywintypes.error` with the given code is still propagating, or it
      blocks forever because the operating system never answers. */
  datatype Outcome<T> = Returned(value: T) | Raised(error: PyError) | Faulted(code: int) | Stuck

  /** What the handler `except pywintypes.error as e` makes of a code:
      2 and 109 become exceptions, anything else is swallowed and the
      function returns `None`. */
  function Classify<T>(code: int, swallowed: T): (r: Outcome<T>)
    ensures code == NO_PIPE <==> r == Raised(NoPipe)
    ensures code == BROKEN_PIPE <==> r == Raised(BrokenPipe)
    ensures code != NO_PIPE && code != BROKEN_PIPE <==> r == Returned(swallowed)
  {
    if code == NO_PIPE then Raised(NoPipe)
    else if code == BROKEN_PIPE then Raised(BrokenPipe)
    else Returned(swallowed)
  }

  // ---- write_msg ----

  /** What one `WriteFile` call does: writes everything, or raises. */
  datatype WriteEvent = Written | WriteFault(code: int)

  datatype WriteRun = WriteRun(outcome: Outcome<()>, wire: seq<byte>)

  /** `write_msg`: pack the length as a big-endian `u32` (which raises for a
      length of 2^32 or more), write it, then write the data. A write that
      fails writes nothing and skips what follows. */
  function WriteMsg(data: seq<byte>, header: WriteEvent, body: WriteEvent): (r: WriteRun)
    ensures !r.outcome.Faulted? && !r.outcome.Stuck?
    ensures |data| >= U32_LIMIT <==> r.outcome == Raised(PackError)
    ensures |data| < U32_LIMIT && header.Written? && body.Written? ==> r == WriteRun(Returned(()), Frame(data))
    ensures |data| < U32_LIMIT ==> r.wire <= Frame(data)
    ensures |data| < U32_LIMIT && header.WriteFault? ==> r == WriteRun(Classify(header.code, ()), [])
    ensures |data| < U32_LIMIT && header.Written? && body.WriteFault? ==>
              |r.wire| == 4 && BigEndian(r.wire) == |data| && r.outcome == Classify(body.code, ())
  {
    if |data| >= U32_LIMIT then WriteRun(Raised(PackError), [])
    else
      var f := Frame(data);
      assert f == f[..4] + data;
      match header
      case WriteFault(code) => WriteRun(Classify(code, ()), [])
      case Written =>
        match body
        case WriteFault(code) => WriteRun(Classify(code, ()), f[..4])
        case Written => WriteRun(Returned(()), f)
  }

  // ---- read_msg ----

  /** What one `ReadFile(handle, n)` answers: up to `limit` of the bytes
      waiting (never more than `n`), `None` for the data, or an error. */
  datatype ReadEvent = Got(limit: nat) | GotNone | ReadFault(code: int)

  datatype Incoming = Incoming(data: seq<byte>, events: seq<ReadEvent>)

  datatype ReadRun<T> = ReadRun(outcome: Outcome<T>, rest: Incoming)

  /** The header loop of `read_msg`: ask for 4 bytes, and while the answer is
      `None`, ask again. */
  function ReadHeader(p: Incoming): (r: ReadRun<seq<byte>>)
    ensures r.outcome.Returned? ==> |r.outcome.value| <= 4 && p.data == r.outcome.value + r.rest.data
    ensures r.outcome.Returned? || r.outcome.Faulted? || r.outcome.Stuck?
    ensures |r.rest.events| <= |p.events|
    ensures r.outcome.Returned? ==> |r.rest.events| < |p.events|
    decreases |p.events|
  {
    if |p.events| == 0 then ReadRun(Stuck, p)
    else
      var next := p.events[1..];
      match p.events[0]
      case GotNone => ReadHeader(Incoming(p.data, next))
      case ReadFault(code) => ReadRun(Faulted(code), Incoming(p.data, next))
      case Got(limit) =>
        var k := Min(Min(4, limit), |p.data|);
        assert p.data == p.data[..k] + p.data[k..];
        ReadRun(Returned(p.data[..k]), Incoming(p.data[k..], next))
  }

  /** The payload loop of `read_msg`: while fewer than `msgLength` bytes have
      arrived, ask for `min(buffer_size, remaining)` and append the answer;
      appending `None` raises `TypeError`. */
  function ReadBody(p: Incoming, msgLength: nat, msg: seq<byte>): (r: ReadRun<seq<byte>>)
    requires |msg| <= msgLength
    ensures r.outcome.Returned? ==> |r.outcome.value| == msgLength && msg + p.data == r.outcome.value + r.rest.data
    ensures !r.outcome.Raised? || r.outcome.error == TypeError
    ensures |r.rest.events| <= |p.events|
    decreases |p.events|
  {
    if |msg| >= msgLength then ReadRun(Returned(msg), p)
    else if |p.events| == 0 then ReadRun(Stuck, p)
    else
      var next := p.events[1..];
      match p.events[0]
      case GotNone => ReadRun(Raised(TypeError), Incoming(p.data, next))
      case ReadFault(code) => ReadRun(Faulted(code), Incoming(p.data, next))
      case Got(limit) =>
        var k := Min(Min(Min(READ_BUFFER_SIZE, msgLength - |msg|), limit), |p.data|);
        assert p.data == p.data[..k] + p.data[k..];
        ReadBody(Incoming(p.data[k..], next), msgLength, msg + p.data[..k])
  }

  /** `read_msg`: the header's bytes, read big-endian by `int.from_bytes`,
      give the length; then exactly that many bytes are read. An error code
      other than 2 or 109 is swallowed and the result is `None`. */
  function ReadMsg(p: Incoming): (r: ReadRun<Option<seq<byte>>>)
    ensures !r.outcome.Faulted?
    ensures r.outcome.Returned? && r.outcome.value.Some? ==>
              && ReadHeader(p).outcome.Returned?
              && var header := ReadHeader(p).outcome.value;
                 |r.outcome.value.value| == BigEndian(header) && p.data == header + r.outcome.value.value + r.rest.data
    ensures |r.rest.events| <= |p.events|
  {
    var h := ReadHeader(p);
    match h.outcome
    case Stuck => ReadRun(Stuck, h.rest)
    case Faulted(code) => ReadRun(Classify(code, None), h.rest)
    case Returned(header) =>
      var b := ReadBody(h.rest, BigEndian(header), []);
      match b.outcome
      case Returned(msg) =>
        assert [] + h.rest.data == h.rest.data;
        ReadRun(Returned(Some(msg)), b.rest)
      case Faulted(code) => ReadRun(Classify(code, None), b.rest)
      case Raised(e) => ReadRun(Raised(e), b.rest)
      case Stuck => ReadRun(Stuck, b.rest)
  }

  /** Every read answers with data, at least `floor` bytes when asked. */
  ghost predicate Answers(events: seq<ReadEvent>, floor: nat)
  {
    forall i :: 0 <= i < |events| ==> events[i].Got? && events[i].limit >= floor
  }

  lemma {:induction false} BodyOfFrame(p: Incoming, m: seq<byte>, msg: seq<byte>, more: seq<byte>)
    requires msg + p.data == m + more && |msg| <= |m|
    requires Answers(p.events, 1)
    requires |p.events| >= |m| - |msg|
    ensures var r := ReadBody(p, |m|, msg);
            && r.outcome == Returned(m) && r.rest.data == more
            && |p.events| - |r.rest.events| <= |m| - |msg|
            && r.rest.events == p.events[|p.events| - |r.rest.events|..]
    decreases |p.events|
  {
    if |msg| < |m| {
      var k := Min(Min(Min(READ_BUFFER_SIZE, |m| - |msg|), p.events[0].limit), |p.data|);
      assert |p.data| >= |m| - |msg| by {
        assert |msg| + |p.data| == |m| + |more|;
      }
      assert k >= 1;
      var next := Incoming(p.data[k..], p.events[1..]);
      assert (msg + p.data[..k]) + next.data == m + more by {
        assert p.data == p.data[..k] + p.data[k..];
      }
      BodyOfFrame(next, m, msg + p.data[..k], more);
      var r := ReadBody(next, |m|, msg + p.data[..k]);
      assert p.events[1..][|next.events| - |r.rest.events|..] == p.events[|p.events| - |r.rest.events|..];
    } else {
      assert msg == m by {
        assert (msg + p.data)[..|m|] == msg;
      }
      assert msg + p.data == m + p.data;
    }
  }

  /** However the reads split it, a frame at the front of the pipe is read
      back as exactly its payload, leaving what follows it; when every read
      returns data and the first returns the whole header, at most one read
      per payload byte plus one is used. */
  lemma ReadFrame(m: seq<byte>, more: seq<byte>, events: seq<ReadEvent>)
    requires |m| < U32_LIMIT
    requires Answers(events, 4)
    requires |events| > |m|
    ensures var r := ReadMsg(Incoming(Frame(m) + more, events));
            && r.outcome == Returned(Some(m)) && r.rest.data == more
            && |events| - |r.rest.events| <= |m| + 1
            && r.rest.events == events[|events| - |r.rest.events|..]
  {
    var f := Frame(m);
    var p := Incoming(f + more, events);
    assert (f + more)[..4] == f[..4];
    var h := ReadHeader(p);
    assert h.outcome == Returned(f[..4]);
    assert h.rest == Incoming((f + more)[4..], events[1..]);
    assert (f + more)[4..] == m + more;
    BodyOfFrame(h.rest, m, [], more);
    var b := ReadBody(h.rest, |m|, []);
    assert events[1..][|events[1..]| - |b.rest.events|..] == events[|events| - |b.rest.events|..];
  }

  /** An error on the first read of a message: codes 2 and 109 surface as
      exceptions, any other code makes `read_msg` return `None`. */
  lemma ReadMsgFault(p: Incoming, code: int)
    requires |p.events| > 0 && p.events[0] == ReadFault(code)
    ensures ReadMsg(p).outcome == Classify(code, None)
    ensures code != NO_PIPE && code != BROKEN_PIPE ==> ReadMsg(p).outcome == Returned(None)
  {
  }
}
