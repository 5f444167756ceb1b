/** `process_command` and `read_command`: one framed command is read, its
    bytes are decoded lossily as UTF-8, split on `|`, and dispatched on the
    first piece. */
module Dispatch {
  import opened Bytes
  import opened Optional
  import opened Cache
  import opened Batch
  import ServerWire
  import Utf8
  import Text

  /** A step that wrote nothing and ended as `status` in state `s`. */
  function Quiet(status: Status, s: Server): Step
  {
    Step(status, s, [], [])
  }

  /** `process_command`. Indexing past the end of `args` and `.unwrap()` on a
      failed `parse::<u32>()` panic; an unknown command is reported and
      ignored. */
  function ProcessCommand(s: Server, w: World, args: seq<string>): (r: Step)
    ensures |args| == 0 ==> r.status.Panicked?
    ensures |args| >= 1 && args[0] !in {"clear_cache", "setup", "gets", "get"} ==> r == Quiet(Done, s)
    ensures |args| >= 1 && args[0] == "setup" ==>
              if |args| < 4 then r == Quiet(Panicked, s)
              else match SetUp(s, w, args[1], args[2], args[3] == "true")
                case Ok(t) => r == Quiet(Done, t)
                case Err(f) => r == Quiet(Failed(f), s)
    ensures |args| >= 1 && args[0] == "gets" ==>
              if |args| >= 3 && Text.ParseU32(args[1]).Some? && Text.ParseU32(args[2]).Some?
              then r == GetsImages(s, w, Text.ParseU32(args[1]).value, Text.ParseU32(args[2]).value, args[3..])
              else r == Quiet(Panicked, s)
    ensures |args| >= 1 && args[0] == "get" ==>
              if |args| >= 4 && Text.ParseU32(args[2]).Some? && Text.ParseU32(args[3]).Some?
              then r == GetImage(s, w, args[1], Text.ParseU32(args[2]).value, Text.ParseU32(args[3]).value)
              else r == Quiet(Panicked, s)
    ensures |args| >= 1 && args[0] == "clear_cache" ==> r.state == ClearCache(s).1 && (r.status.Done? <==> ClearCache(s).0.Ok?)
  {
    if |args| == 0 then Quiet(Panicked, s)
    else if args[0] == "clear_cache" then
      var (res, t) := ClearCache(s);
      Quiet(if res.Ok? then Done else Failed(res.fault), t)
    else if args[0] == "setup" then
      if |args| < 4 then Quiet(Panicked, s)
      else
        (match SetUp(s, w, args[1], args[2], args[3] == "true")
         case Err(f) => Quiet(Failed(f), s)
         case Ok(t) => Quiet(Done, t))
    else if args[0] == "gets" then
      if |args| < 3 then Quiet(Panicked, s)
      else
        (match (Text.ParseU32(args[1]), Text.ParseU32(args[2]))
         case (Some(width), Some(height)) => GetsImages(s, w, width, height, args[3..])
         case _ => Quiet(Panicked, s))
    else if args[0] == "get" then
      if |args| < 4 then Quiet(Panicked, s)
      else
        (match (Text.ParseU32(args[2]), Text.ParseU32(args[3]))
         case (Some(width), Some(height)) => GetImage(s, w, args[1], width, height)
         case _ => Quiet(Panicked, s))
    else Quiet(Done, s)
  }

  /** Every command keeps a coherent cache coherent, including the ones that
      fail or panic part-way, and adds at most one cache entry per argument:
      no disk entry ever points at a missing file or a number past the map. */
  lemma ProcessCommandCoherent(s: Server, w: World, args: seq<string>)
    requires Coherent(s) && |s.images| + |args| < U32_LIMIT
    ensures var r := ProcessCommand(s, w, args);
            Coherent(r.state) && |r.state.images| <= |s.images| + |args|
  {
    if |args| >= 4 && args[0] == "setup" && SetUp(s, w, args[1], args[2], args[3] == "true").Ok? {
      SetUpCoherent(s, w, args[1], args[2], args[3] == "true");
    } else if |args| >= 3 && args[0] == "gets" && Text.ParseU32(args[1]).Some? && Text.ParseU32(args[2]).Some? {
      GetsImagesKeeps(s, w, Text.ParseU32(args[1]).value, Text.ParseU32(args[2]).value, args[3..]);
    } else if |args| >= 4 && args[0] == "get" && Text.ParseU32(args[2]).Some? && Text.ParseU32(args[3]).Some? {
      GetImageServes(s, w, args[1], Text.ParseU32(args[2]).value, Text.ParseU32(args[3]).value);
    }
  }

  /** The argument list a received payload is dispatched with. */
  function Arguments(data: seq<byte>): seq<string>
  {
    Text.Split(Utf8.DecodeLossy(data), Text.SEP)
  }

  /** `read_command`: receive one frame and dispatch it; a header read that
      returns no bytes is `Ok` with nothing dispatched. */
  function ReadCommand(s: Server, w: World, inb: ServerWire.Inbound): (r: (Step, ServerWire.Inbound))
    ensures ServerWire.ReceiveCommand(inb).result.Idle? ==> r.0 == Quiet(Done, s)
    ensures ServerWire.ReceiveCommand(inb).result.Received? ==>
              r.0 == ProcessCommand(s, w, Arguments(ServerWire.ReceiveCommand(inb).result.data))
    ensures !ServerWire.ReceiveCommand(inb).result.Received? ==> r.0.state == s && r.0.out == []
  {
    var run := ServerWire.ReceiveCommand(inb);
    match run.result
    case Idle => (Quiet(Done, s), run.rest)
    case Failed => (Quiet(Failed(ReadFailed), s), run.rest)
    case Blocked => (Quiet(Blocked, s), run.rest)
    case Received(data) => (ProcessCommand(s, w, Arguments(data)), run.rest)
  }
}
