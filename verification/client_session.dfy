/** `ImageProcessServerConnect`: the constructor, `send_command`, the worker
    `_ask_for_images` and the retry loop of `ask_for_images`. The worker
    thread and `join(timeout=READ_TIMEOUT)` are replaced by their visible
    effect: a worker whose reads block forever is the one still alive after
    the join. */
module Session {
  import opened Bytes
  import opened Optional
  import opened ClientWire
  import opened Connect
  import Text
  import Utf8

  /** `MAX_RETRY`: how many attempts `ask_for_images` makes. */
  const MAX_RETRY: nat := 3

  /** A command argument: the client passes `int`s (width, height) and
      `str`s (paths, directories, the flag text). */
  datatype Arg = IntArg(i: int) | StrArg(s: string)

  /** Python's `str(arg)`. */
  function ArgText(a: Arg): string
  {
    match a
    case IntArg(i) => Text.IntText(i)
    case StrArg(s) => s
  }

  function ArgTexts(args: seq<Arg>): (ts: seq<string>)
    ensures |ts| == |args| && forall i :: 0 <= i < |args| ==> ts[i] == ArgText(args[i])
  {
    seq(|args|, i requires 0 <= i < |args| => ArgText(args[i]))
  }

  /** The command string `send_command` builds:
      `command_type + "|" + "|".join(str(arg) for arg in args)`. */
  function CommandText(kind: string, args: seq<Arg>): string
  {
    kind + [Text.SEP] + Text.Join(ArgTexts(args), Text.SEP)
  }

  /** When neither the command type nor any argument contains `|`, the
      server's split recovers the type followed by the arguments' texts
      (and a single empty argument when there are none). */
  lemma CommandSplits(kind: string, args: seq<Arg>)
    requires Text.SEP !in kind
    requires forall i :: 0 <= i < |args| ==> Text.SEP !in ArgText(args[i])
    ensures Text.Split(CommandText(kind, args), Text.SEP) == [kind] + (if |args| == 0 then [""] else ArgTexts(args))
  {
    Text.SplitPiece(kind, Text.Join(ArgTexts(args), Text.SEP), Text.SEP);
    if |args| > 0 {
      Text.SplitJoin(ArgTexts(args), Text.SEP);
    }
  }

  /** The connection: the pipe handle and `current_command`, the text of the
      command in flight or `None`. */
  datatype Client = Client(handle: nat, currentCommand: Option<string>)

  datatype Sending = Sending(outcome: Outcome<()>, client: Client, wire: seq<byte>)

  /** `send_command`: record the command text in `current_command`, then
      write it UTF-8 encoded as one message. The record is made before the
      write, so it stays even when the write raises. */
  function SendCommand(c: Client, kind: string, args: seq<Arg>, header: WriteEvent, body: WriteEvent): (r: Sending)
    ensures r.client == c.(currentCommand := Some(CommandText(kind, args)))
    ensures var data := Utf8.Encode(CommandText(kind, args));
            |data| < U32_LIMIT && header.Written? && body.Written? ==> r.outcome == Returned(()) && r.wire == Frame(data)
    ensures r.outcome.Returned? || r.outcome.Raised?
  {
    var text := CommandText(kind, args);
    var sent := WriteMsg(Utf8.Encode(text), header, body);
    Sending(sent.outcome, c.(currentCommand := Some(text)), sent.wire)
  }

  /** The text of the `setup` command the constructor sends; `working_dir`
      defaults to `"./"` in the source. */
  function SetupText(cacheDir: string, workingDir: string, threaded: bool): string
  {
    CommandText("setup", [StrArg(cacheDir), StrArg(workingDir), StrArg(Text.Lower(Text.BoolText(threaded)))])
  }

  datatype Construct = Construct(outcome: Outcome<Client>, wire: seq<byte>)

  /** `ImageProcessServerConnect.__init__` after the server process is
      spawned: connect, send `setup`, then clear `current_command`. */
  function Init(cacheDir: string, workingDir: string, threaded: bool, opens: seq<OpenAttempt>, header: WriteEvent, body: WriteEvent): (r: Construct)
    ensures r.outcome.Returned? ==> r.outcome.value.currentCommand == None
    ensures r.outcome.Returned? ==> ConnectToPipe(opens).Connected? && r.outcome.value.handle == ConnectToPipe(opens).handle
    ensures ConnectToPipe(opens).ConnectStuck? <==> r.outcome.Stuck?
    ensures ConnectToPipe(opens).ConnectRaised? ==> r.outcome == Raised(BrokenPipe)
    ensures ConnectToPipe(opens).Connected? && header.Written? && body.Written?
              && |Utf8.Encode(SetupText(cacheDir, workingDir, threaded))| < U32_LIMIT ==>
              r.outcome.Returned? && r.wire == Frame(Utf8.Encode(SetupText(cacheDir, workingDir, threaded)))
  {
    match ConnectToPipe(opens)
    case ConnectStuck => Construct(Stuck, [])
    case ConnectRaised(_) => Construct(Raised(BrokenPipe), [])
    case Connected(handle, _, _) =>
      var flag := Text.Lower(Text.BoolText(threaded));
      var sent := SendCommand(Client(handle, None), "setup", [StrArg(cacheDir), StrArg(workingDir), StrArg(flag)], header, body);
      match sent.outcome
      case Raised(e) => Construct(Raised(e), sent.wire)
      case _ => Construct(Returned(sent.client.(currentCommand := None)), sent.wire)
  }

  // ---- the worker ----

  /** The arguments of a `gets` command: width, height, then the paths. */
  function GetsArgs(paths: seq<string>, width: int, height: int): seq<Arg>
  {
    [IntArg(width), IntArg(height)] + seq(|paths|, i requires 0 <= i < |paths| => StrArg(paths[i]))
  }

  function GetsText(paths: seq<string>, width: int, height: int): string
  {
    CommandText("gets", GetsArgs(paths, width, height))
  }

  /** How a worker thread ends: it ran to the end, it raised, or it blocked
      on a read and is still alive after the join. */
  datatype WorkerEnd = Finished | Threw(error: PyError) | Hanging

  /** What the environment does during one attempt: the answers to the two
      writes of the command, what the pipe then holds and how the reads are
      answered, and the attempts to reopen the pipe if the worker hangs. */
  datatype AttemptScript = AttemptScript(header: WriteEvent, body: WriteEvent, incoming: Incoming, reopen: seq<OpenAttempt>)

  /** The read loop of `_ask_for_images`: one message per path, each
      appended to `output` as it arrives. `np.frombuffer(None)` raises
      `TypeError` when `read_msg` returned `None`; `cv2.imdecode` is the
      identity here. */
  function ReadImages(p: Incoming, count: nat, output: seq<seq<byte>>): (r: (WorkerEnd, seq<seq<byte>>))
    ensures output <= r.1 && |r.1| <= |output| + count
    ensures r.0.Finished? <==> |r.1| == |output| + count
    ensures r.0 != Threw(Timeout) && r.0 != Threw(PackError)
    decreases count
  {
    if count == 0 then (Finished, output)
    else
      var first := ReadMsg(p);
      match first.outcome
      case Returned(Some(image)) => ReadImages(first.rest, count - 1, output + [image])
      case Returned(None) => (Threw(TypeError), output)
      case Raised(e) => (Threw(e), output)
      case Faulted(_) => (Threw(TypeError), output)
      case Stuck => (Hanging, output)
  }

  datatype AttemptRun = AttemptRun(end: WorkerEnd, output: seq<seq<byte>>, wire: seq<byte>)

  /** What `send_command("gets", ...)` writes in an attempt. */
  function GetsWrite(paths: seq<string>, width: int, height: int, script: AttemptScript): WriteRun
  {
    WriteMsg(Utf8.Encode(GetsText(paths, width, height)), script.header, script.body)
  }

  /** One run of `_ask_for_images` on a fresh output list: send `gets`, then
      read one image per path. A worker that finishes has read every image;
      one that does not has fewer than the paths, unless there were none. */
  function RunAttempt(paths: seq<string>, width: int, height: int, script: AttemptScript): (r: AttemptRun)
    ensures r.wire == GetsWrite(paths, width, height, script).wire
    ensures r.end.Finished? <==> GetsWrite(paths, width, height, script).outcome.Returned? && |r.output| == |paths|
    ensures !r.end.Finished? && |paths| > 0 ==> |r.output| < |paths|
    ensures GetsWrite(paths, width, height, script).outcome.Raised? ==> r.end == Threw(GetsWrite(paths, width, height, script).outcome.error)
    ensures r.end != Threw(Timeout)
  {
    var sent := GetsWrite(paths, width, height, script);
    match sent.outcome
    case Raised(e) => AttemptRun(Threw(e), [], sent.wire)
    case Returned(_) =>
      var (end, output) := ReadImages(script.incoming, |paths|, []);
      AttemptRun(end, output, sent.wire)
    case _ => AttemptRun(Hanging, [], sent.wire)
  }

  lemma AnswersSuffix(events: seq<ReadEvent>, k: nat, floor: nat)
    requires Answers(events, floor) && k <= |events|
    ensures Answers(events[k..], floor)
  {
    assert forall i :: 0 <= i < |events| - k ==> events[k..][i] == events[k + i];
  }

  lemma AppendHead<T>(output: seq<T>, ms: seq<T>)
    requires |ms| > 0
    ensures output + [ms[0]] + ms[1..] == output + ms
  {
    assert [ms[0]] + ms[1..] == ms;
    assert output + [ms[0]] + ms[1..] == output + ([ms[0]] + ms[1..]);
  }

  /** Reading one image of a worker whose pipe starts with a frame takes
      `used` reads and leaves what follows the frame. */
  lemma ReadImagesStep(m: seq<byte>, tail: seq<byte>, events: seq<ReadEvent>, count: nat, output: seq<seq<byte>>)
    returns (used: nat)
    requires |m| < U32_LIMIT && Answers(events, 4) && |events| > |m| && count >= 1
    ensures used <= |m| + 1 && used <= |events|
    ensures ReadImages(Incoming(Frame(m) + tail, events), count, output) == ReadImages(Incoming(tail, events[used..]), count - 1, output + [m])
  {
    ReadFrame(m, tail, events);
    var r := ReadMsg(Incoming(Frame(m) + tail, events));
    used := |events| - |r.rest.events|;
  }

  /** A worker whose pipe holds the frames of `ms`, with every read
      answering at least the 4 header bytes, reads exactly `ms`, in order. */
  lemma {:induction false} ReadImagesFrames(ms: seq<seq<byte>>, more: seq<byte>, events: seq<ReadEvent>, output: seq<seq<byte>>)
    requires Frameable(ms)
    requires Answers(events, 4)
    requires |events| >= |Frames(ms)|
    ensures ReadImages(Incoming(Frames(ms) + more, events), |ms|, output) == (Finished, output + ms)
    decreases |ms|
  {
    if |ms| == 0 {
      assert output + ms == output;
    } else {
      var m := ms[0];
      assert Frameable(ms[1..]);
      var tail := Frames(ms[1..]) + more;
      assert Frames(ms) + more == Frame(m) + tail;
      var used := ReadImagesStep(m, tail, events, |ms|, output);
      assert |Frames(ms)| == 4 + |m| + |Frames(ms[1..])|;
      AnswersSuffix(events, used, 4);
      ReadImagesFrames(ms[1..], more, events[used..], output + [m]);
      calc {
        ReadImages(Incoming(Frames(ms) + more, events), |ms|, output);
        ReadImages(Incoming(Frame(m) + tail, events), |ms|, output);
        ReadImages(Incoming(tail, events[used..]), |ms| - 1, output + [m]);
        (Finished, output + [m] + ms[1..]);
        { AppendHead(output, ms); }
        (Finished, output + ms);
      }
    }
  }

  // ---- ask_for_images ----

  /** How `ask_for_images` ends: it spins forever because `current_command`
      is set, or it returns, raises or blocks after `tries` attempts, of
      which `reconnects` were followed by reopening the pipe. */
  datatype Asked = Waits | Asked(outcome: Outcome<seq<seq<byte>>>, client: Client, tries: nat, reconnects: nat)

  /** The worker runs of the attempts: each worker starts on a fresh output
      list and its own script, so what it does does not depend on the loop. */
  function Runs(paths: seq<string>, width: int, height: int, attempts: seq<AttemptScript>): (runs: seq<AttemptRun>)
    ensures |runs| == |attempts|
    ensures forall j :: 0 <= j < |attempts| ==> runs[j] == RunAttempt(paths, width, height, attempts[j])
  {
    seq(|attempts|, j requires 0 <= j < |attempts| => RunAttempt(paths, width, height, attempts[j]))
  }

  function Reopens(attempts: seq<AttemptScript>): (reopens: seq<Connection>)
    ensures |reopens| == |attempts|
    ensures forall j :: 0 <= j < |attempts| ==> reopens[j] == ConnectToPipe(attempts[j].reopen)
  {
    seq(|attempts|, j requires 0 <= j < |attempts| => ConnectToPipe(attempts[j].reopen))
  }

  /** Attempts `from` up to `upto` all hung and were each followed by a
      successful reconnect. */
  ghost predicate AllHung(runs: seq<AttemptRun>, reopens: seq<Connection>, from: nat, upto: nat)
    requires from <= upto <= |runs| == |reopens|
  {
    forall j :: from <= j < upto ==> runs[j].end.Hanging? && reopens[j].Connected?
  }

  /** The `for ... else` loop of `ask_for_images` from attempt `i` on, with
      `c` the connection, `text` the `gets` command and `reconnected` the
      reconnects so far. A worker still alive after the join makes the loop
      close the handle, reconnect, clear the output and go on; any other
      worker ends the loop, and the images it appended are returned. */
  function Retry(c: Client, text: string, runs: seq<AttemptRun>, reopens: seq<Connection>, i: nat, reconnected: nat): (r: Asked)
    requires |runs| == |reopens| == MAX_RETRY && i <= MAX_RETRY
    ensures r.Asked? && i <= r.tries <= MAX_RETRY
    decreases MAX_RETRY - i
  {
    if i == MAX_RETRY then Asked(Raised(Timeout), c, i, reconnected)
    else
      var marked := c.(currentCommand := Some(text));
      match runs[i].end
      case Hanging =>
        (match reopens[i]
         case Connected(handle, _, _) => Retry(marked.(handle := handle), text, runs, reopens, i + 1, reconnected + 1)
         case ConnectRaised(_) => Asked(Raised(BrokenPipe), marked, i + 1, reconnected)
         case ConnectStuck => Asked(Stuck, marked, i + 1, reconnected))
      case _ => Asked(Returned(runs[i].output), marked.(currentCommand := None), i + 1, reconnected)
  }

  /** What the retry loop returns, and when it gives up: it returns the
      images of the first attempt that did not hang, all earlier ones having
      hung and reconnected, with `current_command` cleared; it raises
      `TimeoutError` exactly when every remaining attempt hangs and
      reconnects, and then leaves the command recorded. */
  lemma {:induction false} RetryOutcome(c: Client, text: string, runs: seq<AttemptRun>, reopens: seq<Connection>, i: nat, reconnected: nat)
    requires |runs| == |reopens| == MAX_RETRY && i <= MAX_RETRY
    ensures var r := Retry(c, text, runs, reopens, i, reconnected);
            && (r.outcome.Returned? ==>
                  && i < r.tries && AllHung(runs, reopens, i, r.tries - 1)
                  && !runs[r.tries - 1].end.Hanging? && r.outcome.value == runs[r.tries - 1].output
                  && r.client.currentCommand == None)
            && (r.outcome == Raised(Timeout) <==> AllHung(runs, reopens, i, MAX_RETRY))
            && (r.outcome == Raised(Timeout) ==>
                  && r.tries == MAX_RETRY && r.reconnects == reconnected + MAX_RETRY - i
                  && r.client.currentCommand == (if i < MAX_RETRY then Some(text) else c.currentCommand))
    decreases MAX_RETRY - i
  {
    if i < MAX_RETRY {
      var marked := c.(currentCommand := Some(text));
      if runs[i].end.Hanging? && reopens[i].Connected? {
        RetryOutcome(marked.(handle := reopens[i].handle), text, runs, reopens, i + 1, reconnected + 1);
      } else {
        assert !AllHung(runs, reopens, i, MAX_RETRY);
      }
    }
  }

  /** `ask_for_images` as written: wait until no command is in flight, then
      make up to `MAX_RETRY` attempts. */
  function AskForImages(c: Client, paths: seq<string>, width: int, height: int, attempts: seq<AttemptScript>): (r: Asked)
    requires |attempts| == MAX_RETRY
    ensures r.Waits? <==> c.currentCommand.Some?
    ensures r.Asked? ==> 1 <= r.tries <= MAX_RETRY
    ensures r.Asked? && r.outcome.Returned? ==>
              && AllHung(Runs(paths, width, height, attempts), Reopens(attempts), 0, r.tries - 1)
              && !RunAttempt(paths, width, height, attempts[r.tries - 1]).end.Hanging?
              && r.outcome.value == RunAttempt(paths, width, height, attempts[r.tries - 1]).output
              && r.client.currentCommand == None
    ensures r.Asked? ==> (r.outcome == Raised(Timeout) <==> AllHung(Runs(paths, width, height, attempts), Reopens(attempts), 0, MAX_RETRY))
    ensures r.Asked? && r.outcome == Raised(Timeout) ==> r.client.currentCommand == Some(GetsText(paths, width, height))
  {
    if c.currentCommand.Some? then Waits
    else
      var runs, reopens := Runs(paths, width, height, attempts), Reopens(attempts);
      RetryOutcome(c, GetsText(paths, width, height), runs, reopens, 0, 0);
      Retry(c, GetsText(paths, width, height), runs, reopens, 0, 0)
  }

  /** A worker that raises ends the retry loop like one that finished: the
      images it had appended so far are returned as the result, fewer than
      the paths asked for, and no exception reaches the caller. */
  lemma PartialResult(c: Client, paths: seq<string>, width: int, height: int, attempts: seq<AttemptScript>)
    requires |attempts| == MAX_RETRY && c.currentCommand.None? && |paths| > 0
    requires RunAttempt(paths, width, height, attempts[0]).end.Threw?
    ensures var r := AskForImages(c, paths, width, height, attempts);
            r.Asked? && r.outcome.Returned? && |r.outcome.value| < |paths|
  {
    var runs, reopens := Runs(paths, width, height, attempts), Reopens(attempts);
    assert Retry(c, GetsText(paths, width, height), runs, reopens, 0, 0).outcome == Returned(runs[0].output);
  }

  /** The input that shows it: the command's header write fails with
      "no pipe", and `ask_for_images(["a"], 1, 1)` returns an empty list. */
  lemma PartialResultExample(handle: nat, later: AttemptScript)
    ensures var first := AttemptScript(WriteFault(NO_PIPE), Written, Incoming([], []), []);
            AskForImages(Client(handle, None), ["a"], 1, 1, [first, later, later]).outcome == Returned([])
  {
    var first := AttemptScript(WriteFault(NO_PIPE), Written, Incoming([], []), []);
    var text := GetsText(["a"], 1, 1);
    Utf8.EncodeLength(text);
    assert |text| < 100 by {
      assert ArgTexts(GetsArgs(["a"], 1, 1)) == ["1", "1", "a"];
      assert Text.Join(["1", "1", "a"], Text.SEP) == "1|1|a";
    }
    assert RunAttempt(["a"], 1, 1, first).end == Threw(NoPipe);
    PartialResult(Client(handle, None), ["a"], 1, 1, [first, later, later]);
    var runs, reopens := Runs(["a"], 1, 1, [first, later, later]), Reopens([first, later, later]);
    assert Retry(Client(handle, None), text, runs, reopens, 0, 0).outcome == Returned(runs[0].output);
  }

  /** After `TimeoutError` the command stays recorded in `current_command`,
      so every later `ask_for_images` on this connection waits forever. */
  lemma TimeoutLeavesMarker(c: Client, paths: seq<string>, width: int, height: int, attempts: seq<AttemptScript>,
                            laterPaths: seq<string>, laterWidth: int, laterHeight: int, laterAttempts: seq<AttemptScript>)
    requires |attempts| == MAX_RETRY && |laterAttempts| == MAX_RETRY && c.currentCommand.None?
    requires AllHung(Runs(paths, width, height, attempts), Reopens(attempts), 0, MAX_RETRY)
    ensures var r := AskForImages(c, paths, width, height, attempts);
            && r.Asked? && r.outcome == Raised(Timeout)
            && AskForImages(r.client, laterPaths, laterWidth, laterHeight, laterAttempts) == Waits
  {
  }

  // ---- ask_for_images, corrected ----

  /** Attempts `from` up to `upto` all failed, by hanging or raising, and
      were each followed by a successful reconnect. */
  ghost predicate AllFailed(runs: seq<AttemptRun>, reopens: seq<Connection>, from: nat, upto: nat)
    requires from <= upto <= |runs| == |reopens|
  {
    forall j :: from <= j < upto ==> !runs[j].end.Finished? && reopens[j].Connected?
  }

  /** The retry loop as evidently intended: a worker that raises is retried
      through the same reconnect path as one that hangs, instead of ending
      the loop with partial images, and `current_command` is cleared on
      every way out of the loop, so a timeout does not block the next
      request. */
  function RetryIntended(c: Client, text: string, runs: seq<AttemptRun>, reopens: seq<Connection>, i: nat, reconnected: nat): (r: Asked)
    requires |runs| == |reopens| == MAX_RETRY && i <= MAX_RETRY
    ensures r.Asked? && i <= r.tries <= MAX_RETRY
    decreases MAX_RETRY - i
  {
    var cleared := c.(currentCommand := None);
    if i == MAX_RETRY then Asked(Raised(Timeout), cleared, i, reconnected)
    else
      var marked := c.(currentCommand := Some(text));
      if runs[i].end.Finished? then Asked(Returned(runs[i].output), cleared, i + 1, reconnected)
      else
        match reopens[i]
        case Connected(handle, _, _) => RetryIntended(marked.(handle := handle), text, runs, reopens, i + 1, reconnected + 1)
        case ConnectRaised(_) => Asked(Raised(BrokenPipe), cleared, i + 1, reconnected)
        case ConnectStuck => Asked(Stuck, marked, i + 1, reconnected)
  }

  /** The corrected loop returns only the images of an attempt that
      finished, all earlier attempts having failed and reconnected; it never
      leaves `current_command` set when it returns or raises; and it gives up
      with `TimeoutError` exactly when every remaining attempt fails and
      reconnects. */
  lemma {:induction false} RetryIntendedOutcome(c: Client, text: string, runs: seq<AttemptRun>, reopens: seq<Connection>, i: nat, reconnected: nat)
    requires |runs| == |reopens| == MAX_RETRY && i <= MAX_RETRY
    ensures var r := RetryIntended(c, text, runs, reopens, i, reconnected);
            && (r.outcome.Returned? ==>
                  && i < r.tries && AllFailed(runs, reopens, i, r.tries - 1)
                  && runs[r.tries - 1].end.Finished? && r.outcome.value == runs[r.tries - 1].output)
            && (!r.outcome.Stuck? ==> r.client.currentCommand == None)
            && (r.outcome == Raised(Timeout) <==> AllFailed(runs, reopens, i, MAX_RETRY))
    decreases MAX_RETRY - i
  {
    if i < MAX_RETRY {
      var marked := c.(currentCommand := Some(text));
      if !runs[i].end.Finished? && reopens[i].Connected? {
        RetryIntendedOutcome(marked.(handle := reopens[i].handle), text, runs, reopens, i + 1, reconnected + 1);
      } else {
        assert !AllFailed(runs, reopens, i, MAX_RETRY);
      }
    }
  }

  /** `ask_for_images` with the corrected loop: it returns one image per
      path or raises, and leaves no command recorded either way. */
  function AskForImagesIntended(c: Client, paths: seq<string>, width: int, height: int, attempts: seq<AttemptScript>): (r: Asked)
    requires |attempts| == MAX_RETRY
    ensures r.Waits? <==> c.currentCommand.Some?
    ensures r.Asked? ==> 1 <= r.tries <= MAX_RETRY
    ensures r.Asked? && r.outcome.Returned? ==>
              && RunAttempt(paths, width, height, attempts[r.tries - 1]).end.Finished?
              && r.outcome.value == RunAttempt(paths, width, height, attempts[r.tries - 1]).output
              && |r.outcome.value| == |paths|
    ensures r.Asked? && !r.outcome.Stuck? ==> r.client.currentCommand == None
    ensures r.Asked? ==> (r.outcome == Raised(Timeout) <==> AllFailed(Runs(paths, width, height, attempts), Reopens(attempts), 0, MAX_RETRY))
  {
    if c.currentCommand.Some? then Waits
    else
      var runs, reopens := Runs(paths, width, height, attempts), Reopens(attempts);
      RetryIntendedOutcome(c, GetsText(paths, width, height), runs, reopens, 0, 0);
      RetryIntended(c, GetsText(paths, width, height), runs, reopens, 0, 0)
  }

  /** With the correction, a request that returns or raises never makes the
      next request on the connection wait. */
  lemma IntendedNeverBlocksNext(c: Client, paths: seq<string>, width: int, height: int, attempts: seq<AttemptScript>,
                                laterPaths: seq<string>, laterWidth: int, laterHeight: int, laterAttempts: seq<AttemptScript>)
    requires |attempts| == MAX_RETRY && |laterAttempts| == MAX_RETRY
    ensures var r := AskForImagesIntended(c, paths, width, height, attempts);
            r.Asked? && !r.outcome.Stuck? ==> AskForImagesIntended(r.client, laterPaths, laterWidth, laterHeight, laterAttempts).Asked?
  {
  }
}
