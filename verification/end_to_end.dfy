/** The two halves together: what the client writes is what the server
    dispatches, and what the server sends back is what the client reads. */
module EndToEnd {
  import opened Bytes
  import opened Optional
  import Text
  import Utf8
  import ServerWire
  import opened Cache
  import opened Batch
  import opened Dispatch
  import opened ClientWire
  import opened Session

  /** The frame the client writes for `text` arrives at the server whole,
      and the server splits it back into the client's pieces. */
  lemma CommandArrives(text: string, replies: seq<ServerWire.Reply>)
    requires |Utf8.Encode(text)| < U32_LIMIT
    requires ServerWire.Generous(replies, 4) && |replies| > |Utf8.Encode(text)|
    ensures var run := ServerWire.ReceiveCommand(ServerWire.Inbound(Frame(Utf8.Encode(text)), replies));
            run.result.Received? && Arguments(run.result.data) == Text.Split(text, Text.SEP)
  {
    ServerWire.ReceiveWholeFrame(Utf8.Encode(text), replies);
    Utf8.DecodeEncode(text);
  }

  /** Decimal text never contains the separator. */
  lemma DecimalHasNoSep(n: nat)
    ensures Text.SEP !in Text.Decimal(n)
  {
  }

  /** `setup` round trip: the constructor's command, read by the server,
      runs `setup` with the client's directories and with threaded reads on
      exactly when the client's flag is. */
  lemma SetupRoundTrip(s: Server, w: World, cacheDir: string, workingDir: string, threaded: bool, replies: seq<ServerWire.Reply>)
    requires Text.SEP !in cacheDir && Text.SEP !in workingDir
    requires |Utf8.Encode(SetupText(cacheDir, workingDir, threaded))| < U32_LIMIT
    requires ServerWire.Generous(replies, 4) && |replies| > |Utf8.Encode(SetupText(cacheDir, workingDir, threaded))|
    ensures var served := ReadCommand(s, w, ServerWire.Inbound(Frame(Utf8.Encode(SetupText(cacheDir, workingDir, threaded))), replies)).0;
            match SetUp(s, w, cacheDir, workingDir, threaded)
            case Ok(t) => served == Quiet(Done, t)
            case Err(f) => served == Quiet(Status.Failed(f), s)
  {
    SetupSplits(cacheDir, workingDir, threaded);
    Text.LowerBoolText(threaded);
    CommandArrives(SetupText(cacheDir, workingDir, threaded), replies);
  }

  /** The server splits the `setup` text into the command, the two
      directories and the flag's text. */
  lemma SetupSplits(cacheDir: string, workingDir: string, threaded: bool)
    requires Text.SEP !in cacheDir && Text.SEP !in workingDir
    ensures Text.Split(SetupText(cacheDir, workingDir, threaded), Text.SEP)
              == ["setup", cacheDir, workingDir, Text.Lower(Text.BoolText(threaded))]
  {
    var flag := Text.Lower(Text.BoolText(threaded));
    var args := [StrArg(cacheDir), StrArg(workingDir), StrArg(flag)];
    Text.LowerBoolText(threaded);
    CommandSplits("setup", args);
    assert ArgTexts(args) == [cacheDir, workingDir, flag];
  }

  /** The server splits the `gets` text into the command, the width's and
      height's digits, and the paths. */
  lemma GetsSplits(paths: seq<string>, width: nat, height: nat)
    requires Text.NoSep(paths, Text.SEP)
    ensures Text.Split(GetsText(paths, width, height), Text.SEP) == ["gets", Text.IntText(width), Text.IntText(height)] + paths
  {
    var args := GetsArgs(paths, width, height);
    DecimalHasNoSep(width);
    DecimalHasNoSep(height);
    assert forall i :: 2 <= i < |args| ==> args[i] == StrArg(paths[i - 2]);
    CommandSplits("gets", args);
    assert ArgTexts(args) == [Text.IntText(width), Text.IntText(height)] + paths;
  }

  /** `gets` round trip: with width and height that fit a `u32` and no
      path containing `|`, the server runs `gets_images` on the client's
      width, height and paths, in order. */
  lemma GetsRoundTrip(s: Server, w: World, paths: seq<string>, width: nat, height: nat, replies: seq<ServerWire.Reply>)
    requires width < U32_LIMIT && height < U32_LIMIT
    requires Text.NoSep(paths, Text.SEP)
    requires |Utf8.Encode(GetsText(paths, width, height))| < U32_LIMIT
    requires ServerWire.Generous(replies, 4) && |replies| > |Utf8.Encode(GetsText(paths, width, height))|
    ensures ReadCommand(s, w, ServerWire.Inbound(Frame(Utf8.Encode(GetsText(paths, width, height))), replies)).0
              == GetsImages(s, w, width, height, paths)
  {
    GetsSplits(paths, width, height);
    CommandArrives(GetsText(paths, width, height), replies);
    var parts := ["gets", Text.IntText(width), Text.IntText(height)] + paths;
    Text.ParseIntText(width);
    Text.ParseIntText(height);
    assert parts[3..] == paths;
  }

  /** The server's reply to a successful `gets` is read back by a worker as
      exactly the images served, in order, when every read answers at least
      the 4 header bytes. */
  lemma ResponseArrives(r: Step, more: seq<byte>, events: seq<ReadEvent>, count: nat)
    requires r.out == Sent(r.served) && |r.served| == count
    requires Frameable(r.served)
    requires Answers(events, 4) && |events| >= |r.out|
    ensures ReadImages(Incoming(r.out + more, events), count, []) == (Finished, r.served)
  {
    SentAreFrames(r.served);
    ReadImagesFrames(r.served, more, events, []);
    assert [] + r.served == r.served;
  }

  /** A whole request: the first attempt's command reaches the server over a
      pipe that delivers it whole, a successful `gets` on a coherent cache
      answers it, and the answer reaches the worker whole. Then the
      corrected `ask_for_images` returns, on its first attempt, one image per
      path, the i-th being what the server's cache now holds for the i-th
      path, and it leaves no command recorded. */
  lemma RequestServed(c: Client, s: Server, w: World, paths: seq<string>, width: nat, height: nat,
                      replies: seq<ServerWire.Reply>, more: seq<byte>, events: seq<ReadEvent>, attempts: seq<AttemptScript>)
    requires c.currentCommand.None?
    requires Coherent(s) && |s.images| + |paths| < U32_LIMIT
    requires width < U32_LIMIT && height < U32_LIMIT && Text.NoSep(paths, Text.SEP)
    requires |Utf8.Encode(GetsText(paths, width, height))| < U32_LIMIT
    requires ServerWire.Generous(replies, 4) && |replies| > |Utf8.Encode(GetsText(paths, width, height))|
    requires |attempts| == MAX_RETRY && attempts[0].header.Written? && attempts[0].body.Written?
    requires var served := ReadCommand(s, w, ServerWire.Inbound(GetsWrite(paths, width, height, attempts[0]).wire, replies)).0;
             && served.status.Done? && Frameable(served.served)
             && attempts[0].incoming == Incoming(served.out + more, events)
             && Answers(events, 4) && |events| >= |served.out|
    ensures var served := ReadCommand(s, w, ServerWire.Inbound(GetsWrite(paths, width, height, attempts[0]).wire, replies)).0;
            var r := AskForImagesIntended(c, paths, width, height, attempts);
            && r.Asked? && r.outcome == Returned(served.served) && r.client.currentCommand == None
            && |r.outcome.value| == |paths|
            && forall i :: 0 <= i < |paths| ==> GetFromCache(served.state, paths[i]) == Ok(Some(r.outcome.value[i]))
  {
    var text := GetsText(paths, width, height);
    var sent := GetsWrite(paths, width, height, attempts[0]);
    assert sent.wire == Frame(Utf8.Encode(text));
    GetsRoundTrip(s, w, paths, width, height, replies);
    var served := ReadCommand(s, w, ServerWire.Inbound(sent.wire, replies)).0;
    assert served == GetsImages(s, w, width, height, paths);
    GetsInOrder(s, w, width, height, paths);
    ResponseArrives(served, more, events, |paths|);
    var run := RunAttempt(paths, width, height, attempts[0]);
    assert run.end == Finished && run.output == served.served;
    var runs, reopens := Runs(paths, width, height, attempts), Reopens(attempts);
    assert RetryIntended(c, text, runs, reopens, 0, 0).outcome == Returned(served.served);
  }
}
