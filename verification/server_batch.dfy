/** Serving images: `get_image` (cache hit, or load, render, cache and send)
    and `gets_images` (the "all cached" shortcut, or the split of the batch
    over `GETS_THREAD_COUNT` workers whose outputs are written back in chunk
    order). The workers run here one after another, in chunk order. */
module Batch {
  import opened Bytes
  import opened Optional
  import opened Cache
  import ServerWire

  const GETS_THREAD_COUNT: nat := 12

  // ---- partitioning ----

  function Flatten<T>(xss: seq<seq<T>>): seq<T>
  {
    if |xss| == 0 then [] else xss[0] + Flatten(xss[1..])
  }

  lemma {:induction false} FlattenAppend<T>(a: seq<seq<T>>, b: seq<seq<T>>)
    ensures Flatten(a + b) == Flatten(a) + Flatten(b)
    decreases |a|
  {
    if |a| == 0 {
      assert a + b == b;
    } else {
      assert (a + b)[1..] == a[1..] + b;
      FlattenAppend(a[1..], b);
    }
  }

  /** Rust's `slice.chunks(k)`: consecutive pieces of length `k`, the last one
      possibly shorter, none empty. */
  function Chunks<T>(s: seq<T>, k: nat): (cs: seq<seq<T>>)
    requires k >= 1
    ensures Flatten(cs) == s
    ensures forall i :: 0 <= i < |cs| ==> 1 <= |cs[i]| <= k
    ensures forall i :: 0 <= i < |cs| - 1 ==> |cs[i]| == k
    ensures |cs| * k >= |s|
    decreases |s|
  {
    if |s| == 0 then []
    else if |s| <= k then
      assert Flatten([s]) == s + Flatten([s][1..]);
      [s]
    else
      var rest := Chunks(s[k..], k);
      assert ([s[..k]] + rest)[1..] == rest;
      assert s[..k] + s[k..] == s;
      assert (1 + |rest|) * k == k + |rest| * k;
      [s[..k]] + rest
  }

  /** The `while thread_chunks.len() > GETS_THREAD_COUNT` loop: pop the last
      chunk and append it to the chunk that is now last. */
  function MergeTrailing<T>(cs: seq<seq<T>>, limit: nat): (r: seq<seq<T>>)
    requires limit >= 1
    ensures |r| == if |cs| <= limit then |cs| else limit
    ensures Flatten(r) == Flatten(cs)
    ensures forall i :: 0 <= i < |r| - 1 ==> r[i] == cs[i]
    decreases |cs|
  {
    if |cs| <= limit then cs
    else
      var n := |cs|;
      var merged := cs[..n - 2] + [cs[n - 2] + cs[n - 1]];
      assert Flatten(merged) == Flatten(cs) by {
        FlattenAppend(cs[..n - 2], [cs[n - 2] + cs[n - 1]]);
        FlattenAppend(cs[..n - 2], [cs[n - 2], cs[n - 1]]);
        assert cs[..n - 2] + [cs[n - 2], cs[n - 1]] == cs;
        assert Flatten([cs[n - 2], cs[n - 1]]) == cs[n - 2] + Flatten([cs[n - 1]]);
        assert Flatten([cs[n - 2] + cs[n - 1]]) == cs[n - 2] + cs[n - 1] + Flatten([]);
        assert Flatten([cs[n - 1]]) == cs[n - 1] + Flatten([]);
      }
      MergeTrailing(merged, limit)
  }

  /** The chunking of `gets_images`: `paths.chunks(paths.len() / 12)`, then
      trailing chunks merged until at most 12 remain. A chunk size of zero
      (fewer than 12 paths) makes `chunks` panic: `None`. */
  function Partition(paths: seq<string>): (r: Option<seq<seq<string>>>)
    ensures r.None? <==> |paths| < GETS_THREAD_COUNT
    ensures r.Some? ==> Flatten(r.value) == paths
    ensures r.Some? ==> |r.value| <= GETS_THREAD_COUNT
  {
    var k := |paths| / GETS_THREAD_COUNT;
    if k == 0 then None
    else Some(MergeTrailing(Chunks(paths, k), GETS_THREAD_COUNT))
  }

  /** For 12 paths or more there are exactly 12 chunks, so every
      `thread_channels[i]` exists; all but the last hold `n / 12` paths, the
      last holds the rest. */
  lemma PartitionShape(paths: seq<string>)
    requires |paths| >= GETS_THREAD_COUNT
    ensures var cs := Partition(paths).value;
            && |cs| == GETS_THREAD_COUNT
            && (forall i :: 0 <= i < |cs| - 1 ==> |cs[i]| == |paths| / GETS_THREAD_COUNT)
            && |cs[|cs| - 1]| == |paths| - (GETS_THREAD_COUNT - 1) * (|paths| / GETS_THREAD_COUNT)
  {
    var n, k := |paths|, |paths| / GETS_THREAD_COUNT;
    var c := Chunks(paths, k);
    assert n >= 12 * k;
    var cs := MergeTrailing(c, GETS_THREAD_COUNT);
    assert |cs| == 12;
    FlattenAppend(cs[..11], [cs[11]]);
    assert cs[..11] + [cs[11]] == cs;
    LengthOfFlatten(cs[..11], k);
  }

  lemma {:induction false} LengthOfFlatten<T>(cs: seq<seq<T>>, k: nat)
    requires forall i :: 0 <= i < |cs| ==> |cs[i]| == k
    ensures |Flatten(cs)| == |cs| * k
    decreases |cs|
  {
    if |cs| > 0 {
      LengthOfFlatten(cs[1..], k);
      assert |cs| * k == k + (|cs| - 1) * k;
    }
  }

  // ---- serving one image ----

  /** How a server step ended: normally, with an `Err`, with a panic, or
      waiting forever on a read. */
  datatype Status = Done | Failed(fault: Fault) | Panicked | Blocked

  /** One step of the server: how it ended, the state after it, the bytes it
      wrote to the client, and the images those bytes carry. */
  datatype Step = Step(status: Status, state: Server, out: seq<byte>, served: seq<seq<byte>>)

  /** The images sent one after another with `send_image`. */
  function Sent(imgs: seq<seq<byte>>): seq<byte>
  {
    if |imgs| == 0 then [] else ServerWire.SendImage(imgs[0]) + Sent(imgs[1..])
  }

  /** With every image under 4 GiB, what the server sends is exactly the
      frames of the images. */
  lemma {:induction false} SentAreFrames(imgs: seq<seq<byte>>)
    requires Frameable(imgs)
    ensures Sent(imgs) == Frames(imgs)
    decreases |imgs|
  {
    if |imgs| > 0 {
      SentAreFrames(imgs[1..]);
    }
  }

  datatype Source = Loaded(raw: seq<byte>) | LoadFailed(fault: Fault) | LoadPanicked

  function StartsWith(s: string, prefix: string): bool
  {
    |prefix| <= |s| && s[..|prefix|] == prefix
  }

  /** The raw bytes of a cache miss: an `https://` path is fetched, any other
      path is read from the file system, which first needs `setup`. Whether
      reads are threaded only decides locking, not the bytes. */
  function LoadSource(s: Server, w: World, path: string): Source
  {
    if StartsWith(path, "https://") then
      match w.fetch(path)
      case Body(bytes) => Loaded(bytes)
      case HttpError => LoadFailed(FetchFailed)
      case BodyPanics => LoadPanicked
    else if s.threadedReads.None? then LoadFailed(NotSetup)
    else if path in s.disk then Loaded(s.disk[path])
    else LoadFailed(FileMissing)
  }

  /** `get_image`: a cache hit is sent as stored; a miss is loaded, rendered
      at the requested size, cached, then sent. Nothing is written unless the
      whole step succeeds. */
  function GetImage(s: Server, w: World, path: string, width: nat, height: nat): (r: Step)
    ensures r.status.Done? ==> |r.served| == 1 && r.out == ServerWire.SendImage(r.served[0])
    ensures !r.status.Done? ==> r.out == [] && r.served == [] && r.state == s
  {
    match GetFromCache(s, path)
    case Err(f) => Step(Failed(f), s, [], [])
    case Ok(Some(bytes)) => Step(Done, s, ServerWire.SendImage(bytes), [bytes])
    case Ok(None) =>
      match LoadSource(s, w, path)
      case LoadFailed(f) => Step(Failed(f), s, [], [])
      case LoadPanicked => Step(Panicked, s, [], [])
      case Loaded(raw) =>
        match w.render(raw, width, height)
        case None => Step(Failed(ImageFailed), s, [], [])
        case Some(img) =>
          match CacheImg(s, w, path, img)
          case Err(f) => Step(Failed(f), s, [], [])
          case Ok(t) => Step(Done, t, ServerWire.SendImage(img), [img])
  }

  /** The hit/miss flow of `get_image`: a hit sends the cached bytes and
      changes nothing; a successful miss sends the rendering of the loaded
      bytes, and caches exactly that. */
  lemma GetImageFlow(s: Server, w: World, path: string, width: nat, height: nat)
    ensures var r := GetImage(s, w, path, width, height);
            && (r.status.Done? && path in s.images ==> r.state == s && GetFromCache(s, path) == Ok(Some(r.served[0])))
            && (r.status.Done? && path !in s.images ==>
                  && LoadSource(s, w, path).Loaded?
                  && w.render(LoadSource(s, w, path).raw, width, height) == Some(r.served[0])
                  && CacheImg(s, w, path, r.served[0]) == Ok(r.state))
  {
  }

  /** The cache only grows, one entry at most, and its other parts stay. */
  ghost predicate Grows(s: Server, t: Server, extra: nat)
  {
    && s.images.Keys <= t.images.Keys
    && |t.images| <= |s.images| + extra
    && t.cachedPaths == s.cachedPaths
    && t.cacheDir == s.cacheDir && t.threadedReads == s.threadedReads
  }

  /** On a coherent cache, a served image is what the cache holds for the
      path afterwards, and every path cached before reads as before. */
  lemma GetImageServes(s: Server, w: World, path: string, width: nat, height: nat)
    requires Coherent(s) && |s.images| + 1 < U32_LIMIT
    ensures var r := GetImage(s, w, path, width, height);
            && Grows(s, r.state, 1) && Coherent(r.state)
            && (r.status.Done? ==> GetFromCache(r.state, path) == Ok(Some(r.served[0])))
            && forall q :: q in s.images ==> GetFromCache(r.state, q) == GetFromCache(s, q)
  {
    var r := GetImage(s, w, path, width, height);
    GetImageFlow(s, w, path, width, height);
    if r.status.Done? && path !in s.images {
      var t := r.state;
      assert t == CacheImg(s, w, path, r.served[0]).value;
      CacheImgFresh(s, w, path, r.served[0]);
      assert t.images == s.images[path := t.images[path]];
      assert |t.images| == |s.images| + 1;
      forall q | q in s.images
        ensures GetFromCache(t, q) == GetFromCache(s, q)
      {
        assert q != path;
      }
    } else {
      assert r.state == s;
    }
  }

  /** `rest` run after `first`: its ending and state, both outputs in order. */
  function Then(first: Step, rest: Step): Step
  {
    Step(rest.status, rest.state, first.out + rest.out, first.served + rest.served)
  }

  lemma ThenAssoc(a: Step, b: Step, c: Step)
    ensures Then(a, Then(b, c)) == Then(Then(a, b), c)
  {
    assert a.out + (b.out + c.out) == (a.out + b.out) + c.out;
    assert a.served + (b.served + c.served) == (a.served + b.served) + c.served;
  }

  /** `for path in paths { get_image(..)? }`: serve each path in order,
      stopping at the first that does not succeed. */
  function RunPaths(s: Server, w: World, width: nat, height: nat, paths: seq<string>): (r: Step)
    ensures r.out == Sent(r.served)
    ensures |r.served| <= |paths|
    ensures r.status.Done? ==> |r.served| == |paths|
    decreases |paths|
  {
    if |paths| == 0 then Step(Done, s, [], [])
    else
      var first := GetImage(s, w, paths[0], width, height);
      if !first.status.Done? then first
      else
        var rest := RunPaths(first.state, w, width, height, paths[1..]);
        assert first.served + rest.served == [first.served[0]] + rest.served;
        assert ([first.served[0]] + rest.served)[1..] == rest.served;
        Then(first, rest)
  }

  /** Serving a batch from a coherent cache keeps it coherent, only adds
      entries (at most one per path), and every path cached before reads as
      before. */
  lemma {:induction false} RunPathsKeeps(s: Server, w: World, width: nat, height: nat, paths: seq<string>)
    requires Coherent(s) && |s.images| + |paths| < U32_LIMIT
    ensures var r := RunPaths(s, w, width, height, paths);
            && Grows(s, r.state, |paths|) && Coherent(r.state)
            && (forall q :: q in s.images ==> GetFromCache(r.state, q) == GetFromCache(s, q))
    decreases |paths|
  {
    if |paths| > 0 {
      var first := GetImage(s, w, paths[0], width, height);
      GetImageServes(s, w, paths[0], width, height);
      if first.status.Done? {
        RunPathsKeeps(first.state, w, width, height, paths[1..]);
        assert RunPaths(s, w, width, height, paths) == Then(first, RunPaths(first.state, w, width, height, paths[1..]));
      }
    }
  }

  /** Responses follow path order: after a successful batch, the i-th image
      sent is what the cache holds for the i-th path. */
  lemma {:induction false} RunPathsInOrder(s: Server, w: World, width: nat, height: nat, paths: seq<string>)
    requires Coherent(s) && |s.images| + |paths| < U32_LIMIT
    ensures var r := RunPaths(s, w, width, height, paths);
            r.status.Done? ==> forall i :: 0 <= i < |paths| ==> GetFromCache(r.state, paths[i]) == Ok(Some(r.served[i]))
    decreases |paths|
  {
    if |paths| > 0 {
      var first := GetImage(s, w, paths[0], width, height);
      GetImageServes(s, w, paths[0], width, height);
      if first.status.Done? {
        var t := first.state;
        var rest := RunPaths(t, w, width, height, paths[1..]);
        RunPathsInOrder(t, w, width, height, paths[1..]);
        RunPathsKeeps(t, w, width, height, paths[1..]);
        var r := RunPaths(s, w, width, height, paths);
        assert r == Then(first, rest);
        if rest.status.Done? {
          forall i | 0 <= i < |paths|
            ensures GetFromCache(r.state, paths[i]) == Ok(Some(r.served[i]))
          {
            if i == 0 {
              assert paths[0] in t.images;
            } else {
              assert paths[i] == paths[1..][i - 1];
              assert r.served[i] == rest.served[i - 1];
            }
          }
        }
      }
    }
  }

  /** Serving `a + b` is serving `a`, then `b` from where `a` left off. */
  lemma {:induction false} RunPathsAppend(s: Server, w: World, width: nat, height: nat, a: seq<string>, b: seq<string>)
    ensures var ra := RunPaths(s, w, width, height, a);
            RunPaths(s, w, width, height, a + b)
              == if ra.status.Done? then Then(ra, RunPaths(ra.state, w, width, height, b)) else ra
    decreases |a|
  {
    if |a| == 0 {
      assert a + b == b;
    } else {
      var first := GetImage(s, w, a[0], width, height);
      assert (a + b)[0] == a[0] && (a + b)[1..] == a[1..] + b;
      if first.status.Done? {
        var t := first.state;
        RunPathsAppend(t, w, width, height, a[1..], b);
        var ra1 := RunPaths(t, w, width, height, a[1..]);
        assert RunPaths(s, w, width, height, a) == Then(first, ra1);
        assert RunPaths(s, w, width, height, a + b) == Then(first, RunPaths(t, w, width, height, a[1..] + b));
        if ra1.status.Done? {
          ThenAssoc(first, ra1, RunPaths(ra1.state, w, width, height, b));
        }
      }
    }
  }

  // ---- the batch ----

  /** The workers in chunk order: worker i serves its chunk into its own
      buffer, which the main thread writes out only if the worker finished.
      A worker that fails or panics drops its channel, and the main thread's
      `recv()?` returns an error after the earlier chunks were written. */
  function RunChunks(s: Server, w: World, width: nat, height: nat, chunks: seq<seq<string>>): (r: Step)
    ensures r.status.Done? || r.status == Failed(WorkerFailed)
    decreases |chunks|
  {
    if |chunks| == 0 then Step(Done, s, [], [])
    else
      var first := RunPaths(s, w, width, height, chunks[0]);
      if !first.status.Done? then Step(Failed(WorkerFailed), first.state, [], [])
      else
        Then(first, RunChunks(first.state, w, width, height, chunks[1..]))
  }

  /** Running the chunks succeeds exactly when serving the paths in order
      does, and then with the same bytes, images and cache: chunking neither
      reorders nor changes the response. */
  lemma {:induction false} ChunksAsSequential(s: Server, w: World, width: nat, height: nat, chunks: seq<seq<string>>)
    ensures var rc := RunChunks(s, w, width, height, chunks);
            var rp := RunPaths(s, w, width, height, Flatten(chunks));
            && (rc.status.Done? <==> rp.status.Done?)
            && (rc.status.Done? ==> rc == rp)
    decreases |chunks|
  {
    if |chunks| > 0 {
      RunPathsAppend(s, w, width, height, chunks[0], Flatten(chunks[1..]));
      var first := RunPaths(s, w, width, height, chunks[0]);
      if first.status.Done? {
        ChunksAsSequential(first.state, w, width, height, chunks[1..]);
      }
    }
  }

  /** Running the chunks from a coherent cache keeps it coherent and only
      adds entries, whichever worker fails: the chunks before it have cached
      their images and the failing chunk stopped part-way. */
  lemma {:induction false} RunChunksKeeps(s: Server, w: World, width: nat, height: nat, chunks: seq<seq<string>>)
    requires Coherent(s) && |s.images| + |Flatten(chunks)| < U32_LIMIT
    ensures var r := RunChunks(s, w, width, height, chunks);
            Grows(s, r.state, |Flatten(chunks)|) && Coherent(r.state)
    decreases |chunks|
  {
    if |chunks| > 0 {
      RunPathsKeeps(s, w, width, height, chunks[0]);
      var first := RunPaths(s, w, width, height, chunks[0]);
      if first.status.Done? {
        RunChunksKeeps(first.state, w, width, height, chunks[1..]);
      }
    }
  }

  /** Whatever the ending, the bytes the chunked run writes are a prefix of
      what serving all paths in order writes: a failing worker leaves the
      buffers of the chunks before it on the wire, and nothing after. */
  lemma {:induction false} RunChunksWritesPrefix(s: Server, w: World, width: nat, height: nat, chunks: seq<seq<string>>)
    ensures RunChunks(s, w, width, height, chunks).out <= RunPaths(s, w, width, height, Flatten(chunks)).out
    decreases |chunks|
  {
    if |chunks| > 0 {
      RunPathsAppend(s, w, width, height, chunks[0], Flatten(chunks[1..]));
      var first := RunPaths(s, w, width, height, chunks[0]);
      if first.status.Done? {
        RunChunksWritesPrefix(first.state, w, width, height, chunks[1..]);
        var a := RunChunks(first.state, w, width, height, chunks[1..]).out;
        var b := RunPaths(first.state, w, width, height, Flatten(chunks[1..])).out;
        assert first.out + a <= first.out + b by {
          assert a == b[..|a|];
          assert first.out + a == (first.out + b)[..|first.out + a|];
        }
      }
    }
  }

  /** The key `gets_images` files a served batch under: `paths.join("")`. */
  function BatchKey(paths: seq<string>): string
  {
    Flatten(paths)
  }

  /** `gets_images`: a batch whose key was seen before is served path by path
      on the connection's thread; otherwise it is split over the workers,
      and on success its key is added to the cached-paths set. */
  function GetsImages(s: Server, w: World, width: nat, height: nat, paths: seq<string>): (r: Step)
    ensures BatchKey(paths) !in s.cachedPaths && |paths| < GETS_THREAD_COUNT ==> r.status.Panicked? && r.state == s && r.out == []
    ensures r.status.Done? ==> BatchKey(paths) in r.state.cachedPaths && |r.served| == |paths|
    ensures r.status.Done? ==>
              var seqRun := RunPaths(s, w, width, height, paths);
              && seqRun.status.Done?
              && r.out == seqRun.out && r.served == seqRun.served
              && r.state == seqRun.state.(cachedPaths := seqRun.state.cachedPaths + {BatchKey(paths)})
  {
    var key := BatchKey(paths);
    if key in s.cachedPaths then
      var r := RunPaths(s, w, width, height, paths);
      assert r.status.Done? ==> r.state.cachedPaths == s.cachedPaths by {
        if r.status.Done? { RunPathsKeepsKeys(s, w, width, height, paths); }
      }
      r
    else
      match Partition(paths)
      case None => Step(Panicked, s, [], [])
      case Some(chunks) =>
        var r := RunChunks(s, w, width, height, chunks);
        ChunksAsSequential(s, w, width, height, chunks);
        if r.status.Done? then r.(state := r.state.(cachedPaths := r.state.cachedPaths + {key}))
        else r
  }

  /** The order guarantee of a whole `gets`: on a coherent cache, a
      successful batch leaves the cache coherent and its i-th image is what
      the cache holds for the i-th path. */
  lemma GetsInOrder(s: Server, w: World, width: nat, height: nat, paths: seq<string>)
    requires Coherent(s) && |s.images| + |paths| < U32_LIMIT
    ensures var r := GetsImages(s, w, width, height, paths);
            r.status.Done? ==>
              && Coherent(r.state)
              && forall i :: 0 <= i < |paths| ==> GetFromCache(r.state, paths[i]) == Ok(Some(r.served[i]))
  {
    RunPathsInOrder(s, w, width, height, paths);
    RunPathsKeeps(s, w, width, height, paths);
  }

  /** A whole `gets`, whatever its ending, keeps a coherent cache coherent
      and adds at most one entry per path. */
  lemma GetsImagesKeeps(s: Server, w: World, width: nat, height: nat, paths: seq<string>)
    requires Coherent(s) && |s.images| + |paths| < U32_LIMIT
    ensures var r := GetsImages(s, w, width, height, paths);
            && s.images.Keys <= r.state.images.Keys && |r.state.images| <= |s.images| + |paths|
            && Coherent(r.state)
  {
    if BatchKey(paths) in s.cachedPaths {
      RunPathsKeeps(s, w, width, height, paths);
    } else if |paths| >= GETS_THREAD_COUNT {
      RunChunksKeeps(s, w, width, height, Partition(paths).value);
    }
  }

  /** Serving paths never touches the set of batch keys. */
  lemma {:induction false} RunPathsKeepsKeys(s: Server, w: World, width: nat, height: nat, paths: seq<string>)
    ensures RunPaths(s, w, width, height, paths).state.cachedPaths == s.cachedPaths
    decreases |paths|
  {
    if |paths| > 0 {
      var first := GetImage(s, w, paths[0], width, height);
      if first.status.Done? {
        if paths[0] !in s.images {
          assert first.state.cachedPaths == s.cachedPaths;
        }
        RunPathsKeepsKeys(first.state, w, width, height, paths[1..]);
      }
    }
  }

  /** Batch keys are plain concatenations, so two different batches can share
      one: after `["ab", "c"]` is served, `["a", "bc"]` takes the "all
      cached" path although neither "a" nor "bc" was ever cached. */
  lemma BatchKeysCollide(s: Server, w: World, width: nat, height: nat)
    requires BatchKey(["ab", "c"]) in s.cachedPaths
    ensures BatchKey(["ab", "c"]) == BatchKey(["a", "bc"])
    ensures GetsImages(s, w, width, height, ["a", "bc"]) == RunPaths(s, w, width, height, ["a", "bc"])
  {
    assert BatchKey(["ab", "c"]) == "ab" + BatchKey(["c"]);
    assert BatchKey(["a", "bc"]) == "a" + BatchKey(["bc"]);
  }
}
