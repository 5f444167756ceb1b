/** The server's cache state and the operations on it: `setup`,
    `get_disk_cache_path`, `cache_img`, `get_from_cache` and `clear_cache`.
    The two `OnceCell`s, the shared `(CachedImages, CachedPaths)` pair and the
    file system are one immutable value; the lock around the pair is left out
    because the model runs one operation at a time. */
module Cache {
  import opened Bytes
  import opened Optional
  import Text

  /** `MIN_AVAILABLE_MEMORY`, in the units `cache_img` divides by. */
  const MIN_AVAILABLE_MEMORY: nat := 2
  const GIGABYTE: nat := 1_000_000_000

  /** `CacheType`: an image kept as a numbered file in the cache directory,
      or kept in memory. */
  datatype CacheType = OnDisk(id: nat) | InMemory(bytes: seq<byte>)

  datatype Server = Server(
    cacheDir: Option<string>,          // CACHE_DIR
    threadedReads: Option<bool>,       // THREADED_READS
    images: map<string, CacheType>,    // CachedImages
    cachedPaths: set<string>,          // CachedPaths: keys of batches served whole
    disk: map<string, seq<byte>>)      // the files the server reads and writes

  /** The state `main` starts from, over a given file system. */
  function Start(disk: map<string, seq<byte>>): Server
  {
    Server(None, None, map[], {}, disk)
  }

  /** Why an operation returned `Err`. */
  datatype Fault = NotSetup | FileMissing | ChdirFailed | FetchFailed | ImageFailed | WorkerFailed | ReadFailed

  datatype Result<T> = Ok(value: T) | Err(fault: Fault)

  /** What the server cannot decide itself: whether `set_current_dir`
      succeeds, the available memory `sysinfo` reports, the HTTPS fetch and
      the decode-resize-BMP pipeline of the `image` crate. */
  datatype World = World(
    chdirOk: string -> bool,
    availableMemory: nat,
    fetch: string -> Fetched,
    render: (seq<byte>, nat, nat) -> Option<seq<byte>>)

  /** The result of `reqwest::blocking::get(path)`, `error_for_status()` and
      `bytes().unwrap()`. */
  datatype Fetched = Body(bytes: seq<byte>) | HttpError | BodyPanics

  /** `setup`: change directory first (which may fail even when already set
      up), then set both cells on the first call only. */
  function SetUp(s: Server, w: World, cacheDir: string, workingDir: string, threaded: bool): (r: Result<Server>)
    ensures r.Err? <==> !w.chdirOk(workingDir)
    ensures r.Ok? ==> r.value.images == s.images && r.value.cachedPaths == s.cachedPaths && r.value.disk == s.disk
    ensures r.Ok? ==> r.value.cacheDir.Some?
    ensures r.Ok? && s.cacheDir.None? ==> r.value.cacheDir == Some(cacheDir) && r.value.threadedReads == Some(threaded)
    ensures r.Ok? && s.cacheDir.Some? ==> r.value == s
  {
    if !w.chdirOk(workingDir) then Err(ChdirFailed)
    else if s.cacheDir.Some? then Ok(s)
    else Ok(s.(cacheDir := Some(cacheDir), threadedReads := Some(threaded)))
  }

  /** The file name of disk entry `id` under cache directory `dir`. */
  function CacheFile(dir: string, id: nat): string
  {
    dir + "/" + Text.Decimal(id) + ".bmp"
  }

  lemma CacheFileInjective(dir: string, i: nat, j: nat)
    requires CacheFile(dir, i) == CacheFile(dir, j)
    ensures i == j
  {
    var a, b := Text.Decimal(i), Text.Decimal(j);
    var x, y := CacheFile(dir, i), CacheFile(dir, j);
    assert |a| == |b|;
    assert a == x[|dir| + 1..|dir| + 1 + |a|];
    assert b == y[|dir| + 1..|dir| + 1 + |b|];
    Text.DecimalInjective(i, j);
  }

  /** `get_disk_cache_path`: `"<CACHE_DIR>/<id>.bmp"`, or "Not setup". */
  function DiskCachePath(s: Server, id: nat): (r: Result<string>)
    ensures r.Err? <==> s.cacheDir.None?
    ensures r.Err? ==> r.fault == NotSetup
    ensures r.Ok? ==> r.value == CacheFile(s.cacheDir.value, id)
  {
    match s.cacheDir
    case None => Err(NotSetup)
    case Some(dir) => Ok(CacheFile(dir, id))
  }

  /** The branch `cache_img` takes: disk when the integer number of whole
      gigabytes available is below `MIN_AVAILABLE_MEMORY`. */
  predicate LowMemory(w: World)
  {
    w.availableMemory / GIGABYTE < MIN_AVAILABLE_MEMORY
  }

  /** `cache_img`: on low memory write the bytes to file number
      `cached_images.len() as u32` and record that number, otherwise keep the
      bytes in memory. Failing to find the cache directory leaves everything
      as it was. */
  function CacheImg(s: Server, w: World, path: string, bytes: seq<byte>): (r: Result<Server>)
    ensures r.Err? <==> LowMemory(w) && s.cacheDir.None?
    ensures r.Ok? ==> path in r.value.images && r.value.images == s.images[path := r.value.images[path]]
    ensures r.Ok? ==> r.value.cacheDir == s.cacheDir && r.value.threadedReads == s.threadedReads
    ensures r.Ok? ==> r.value.cachedPaths == s.cachedPaths
    ensures r.Ok? && !LowMemory(w) ==> r.value.images[path] == InMemory(bytes) && r.value.disk == s.disk
    ensures r.Ok? && LowMemory(w) ==>
              var id := |s.images| % U32_LIMIT;
              && r.value.images[path] == OnDisk(id)
              && r.value.disk == s.disk[CacheFile(s.cacheDir.value, id) := bytes]
  {
    if LowMemory(w) then
      var id := |s.images| % U32_LIMIT;
      match DiskCachePath(s, id)
      case Err(f) => Err(f)
      case Ok(file) => Ok(s.(disk := s.disk[file := bytes], images := s.images[path := OnDisk(id)]))
    else Ok(s.(images := s.images[path := InMemory(bytes)]))
  }

  /** `get_from_cache`: a miss is `Ok(None)`; a memory entry is its bytes; a
      disk entry is the content of its file, an error when the file is gone. */
  function GetFromCache(s: Server, path: string): (r: Result<Option<seq<byte>>>)
    ensures path !in s.images <==> r == Ok(None)
    ensures path in s.images && s.images[path].InMemory? ==> r == Ok(Some(s.images[path].bytes))
  {
    if path !in s.images then Ok(None)
    else match s.images[path]
      case InMemory(bytes) => Ok(Some(bytes))
      case OnDisk(id) =>
        match DiskCachePath(s, id)
        case Err(f) => Err(f)
        case Ok(file) => if file in s.disk then Ok(Some(s.disk[file])) else Err(FileMissing)
  }

  /** A disk entry reads as the content of its file, and the lookup fails
      exactly when there is no cache directory or the file is gone. */
  lemma GetFromCacheDisk(s: Server, path: string)
    requires path in s.images && s.images[path].OnDisk?
    ensures var r := GetFromCache(s, path);
            && (r.Ok? <==> s.cacheDir.Some? && CacheFile(s.cacheDir.value, s.images[path].id) in s.disk)
            && (r.Ok? ==> r.value == Some(s.disk[CacheFile(s.cacheDir.value, s.images[path].id)]))
  {
  }

  /** The files `clear_cache` tries to remove. */
  function CacheFiles(s: Server): set<string>
  {
    if s.cacheDir.None? then {}
    else set p | p in s.images && s.images[p].OnDisk? :: CacheFile(s.cacheDir.value, s.images[p].id)
  }

  /** Some disk entry cannot be removed: no cache directory, or no file. */
  predicate RemovalFails(s: Server)
  {
    exists p :: p in s.images && s.images[p].OnDisk? &&
      (s.cacheDir.None? || CacheFile(s.cacheDir.value, s.images[p].id) !in s.disk)
  }

  /** `clear_cache`: empty the batch keys, drain the image map and remove the
      file of every disk entry. The drain empties the map even when a removal
      fails and the function returns early. */
  function ClearCache(s: Server): (r: (Result<()>, Server))
    ensures r.1.images == map[] && r.1.cachedPaths == {}
    ensures r.1.cacheDir == s.cacheDir && r.1.threadedReads == s.threadedReads
    ensures r.0.Err? <==> RemovalFails(s)
    ensures forall f :: f in r.1.disk <==> f in s.disk && f !in CacheFiles(s)
  {
    var status := if RemovalFails(s) then Err(FileMissing) else Ok(());
    (status, s.(images := map[], cachedPaths := {}, disk := s.disk - CacheFiles(s)))
  }

  /** After `clear_cache`, every lookup misses. */
  lemma ClearCacheForgetsAll(s: Server, path: string)
    ensures GetFromCache(ClearCache(s).1, path) == Ok(None)
  {
  }

  /** The cache invariant: disk ids are below the number of entries (so the
      next id is unused), every disk entry's file exists, and the entry count
      still fits a `u32`. */
  ghost predicate Coherent(s: Server)
  {
    && |s.images| < U32_LIMIT
    && forall p :: p in s.images && s.images[p].OnDisk? ==>
         && s.images[p].id < |s.images|
         && s.cacheDir.Some?
         && CacheFile(s.cacheDir.value, s.images[p].id) in s.disk
  }

  lemma StartCoherent(disk: map<string, seq<byte>>)
    ensures Coherent(Start(disk))
  {
  }

  /** Every lookup of a path in a coherent cache succeeds. */
  lemma CoherentLookup(s: Server, path: string)
    requires Coherent(s) && path in s.images
    ensures GetFromCache(s, path).Ok? && GetFromCache(s, path).value.Some?
  {
  }

  /** A lookup depends only on the path's entry, the cache directory and
      that entry's file. */
  lemma SameLookup(s: Server, t: Server, q: string)
    requires (q in s.images <==> q in t.images) && (q in s.images ==> t.images[q] == s.images[q])
    requires t.cacheDir == s.cacheDir
    requires q in s.images && s.images[q].OnDisk? && s.cacheDir.Some? ==>
               var f := CacheFile(s.cacheDir.value, s.images[q].id);
               (f in t.disk <==> f in s.disk) && (f in s.disk ==> t.disk[f] == s.disk[f])
    ensures GetFromCache(t, q) == GetFromCache(s, q)
  {
  }

  /** The file a new disk entry is written to belongs to no existing entry
      of a coherent cache. */
  lemma FreshFile(s: Server, q: string)
    requires Coherent(s) && q in s.images && s.images[q].OnDisk?
    ensures CacheFile(s.cacheDir.value, s.images[q].id) != CacheFile(s.cacheDir.value, |s.images|)
  {
    if CacheFile(s.cacheDir.value, s.images[q].id) == CacheFile(s.cacheDir.value, |s.images|) {
      CacheFileInjective(s.cacheDir.value, s.images[q].id, |s.images|);
    }
  }

  /** Caching a new path leaves every other path reading as before. */
  lemma CacheImgKeepsOthers(s: Server, w: World, path: string, bytes: seq<byte>, q: string)
    requires Coherent(s) && path !in s.images && |s.images| + 1 < U32_LIMIT
    requires CacheImg(s, w, path, bytes).Ok? && q != path
    ensures GetFromCache(CacheImg(s, w, path, bytes).value, q) == GetFromCache(s, q)
  {
    var t := CacheImg(s, w, path, bytes).value;
    if LowMemory(w) && q in s.images && s.images[q].OnDisk? {
      FreshFile(s, q);
    }
    SameLookup(s, t, q);
  }

  /** Caching a new path keeps the cache coherent. */
  lemma CacheImgCoherent(s: Server, w: World, path: string, bytes: seq<byte>)
    requires Coherent(s) && path !in s.images && |s.images| + 1 < U32_LIMIT
    requires CacheImg(s, w, path, bytes).Ok?
    ensures Coherent(CacheImg(s, w, path, bytes).value)
  {
    var t := CacheImg(s, w, path, bytes).value;
    assert |t.images| == |s.images| + 1 by {
      assert t.images == s.images[path := t.images[path]];
    }
    assert s.disk.Keys <= t.disk.Keys;
    forall p | p in t.images && t.images[p].OnDisk?
      ensures t.images[p].id < |t.images| && t.cacheDir.Some? && CacheFile(t.cacheDir.value, t.images[p].id) in t.disk
    {
      if p == path {
        assert LowMemory(w) && t.images[p].id == |s.images|;
      } else {
        assert p in s.images && t.images[p] == s.images[p];
      }
    }
  }

  /** Caching a new path keeps the cache coherent, makes the path read back
      as the cached bytes, and leaves every other path reading as before:
      the new disk id cannot overwrite another entry's file. */
  lemma CacheImgFresh(s: Server, w: World, path: string, bytes: seq<byte>)
    requires Coherent(s) && path !in s.images && |s.images| + 1 < U32_LIMIT
    requires CacheImg(s, w, path, bytes).Ok?
    ensures var t := CacheImg(s, w, path, bytes).value;
            && Coherent(t)
            && GetFromCache(t, path) == Ok(Some(bytes))
            && forall q :: q != path ==> GetFromCache(t, q) == GetFromCache(s, q)
  {
    CacheImgCoherent(s, w, path, bytes);
    forall q | q != path
      ensures GetFromCache(CacheImg(s, w, path, bytes).value, q) == GetFromCache(s, q)
    {
      CacheImgKeepsOthers(s, w, path, bytes, q);
    }
  }

  /** A coherent cache clears without error. */
  lemma ClearCoherent(s: Server)
    requires Coherent(s)
    ensures ClearCache(s).0 == Ok(())
  {
  }

  /** `setup` keeps a cache coherent: before the first call there is no
      cache directory, so no entry is on disk yet. */
  lemma SetUpCoherent(s: Server, w: World, cacheDir: string, workingDir: string, threaded: bool)
    requires Coherent(s) && SetUp(s, w, cacheDir, workingDir, threaded).Ok?
    ensures Coherent(SetUp(s, w, cacheDir, workingDir, threaded).value)
  {
    if s.cacheDir.None? {
      assert forall p :: p in s.images ==> s.images[p].InMemory?;
    }
  }

  /** `setup` is first-call-wins: whatever a second call asks for, the cache
      directory and the threaded-reads flag stay as the first call set them. */
  lemma SetUpOnce(s: Server, w: World, d1: string, wd1: string, t1: bool, d2: string, wd2: string, t2: bool)
    requires s.cacheDir.None?
    requires SetUp(s, w, d1, wd1, t1).Ok?
    ensures var s1 := SetUp(s, w, d1, wd1, t1).value;
            && s1.cacheDir == Some(d1) && s1.threadedReads == Some(t1)
            && (SetUp(s1, w, d2, wd2, t2).Ok? ==> SetUp(s1, w, d2, wd2, t2).value == s1)
  {
  }

  /** Before `setup`, no disk path can be formed. */
  lemma NotSetUpYet(s: Server, id: nat)
    requires s.cacheDir.None?
    ensures DiskCachePath(s, id) == Err(NotSetup)
  {
  }
}
