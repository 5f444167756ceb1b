# pictocrab image service: a Dafny model of the local IPC core

pictocrab is an image service built from two programs that talk over a named
pipe. The Rust server (`src/main.rs`) keeps a cache of rendered images. The
Python client (`img_process_server_connect.py`) asks it for batches of
images. Both ends use the same framing: each message is a 4-byte big-endian
length followed by that many payload bytes. A command is text with fields
separated by `|`: `setup`, `gets`, `get` or `clear_cache`, then its arguments.

This project models both ends as pure functions over immutable values and
proves properties of them:

- **Framing** (`Bytes`, `ServerWire`, `ClientWire`):
  - the server's `send_image` and the accumulation loop of `read_command`;
  - the client's `write_msg` and `read_msg`.
  - A pipe is modelled as the bytes not yet read plus a script of what the
    operating system answers to each successive read. A script that runs out
    means a call that blocks forever.
- **Command text** (`Text`, `Utf8`):
  - `"|".join` and `str.split("|")`, and decimal `u32` parsing;
  - UTF-8 encoding, and Rust's `String::from_utf8_lossy` with its
    maximal-subpart replacement.
- **Server cache** (`Cache`): `setup`, `get_disk_cache_path`, `cache_img`,
  `get_from_cache` and `clear_cache`, over one value that holds the two
  `OnceCell`s, the `(CachedImages, CachedPaths)` pair and the files.
- **Serving** (`Batch`, `Dispatch`):
  - `get_image` and `gets_images`, including the chunking over 12 worker
    threads and the "all cached" shortcut;
  - `process_command` and `read_command`.
  - Panics (indexing past `args`, `unwrap` on a failed parse, `chunks(0)`)
    are a `Panicked` status. A batch of fewer than 12 paths that was not
    served before panics in `chunks(0)`; the model keeps that behaviour.
- **Client connection** (`Connect`, `Session`):
  - `connect_to_pipe`, `send_command` and the constructor;
  - the worker `_ask_for_images` and the retry loop of `ask_for_images`.
  - A worker thread still alive after `join(timeout=60)` is modelled as a
    worker whose reads block forever.
- **End to end** (`EndToEnd`): a command the client writes is what the server
  dispatches, and what the server answers is what the client's worker reads.

What the model assumes about the world is a parameter:

- the server side is a `Cache.World`: whether `set_current_dir` succeeds, the
  available memory, the HTTPS fetch, and the decode-resize-BMP pipeline;
- the client side is a script per attempt: write answers, incoming bytes, read
  answers and reopen attempts.

Five behaviours of the client are stated here as the code has them; the
model follows the code in each:

- **Header read.** The loop retries only when `ReadFile` returns `None`. A
  short header is used as it is, through `int.from_bytes`
  (`ClientWire.ReadHeader`).
- **Transport errors.** `read_msg` and `write_msg` raise only for codes 2 and
  109. Any other code is swallowed, and the function returns `None`
  (`ClientWire.Classify`).
- **Broken pipe inside an attempt.** A worker that raises is no longer alive
  after the join, so the loop breaks and returns the images read so far. The
  benchmark asserts `len(imgs) == len(img_paths)` after each call
  (img_process_server_connect.py:125 and 134), so a call is evidently meant
  to return one image per path (Finding 1).
- **The in-flight marker.** `current_command` stays set after `TimeoutError`,
  and when a reconnect raises. The worker clears it when it finishes
  (img_process_server_connect.py:93) and the call clears it before returning
  (img_process_server_connect.py:113), so it is evidently meant to be clear
  whenever no call is running (Finding 2).
- **Reconnects.** The loop reconnects after every attempt that times out, the
  last one included, so three timeouts mean three reconnects
  (`Session.RetryOutcome`).

## Model

| member | source | states |
|---|---|---|
| Bytes.U32BeRoundTrip | src/main.rs:36 | the four big-endian bytes written for a `u32` length read back as that length |
| Bytes.BigEndianRoundTrip | src/main.rs:227 | any four header bytes are the encoding of the value they spell, so the prefix is a bijection between `u32` values and 4-byte strings |
| Bytes.Frame | img_process_server_connect.py:63-65 | a frame is four bytes longer than its payload, its prefix reads back as the payload length, and the payload follows unchanged |
| ServerWire.SendImage | src/main.rs:33-41 | `send_image` writes `4 + len` bytes; the prefix holds the length modulo 2^32, as the `as u32` cast truncates; below 4 GiB the bytes are exactly the frame of the image |
| ServerWire.ReadPayload | src/main.rs:228-233 | the payload loop stops with at least the declared size and less than one 4096-byte buffer more; what it collects, followed by what is left, is exactly what was in the pipe |
| ServerWire.ReceiveCommand | src/main.rs:224-233 | the server goes idle exactly when the header read returns zero bytes; otherwise the data it dispatches is at least the size the header bytes declare, zero-padded to four, and the header and the data are the front of the pipe |
| ServerWire.ReceiveWholeFrame | src/main.rs:225-233 | when a frame is all the pipe holds and every read delivers something, the server reassembles exactly its payload, however the reads split it |
| ServerWire.ReadPastFrameEnd | src/main.rs:230-232 | the reads are not capped at what is left of the message, so two frames sent back to back are read as one payload that carries the start of the next frame |
| Cache.SetUp | src/main.rs:188-194 | `setup` fails exactly when changing directory fails; on success a cache directory is set; the first success records the requested directory and threaded-reads flag, and a later success keeps the cache cells and images as they were |
| Cache.SetUpCoherent | src/main.rs:188-194 | `setup` keeps a coherent cache coherent, since before the first call no entry can be on disk; file names are taken as fixed, whatever the working directory |
| Cache.SetUpOnce | src/main.rs:190-192 | `setup` is first-call-wins: after a first success, a second call keeps the first call's directory and flag |
| Cache.DiskCachePath | src/main.rs:43-45 | the disk path is `<dir>/<id>.bmp`, and the error "Not setup" comes exactly when no cache directory is set |
| Cache.NotSetUpYet | src/main.rs:43-45 | before `setup` no disk path can be formed |
| Cache.CacheFileInjective | src/main.rs:44 | distinct disk ids give distinct file names under one directory |
| Cache.CacheImg | src/main.rs:47-64 | below 2 whole gigabytes of free memory the image goes to file number `len as u32`, otherwise to memory; only the path's entry changes; the only failure is the disk branch before `setup` |
| Cache.CacheImgCoherent | src/main.rs:54-59 | caching a new path keeps the cache coherent: the new disk id is the old entry count, and its file exists |
| Cache.CacheImgKeepsOthers | src/main.rs:54-57 | caching a new path never changes what another path reads, because the new file name differs from every existing entry's |
| Cache.SameLookup | src/main.rs:67-81 | a lookup depends only on the path's entry, the cache directory and that entry's file |
| Cache.CacheImgFresh | src/main.rs:54-57 | caching a new path keeps the cache coherent; the path reads back as the cached bytes; every other path reads as before, since the new file cannot overwrite another entry's |
| Cache.GetFromCache | src/main.rs:67-81 | a lookup misses exactly when the path has no entry; a memory entry returns its bytes |
| Cache.GetFromCacheDisk | src/main.rs:72-74 | a disk entry returns the content of its file, and the lookup fails exactly when there is no cache directory or no file |
| Cache.CoherentLookup | src/main.rs:67-81 | in a coherent cache every lookup of a cached path succeeds with bytes |
| Cache.StartCoherent | src/main.rs:256-257 | the empty cache the server starts with is coherent |
| Cache.ClearCache | src/main.rs:196-210 | `clear_cache` empties both the images and the batch keys, even when it fails; it removes exactly the files of disk entries; it fails exactly when some disk entry has no file or no directory |
| Cache.ClearCacheForgetsAll | src/main.rs:196-210 | after `clear_cache` every lookup misses |
| Cache.ClearCoherent | src/main.rs:201-208 | a coherent cache clears without error |
| Batch.Chunks | src/main.rs:167 | `chunks(k)` yields non-empty pieces of at most `k` paths, all but the last of exactly `k`, which concatenate back to the input |
| Batch.MergeTrailing | src/main.rs:168-171 | the merge loop leaves at most 12 chunks, keeps every chunk but the last as it was, and neither loses nor reorders paths |
| Batch.Partition | src/main.rs:167-171 | the chunking panics exactly when there are fewer than 12 paths; otherwise at most 12 chunks concatenate back to the paths |
| Batch.PartitionShape | src/main.rs:167-178 | with 12 paths or more there are exactly 12 chunks, so every worker channel index exists; the first 11 hold `n / 12` paths each and the last holds the rest |
| Batch.SentAreFrames | src/main.rs:144-147 | images sent one after another with `send_image` are exactly their frames, one after another |
| Batch.GetImage | src/main.rs:84-137 | a successful `get_image` writes exactly one image with `send_image`; the failures modelled (lookup, load, render, caching) all come before the send, write nothing and leave the cache as it was |
| Batch.GetImageFlow | src/main.rs:85-135 | a hit sends the cached bytes and changes nothing; a successful miss sends the rendering of the loaded bytes, and caches exactly that |
| Batch.GetImageServes | src/main.rs:126-136 | on a coherent cache, `get_image` keeps it coherent and grows it by one entry at most; a served image is what the cache then holds for the path; earlier entries read as before |
| Batch.RunPaths | src/main.rs:144-146 | serving paths in order sends one frame per served image and stops at the first failure; a full success serves one image per path |
| Batch.RunPathsKeeps | src/main.rs:144-146 | serving a batch keeps a coherent cache coherent, only adds entries, and leaves earlier entries reading as before |
| Batch.RunPathsInOrder | src/main.rs:144-146 | after a successful batch, the i-th image sent is what the cache holds for the i-th path |
| Batch.RunPathsAppend | src/main.rs:161-163 | serving `a + b` is serving `a`, then `b` from the state `a` left |
| Batch.RunPathsKeepsKeys | src/main.rs:161-163 | serving paths never changes the set of batch keys |
| Batch.RunChunks | src/main.rs:172-181 | the main thread writes the workers' buffers in chunk order; a worker that fails makes `gets` fail with the error from `recv` |
| Batch.RunChunksKeeps | src/main.rs:172-181 | whichever worker fails, the chunked run keeps a coherent cache coherent and adds at most one entry per path |
| Batch.RunChunksWritesPrefix | src/main.rs:177-181 | whatever the ending, what the chunked run writes is a prefix of what the sequential run over all paths writes: a failing worker leaves the earlier chunks' buffers on the pipe |
| Batch.ChunksAsSequential | src/main.rs:172-181 | the chunked run succeeds exactly when the sequential run over all paths does, and then with the same bytes, images and cache |
| Batch.GetsImages | src/main.rs:151-185 | an unseen batch of fewer than 12 paths panics and writes nothing; a successful `gets` serves one image per path, with the bytes and images of the sequential run, and files the batch key |
| Batch.GetsImagesKeeps | src/main.rs:151-185 | every `gets`, successful or not, keeps a coherent cache coherent, keeps its entries and adds at most one per path |
| Batch.GetsInOrder | src/main.rs:172-184 | a successful `gets` on a coherent cache leaves it coherent, and its i-th image is what the cache then holds for the i-th path |
| Batch.BatchKeysCollide | src/main.rs:153-156 | batch keys are plain concatenations, so `["ab", "c"]` and `["a", "bc"]` share one key, so once the first batch's key is filed, `gets` on the second is served path by path through the "all cached" loop |
| Dispatch.ProcessCommand | src/main.rs:212-221 | an empty argument list, a missing argument or a non-`u32` number panics; `setup`, `gets`, `get` and `clear_cache` run with the parsed arguments; an unknown command changes nothing |
| Dispatch.ProcessCommandCoherent | src/main.rs:212-221 | every command, including one that fails or panics part-way, keeps a coherent cache coherent and adds at most one entry per argument |
| Dispatch.ReadCommand | src/main.rs:224-239 | an empty header read is a quiet success; a received frame is dispatched as its lossily decoded text split on `|`; a failed or blocked read changes nothing and writes nothing |
| Text.Split | src/main.rs:236 | splitting on the separator yields at least one piece, and no piece contains the separator |
| Text.JoinSplit | src/main.rs:236 | joining the pieces of a split with the separator gives back the text |
| Text.SplitJoin | img_process_server_connect.py:82 | splitting a join of separator-free pieces gives back the pieces |
| Text.ParseU32 | src/main.rs:216 | a successful `parse::<u32>()` yields a value below 2^32 |
| Text.ParseIntText | src/main.rs:216 | the server parses the decimal text of a Python `int` back to the number exactly when it fits a `u32` |
| Text.DigitsValueDecimal | src/main.rs:216 | decimal digits read back as the number they print |
| Text.LowerBoolText | img_process_server_connect.py:78 | `str(flag).lower()` equals `"true"` exactly when the flag is set, so the server's `args[3] == "true"` recovers it |
| Utf8.DecodeEncode | src/main.rs:235 | lossy decoding of UTF-8-encoded text gives back the text |
| Utf8.DecodeEncodeChar | src/main.rs:235 | the decoder reads one encoded character back with its exact length, whatever follows it |
| ClientWire.Classify | img_process_server_connect.py:54-58 | code 2 raises "no pipe", code 109 raises "broken pipe", and every other code is swallowed, so the function returns `None` |
| ClientWire.WriteMsg | img_process_server_connect.py:61-70 | packing fails exactly for 2^32 bytes or more; two successful writes put exactly the frame on the pipe; what is written is always a prefix of the frame; a failed body write leaves only the header |
| ClientWire.ReadHeader | img_process_server_connect.py:41-46 | the header loop retries while a read returns `None`, and returns at most four bytes from the front of the pipe |
| ClientWire.ReadBody | img_process_server_connect.py:49-53 | the payload loop returns exactly the declared number of bytes, in pipe order; a `None` read raises `TypeError` |
| ClientWire.ReadMsg | img_process_server_connect.py:39-58 | a message that is read has the length its header declares, and header plus message is the front of the pipe; no error code escapes unclassified |
| ClientWire.BodyOfFrame | img_process_server_connect.py:49-53 | however the reads split it, the payload loop reassembles exactly the declared bytes, one read at least per loop turn |
| ClientWire.ReadFrame | img_process_server_connect.py:39-53 | a frame at the front of the pipe is read back as exactly its payload and leaves what follows it, in at most one read per payload byte plus one |
| ClientWire.ReadMsgFault | img_process_server_connect.py:54-58 | a failed first read raises for codes 2 and 109 and returns `None` for any other code |
| Connect.ConnectToPipe | img_process_server_connect.py:15-36 | the connection uses the first attempt that opens, after only retryable failures, with one sleep per "no pipe"; code 109 raises; the loop never ends exactly when every attempt fails with another code |
| Connect.ConnectIgnoresLater | img_process_server_connect.py:15-36 | the first attempt that opens or reports a broken pipe decides, and later attempts are never made |
| Session.CommandSplits | img_process_server_connect.py:82 | when no piece contains the separator, the server's split of the command text gives the command type followed by the arguments' texts |
| Session.SendCommand | img_process_server_connect.py:81-84 | the command is recorded as in flight before the write, so it stays recorded when the write raises; two successful writes put the frame of the UTF-8 text on the pipe |
| Session.Init | img_process_server_connect.py:75-79 | the constructor returns a client only after connecting, with no command recorded; a connect that never ends or raises does the same for the constructor; a good connect and good writes send the `setup` frame |
| Session.ReadImages | img_process_server_connect.py:89-92 | the worker only appends to the output, at most one image per path, and finishes exactly when it has read one image per path |
| Session.RunAttempt | img_process_server_connect.py:87-93 | an attempt finishes exactly when the `gets` write returns and every image arrives; an attempt that does not finish has fewer images than paths; a failed write ends it with the write's exception |
| Session.ReadImagesFrames | img_process_server_connect.py:89-92 | a worker whose pipe holds the frames of some images reads exactly those images, in order |
| Session.RetryOutcome | img_process_server_connect.py:99-113 | the loop returns the output of the first attempt that did not hang, after hung and reconnected attempts, and clears the marker; it raises `TimeoutError` exactly when every attempt hangs and reconnects, after three reconnects, and leaves the marker set |
| Session.AskForImages | img_process_server_connect.py:95-114 | the call spins forever exactly when a command is recorded; otherwise it returns the output of the first attempt that did not hang, or raises `TimeoutError` exactly when all three hang, leaving the command recorded |
| Session.PartialResult | img_process_server_connect.py:99-110 | a first attempt whose worker raises makes the call return fewer images than paths, with no exception |
| Session.PartialResultExample | img_process_server_connect.py:99-110 | when the `gets` header write fails with code 2, `ask_for_images(["a"], 1, 1)` returns an empty list |
| Session.TimeoutLeavesMarker | img_process_server_connect.py:111-113 | after `TimeoutError` the next `ask_for_images` on the client waits forever |
| Session.RetryIntendedOutcome | img_process_server_connect.py:99-113 | the corrected loop returns only the output of an attempt that finished, and clears the marker on every return or raise; it raises `TimeoutError` exactly when every attempt fails and reconnects |
| Session.AskForImagesIntended | img_process_server_connect.py:95-114 | the corrected call returns one image per path, from an attempt that finished, or raises; either way no command stays recorded |
| Session.IntendedNeverBlocksNext | img_process_server_connect.py:95-97 | with the correction, a call that returns or raises never makes the next call wait |
| EndToEnd.CommandArrives | src/main.rs:224-236 | the frame the client writes for a command reaches the server whole, and the server splits it back into the client's pieces |
| EndToEnd.SetupSplits | img_process_server_connect.py:78 | the server splits the constructor's `setup` text into the command, both directories and the flag's text |
| EndToEnd.GetsSplits | img_process_server_connect.py:88 | the server splits the `gets` text into the command, the decimal width and height, and the paths in order |
| EndToEnd.SetupRoundTrip | img_process_server_connect.py:78 | the constructor's `setup` command runs `setup` on the server with the client's directories, and with threaded reads on exactly when the client's flag is set |
| EndToEnd.GetsRoundTrip | img_process_server_connect.py:88 | for a width and height that fit a `u32`, and paths without the separator, the server runs `gets_images` on the client's width, height and paths, in order |
| EndToEnd.ResponseArrives | img_process_server_connect.py:89-92 | the bytes of a successful `gets` are read back by the worker as exactly the images served, in order |
| EndToEnd.RequestServed | img_process_server_connect.py:95-114 | a whole request through the corrected call returns, on its first attempt, one image per path; the i-th is what the server's cache holds for the i-th path; no command stays recorded |

## Left out

- The operating system pipes are scripts of answers. The model leaves out:
  - the accept loop of `main`, `read_loop` and the process id;
  - `PipeMode::Messages` and `PIPE_READMODE_MESSAGE`: a frame may split
    across reads at any point.
- Threads:
  - the 12 `gets` workers run one after another, in chunk order;
  - in the source, later workers still run after one fails; the model stops
    at the first failure;
  - a worker whose `?` ends its thread stays dead for every later batch; that
    is not modelled;
  - the `RwLock` around the `(CachedImages, CachedPaths)` pair and the
    `THREADED_READS` write guard have no effect when workers run one after
    another, so they are left out.
- Foreign code on the server:
  - `reqwest`, the `image` crate and `sysinfo` are parameters of
    `Cache.World`;
  - one available-memory figure serves a whole step;
  - `set_current_dir` is a predicate;
  - a failed `fs::write` of a disk entry is not modelled.
- Batch.GetsInOrder: it holds for workers that run one after another, not for the source's concurrent workers. `get_from_cache` drops its read lock before `cache_img` takes the write lock (src/main.rs:68-81, 52), so two workers can both miss a path that repeats in a batch. The second `cache_img` then re-inserts the path as `OnDisk(len)` without growing the map (src/main.rs:55-57), the next new path gets the same id and overwrites that file, and the repeated path reads the other path's image. That interleaving is not modelled.
- Batch.RunPathsInOrder: it states one worker's run with no other worker touching the cache in between; see Batch.GetsInOrder.
- Batch.GetImage: a failed `stream.write` (src/main.rs:36-37) is not modelled. On the connection's own thread (`get` at src/main.rs:217, the all-cached loop at src/main.rs:161-163) such a failure comes after `cache_img` (src/main.rs:135-136), so the source returns `Err` with the image already cached and possibly with the length header already sent.
- Cache.SetUp: the model keeps no working directory. `set_current_dir` runs on every call (src/main.rs:189), so a later `setup` moves the process and changes where a relative cache directory and relative image paths resolve; whether it succeeds may depend on the current directory too. The model treats the change of directory as a success flag of the requested string and treats file names as fixed.
- Cache.SetUpCoherent: it holds because file names do not move with the working directory. In the source, a later `setup` into another working directory leaves the files of a relative cache directory out of reach, so lookups of disk entries can fail.
- ServerWire.SendImage: it assumes that each `stream.write` writes all its bytes; the source ignores the count that `write` returns.
- Batch.RunChunks: it does not model the error `thread_channels[i].0.send` would return for a dead worker; every failure is `WorkerFailed`. A failed `stream.write` of a worker's buffer (src/main.rs:180) is not modelled either: in the source it returns `Err` after the workers have grown the cache, and before the batch key is filed at src/main.rs:182-183.
- Cache.ClearCache: the source stops at the first removal that fails, in hash order. The model removes every file that exists and reports the failure; it states that the maps are emptied, not which files the source happened to reach.
- Foreign code on the client:
  - `subprocess.Popen` is left out;
  - `time.sleep` and `print` are left out; only the count of one-second
    sleeps is kept;
  - `CloseHandle` is left out;
  - `cv2.imdecode` is the identity on the bytes read.
- Session.AskForImages: the 60-second join is abstracted as "the worker's reads block forever". A slow worker that completes after the join, and an abandoned worker that appends to the shared list after `clear()`, are not modelled.
- Connect.ConnectToPipe: the handle that leaks when `SetNamedPipeHandleState` fails after `CreateFile` is not modelled; an attempt either gives a handle or fails with a code.
- Strings are sequences of Unicode scalar values. Python text with lone surrogates, for which `.encode("utf-8")` raises, cannot be written.
- `benchmark` and the `__main__` block only measure timings, so they are left out.

## Findings

| source | as written | input that shows it | evidently intended | confidence | as-written member | corrected member |
|---|---|---|---|---|---|---|
| img_process_server_connect.py:99-110 | a worker that raises is not alive after the join, so the loop breaks and returns the images appended so far | the `gets` header write fails with code 2 on the first attempt; `ask_for_images(["a"], 1, 1)` returns `[]` | a failed attempt is retried through the reconnect path, and a call returns one image per path or raises, as the benchmark's asserts at lines 125 and 134 expect | not executed | Session.PartialResultExample | Session.AskForImagesIntended |
| img_process_server_connect.py:111-113 | `TimeoutError` is raised before `current_command` is cleared | all three attempts hang and reconnect; the next `ask_for_images` on the client spins forever | the in-flight marker is cleared on every way out of the call, as the worker (line 93) and the normal return (line 113) clear it | not executed | Session.TimeoutLeavesMarker | Session.IntendedNeverBlocksNext |
