# Isolator-V: a verified model

This project models the stateful core of Isolator-V, the WebAssembly sandbox service, in Dafny 4.11 and proves what its
state machines do over every input, every run and every interleaving.

| files | what they model |
|---|---|
| `Paths`, `DirListing` | guest path canonicalisation and splitting; the ordered-map directory scan |
| `FileModel`, `FileRuns`, `FileLaws`, `CallLaws` | the file system a guest is promised (bytes by name list, handles as path and position), all runs of it, the laws a guest relies on, and each call's full effect |
| `Vfs` | the in-memory VFS as coded: one flat map of path strings, descriptor table, flag and right bits, resizing byte vectors; refined to `FileModel` |
| `RingBuffer` | the stdout/stderr capture buffer |
| `GuestMemory`, `WriteShim`, `ReadShim` | guest memory and the `fd_write` / `fd_read` iovec shims |
| `QuotaProtocol`, `FdTableProtocol`, `VfsThreads`, `VfsViews` | the write quota and the descriptor table as protocols of their own; whole calls of threads sharing one VFS under its two locks; the latter projected onto the former |
| `SlotPool`, `Backpressure` | sandbox slots under the 512-permit semaphore; the admission guard |
| `TokenBucket`, `WriteBehind`, `WarmPool` | the orchestrator's rate limiter, snapshot persistence and worker pool |
| `Streaming`, `VirtualTree` | output frames and the terminal's buffer; the browser's file tree |
| `Base`, `MapSum` | shared types; sums and bags over finite maps |

`dafny verify dfyconfig.toml` checks everything.

## How to read it

Code that updates state is a class or a method with loops, specified by functions on values. Protocols are state
machines: `Step` performs one atomic section and does nothing when that section is not enabled, and `Run` is a fold, so a
statement about `Run(es)` for all `es` is a statement about every interleaving.

The VFS is proved against `FileModel`, which knows no strings, bits or resizing: paths are lists of names, a parent is
the list without its last name, and a write is a byte-wise zero-filled overlay. `VfsState.Image` is the abstraction;
each operation's contract equates its result and the new image with the model's operation, and `Session` lifts that to
whole sessions from a new VFS. What a mistake in the model would change is then caught by the laws in `FileRuns`,
`FileLaws` and `CallLaws`; the last states every call's result and effect on bytes, table and charge without naming the
model's helpers, and with the source's own numbers. `VfsThreads` then shows that threads sharing one VFS see a sequential run of that model
(`Linearizable`), and `VfsViews` that such a run is a run of the quota protocol and of the descriptor protocol.

## Where the code and its documentation differ

The model follows the code.

- `orchestrator/internal/vfs/writebehind.go:173-175` promises one flush at a time and no lost entries. Entries are lost
  exactly by a failure after BeginTx (`LostIff`). Order is lost in two ways: overlapping flushes commit out of order
  (`OverlapReorders`), and two of them whose BeginTx fails put their batches back the wrong way round, to be persisted so
  by a later flush on its own (`RestoresReorder`). The table keeps the order of ingestion exactly when every commit is in
  turn: its batch ascending and older than every row pending, lost or in another flush (`OrderKeptIff`).
- `orchestrator/internal/pool/pool.go:19-22` says the pool bounds executions in flight by its capacity. The refill loop
  adds slots for executions still running; the bound holds over all runs exactly when the capacity is below two
  (`InFlightBoundedIff`), otherwise any number can be in flight (`InFlightUnbounded`). At a given moment new executions
  can exceed the capacity exactly when idle and running slots together do (`GetsExceedIff`).
- `wasm-worker-manager/src/vfs.rs:424-436` takes a refused charge back with a second atomic operation, so a write can be
  refused beside a charge that is then taken back. Exactly: it is refused if it does not fit beside the kept charges and
  those of all writes under way (`QuotaProtocol.RefusedIff`). These refusals are the only calls whose outcome is not
  that of a sequential run.
- `frontend/components/Terminal.tsx:217-245` asks for a flush whenever bytes arrive or remain. Before xterm is loaded the
  buffer can still wait unscheduled (`UnscheduledBeforeReady`), exactly after a frame that fired too early for it
  (`StalledIff`), and a drain before then throws it away (`DiscardedIff`).
- `orchestrator/internal/ratelimit/tokenbucket.go:5-8` promises a sustained rate. Every call, passed or denied, restarts
  the clock and drops the fraction of a token earned, so a client that polls faster than one token per call is never let
  through again (`PollingStarves`, `EmptyPassesIff`, `StarvesIff`).
  With timestamps that go back more can get through than a window allows (`BackwardClockExceeds`). Exactly: calls at
  given instants can exceed the capacity and what a window earns if and only if the gaps between the instants, each
  counted as at most a full bucket, are worth more than the window (`BurstExceedsIff`); instants in order never are
  (`InOrderWorth`, `WindowBound`).
- `wasm-worker-manager/src/vfs.rs:187` calls the capture buffer fixed-capacity. One write longer than the capacity makes
  the unsigned `capacity - len` wrap (as in a release build), and the buffer grows until the next drain
  (`HoldsMostRecent` gives the exact condition; `DrainsLoseNothingIff` says exactly when nothing is lost).
- `wasm-worker-manager/src/vfs.rs:253` speaks of a root directory. "/" is not a key, `path_open("/", CREAT)` makes it a
  regular file, and a file may get files below it (`RootCanBecomeFile`, `TreeShapedIff`, `TreeShapedRunIff`).
- The read shim reads the iovec array again after each buffer; a buffer laid over a later entry changes what is
  read (`OverlapWithTableDiffers`), so the single-read law needs each buffer apart from the entries after its own
  (`ScatterIsOneRead`). For in-bounds buffers that is exactly when the walk reads the entries it was given, whatever the
  file holds (`AsListedIff`).

## Model

| member | source | states |
|---|---|---|
| Paths.JoinSplit | wasm-worker-manager/src/vfs.rs:282-300 | splitting at separators loses nothing and leaves no separator inside a part |
| Paths.SplitJoin | wasm-worker-manager/src/vfs.rs:282-300 | joining separator-free parts and splitting again gives the parts back |
| Paths.Canonicalise | wasm-worker-manager/src/vfs.rs:278-302 | the loop computes the rendered component walk, or refuses with the raw path |
| Paths.CanonicaliseAcceptsIff | wasm-worker-manager/src/vfs.rs:284-292 | accepted if and only if no prefix of the components has more ".." than names |
| Paths.CanonicaliseKeepsUncancelled | wasm-worker-manager/src/vfs.rs:282-300 | the result is exactly the names no later ".." cancels, found by an independent right-to-left cancellation |
| Paths.CanonicalisedIsCanonical | wasm-worker-manager/src/vfs.rs:274-302 | a result has no empty, "." or ".." component |
| Paths.CanonicaliseFixpoint | wasm-worker-manager/src/vfs.rs:274-302 | exactly the canonical paths are left unchanged |
| Paths.CanonicaliseIdempotent | wasm-worker-manager/src/vfs.rs:274-302 | canonicalising a result changes nothing |
| Paths.CanonicaliseCompose | wasm-worker-manager/src/vfs.rs:274-302 | a/b and canon(a)/b have the same outcome, for all strings a and b |
| Paths.RenderCanonical | wasm-worker-manager/src/vfs.rs:297-301 | a clean name list renders to a canonical path and is read back from it |
| Paths.CanonicalRender | wasm-worker-manager/src/vfs.rs:297-301 | every canonical path is the rendering of its names |
| Paths.SplitPathIsParent | wasm-worker-manager/src/vfs.rs:305-310 | on canonical paths the string split is the parent's path and the last name |
| DirListing.PrefixContiguous | wasm-worker-manager/src/vfs.rs:552-555 | keys sharing a prefix are contiguous in key order and not below the prefix |
| DirListing.ScanIsFilter | wasm-worker-manager/src/vfs.rs:553-560 | the range scan that stops early finds what filtering every key finds |
| DirListing.ScanListsChildren | wasm-worker-manager/src/vfs.rs:551-562 | the scan is strictly ascending and holds exactly the separator-free suffixes of keys with the prefix |
| RingBuffers.RingBuffer.Write | wasm-worker-manager/src/vfs.rs:205-218 | the wrapped free-room arithmetic and eviction give the closed form for every length, and the total grows by the data |
| RingBuffers.RingBuffer.Drain | wasm-worker-manager/src/vfs.rs:221-224 | returns the whole buffer and empties it |
| RingBuffers.HoldsMostRecent | wasm-worker-manager/src/vfs.rs:204-224 | over all runs the buffer is an end piece of the stream since the last drain, and is its last min(capacity, n) bytes if and only if no write since then was longer than the capacity |
| RingBuffers.DrainsLoseNothingIff | wasm-worker-manager/src/vfs.rs:204-224 | over all runs the drained bytes and the buffer are the whole stream in order if and only if every write finds nothing written since the last drain, more than the capacity, or room for its data; otherwise they are shorter for good |
| FileRuns.RunKeeps | wasm-worker-manager/src/vfs.rs:254-381 | over all runs from a new file system: every path is canonical, a parent is the root or a node, files and directories are disjoint and never vanish or change kind, every handle refers to a node, at most 256 handles, quota respected |
| FileRuns.ApplyKeeps | wasm-worker-manager/src/vfs.rs:327-514 | each single call keeps that invariant |
| FileLaws.OverlaySlice | wasm-worker-manager/src/vfs.rs:456-468 | written bytes read back, bytes outside the write stay, a gap reads as zeros |
| FileLaws.OverlayCompose | wasm-worker-manager/src/vfs.rs:456-468 | two adjacent writes are one write of the concatenation |
| FileLaws.ReadBackOther | wasm-worker-manager/src/vfs.rs:387-473 | what one handle writes, another handle on the file at that offset reads |
| FileLaws.ReadBackSelf | wasm-worker-manager/src/vfs.rs:387-505 | write, seek back, read returns the data |
| FileLaws.SeekExact | wasm-worker-manager/src/vfs.rs:476-505 | a seek succeeds if and only if the target lies in the signed 64-bit range from 0 on, and lands exactly there |
| FileLaws.UntouchedRun | wasm-worker-manager/src/vfs.rs:327-514 | a run without a write through a handle on the file and without a truncating open of it leaves the contents alone |
| FileLaws.OtherHandlesStay | wasm-worker-manager/src/vfs.rs:327-514 | a call leaves path, position and rights of every handle it does not name |
| FileLaws.TreeShapedIff | wasm-worker-manager/src/vfs.rs:341-351 | only directories have children and "/" is no node, preserved by a call if and only if it does not create "/" or a file below a file |
| FileLaws.TreeShapedRunIff | wasm-worker-manager/src/vfs.rs:341-351 | over a whole run the tree shape survives if and only if none of its calls creates "/" or a file below a file; once lost it never comes back |
| FileLaws.RootCanBecomeFile | wasm-worker-manager/src/vfs.rs:339-348 | one call makes "/" a regular file |
| FileLaws.RefusedOpenEffect | wasm-worker-manager/src/vfs.rs:337-380 | an open fails and still changes the files if and only if the table is full and the path resolves to an absent node with create set and its parent there, or to a non-empty file with truncate set and not create-and-exclusive |
| FileLaws.IssuedInOrder | wasm-worker-manager/src/vfs.rs:314-322 | in every run the i-th successful open returns the initial counter plus i modulo 2^32 |
| FileLaws.ReusedIff | wasm-worker-manager/src/vfs.rs:314-322 | two opens return the same number if and only if a multiple of 2^32 opens lie between them |
| FileLaws.ClosedStaysClosed | wasm-worker-manager/src/vfs.rs:508-514 | within 2^32 opens an issued and closed descriptor never becomes valid again |
| FileLaws.QuotaBoundsWrites | wasm-worker-manager/src/vfs.rs:424-436 | over all runs the bytes reported written are at most the counter, which is at most 64 MB |
| CallLaws.OpenRefused | wasm-worker-manager/src/vfs.rs:333-360 | a path above the root, a missing node or parent, and create-and-exclusive on a node: exactly that error, and nothing changes |
| CallLaws.OpenContents | wasm-worker-manager/src/vfs.rs:341-367 | otherwise a new or truncated file is empty, an opened one keeps its contents, and no other file, directory or charge changes |
| CallLaws.OpenTable | wasm-worker-manager/src/vfs.rs:314-380 | and with fewer than 256 handles the result is the counter, a handle with the asked rights at byte 0, and the counter moves on; with 256 it is refused and the table stays |
| CallLaws.OpenThenRead | wasm-worker-manager/src/vfs.rs:327-418 | the first read of a new handle returns the front of the file, nothing if it was created or truncated |
| CallLaws.ReadEffect | wasm-worker-manager/src/vfs.rs:387-418 | exactly the bytes from the position on, up to the length asked for or the end; the position moves past them and nothing else changes |
| CallLaws.ReadRefused | wasm-worker-manager/src/vfs.rs:388-397 | no handle, no right to read, or a directory: the error, and nothing changes |
| CallLaws.WriteEffect | wasm-worker-manager/src/vfs.rs:439-472 | an appending handle adds the data at the end and then stands there; another overlays it at its position and moves past it; the charge grows by the length and nothing else changes |
| CallLaws.WriteRefused | wasm-worker-manager/src/vfs.rs:424-449 | over 64 MB nothing changes; without a handle that may write on a file only the charge does |
| CallLaws.SeekEffect | wasm-worker-manager/src/vfs.rs:476-505 | for every position, length and offset: base plus offset modulo 2^64, read as signed, is returned and is where the handle then stands, or is negative and refused with nothing changed |
| CallLaws.SeekThenRead | wasm-worker-manager/src/vfs.rs:387-505 | a read after a seek from any base returns the bytes from the place the seek returned |
| CallLaws.SeekRefused | wasm-worker-manager/src/vfs.rs:477-497 | no handle, no right to seek, no file, or an unknown base: the error, and nothing changes |
| CallLaws.CloseEffect | wasm-worker-manager/src/vfs.rs:508-514 | the handle is gone, nothing else changes, and later calls on the number are refused |
| CallLaws.AppendRun | wasm-worker-manager/src/vfs.rs:424-473 | over every run in which a file is written only through appending handles and not truncated, it grows by exactly the data of the successful writes, in order |
| Vfs.VfsState.constructor | wasm-worker-manager/src/vfs.rs:254-270 | a new VFS is the model's initial file system: the three directories, no handle, first number 3, no charge, and empty capture buffers of 262144 and 65536 bytes |
| Vfs.FlagBits | wasm-worker-manager/src/vfs.rs:140-166 | which bits of the flags and rights stand for create, exclusive, truncate, append, read, write and seek |
| Vfs.VfsState.AllocFd | wasm-worker-manager/src/vfs.rs:314-322 | refuses at 256 handles, otherwise returns the counter and advances it modulo 2^32 |
| Vfs.VfsState.PrepareNode | wasm-worker-manager/src/vfs.rs:339-367 | creation, exclusivity and truncation on the string map are the model's |
| Vfs.VfsState.PathOpen | wasm-worker-manager/src/vfs.rs:327-381 | state and result are the model's open, in every success and error case |
| Vfs.VfsState.FdRead | wasm-worker-manager/src/vfs.rs:387-418 | state and result are the model's read; the buffer's front is the bytes and its rest is unchanged |
| Vfs.VfsState.FdWrite | wasm-worker-manager/src/vfs.rs:424-473 | state and result are the model's write, including the charge kept by a failed write |
| Vfs.VfsState.WriteAt | wasm-worker-manager/src/vfs.rs:456-467 | two resizes and a slice copy are the byte-wise overlay |
| Vfs.VfsState.FdSeek | wasm-worker-manager/src/vfs.rs:476-505 | state and result are the model's seek |
| Vfs.VfsState.FdClose | wasm-worker-manager/src/vfs.rs:508-514 | the handle is gone and nothing else changes |
| Vfs.VfsState.FdFilestatGet | wasm-worker-manager/src/vfs.rs:520-530 | type and size of the handle's node; fails only for a descriptor that is not open, so the not-found arm is unreachable |
| Vfs.VfsState.ReadFile | wasm-worker-manager/src/vfs.rs:534-544 | contents, is-a-directory or not-found as the model's file map says |
| Vfs.VfsState.ListDir | wasm-worker-manager/src/vfs.rs:547-563 | strictly ascending, exactly the names one level below the path in the tree, plus an empty name for a file at "/" |
| Vfs.VfsState.Snapshot | wasm-worker-manager/src/vfs.rs:566-573 | the map from rendered path to contents of every file of the model, and nothing else |
| Vfs.VfsState.Perform | wasm-worker-manager/src/vfs.rs:327-514 | any one call has the model's outcome and effect |
| Vfs.VfsState.Execute | wasm-worker-manager/src/vfs.rs:327-514 | any sequence of calls has the model run's outcomes and final file system |
| Vfs.Session | wasm-worker-manager/src/vfs.rs:254-573 | from a new VFS, every run refines the model's run, ends well formed, and its snapshot is the model's file map |
| Vfs.SetFile | wasm-worker-manager/src/vfs.rs:348-364 | setting a file at a canonical key sets the contents at its name list and nothing else |
| Vfs.ParentLookUp | wasm-worker-manager/src/vfs.rs:343-347 | the string parent check is the parent check on name lists |
| GuestMemory.WordRoundTrip | wasm-worker-manager/src/vfs.rs:596-613 | a stored little-endian word reads back |
| GuestMemory.WriteU32Le | wasm-worker-manager/src/vfs.rs:596-600 | stores the four bytes if and only if they fit, and changes nothing else |
| WriteShim.FdWriteShim | wasm-worker-manager/src/sandbox_pool.rs:404-449 | effect, errno and stored count of the gather loop for every descriptor, including out-of-bounds and refused entries |
| WriteShim.GatherIsOneWrite | wasm-worker-manager/src/sandbox_pool.rs:412-449 | for a non-empty in-bounds array on a VFS descriptor: succeeds if and only if one write of the concatenation would, with the same files, positions, quota and exact count |
| WriteShim.GatherCaptures | wasm-worker-manager/src/sandbox_pool.rs:426-437 | descriptor 1 writes every buffer in turn to the stdout capture and descriptor 2 to the stderr capture, evictions included; files and the other capture are untouched |
| WriteShim.GatherAppends | wasm-worker-manager/src/sandbox_pool.rs:426-449 | bytes that fit are appended to the capture the descriptor names, and their number is reported |
| WriteShim.CapturedLast | wasm-worker-manager/src/vfs.rs:205-218 | with no single buffer longer than the capacity, the capture is the most recent bytes of what it held and all buffers |
| WriteShim.GatherSplits | wasm-worker-manager/src/sandbox_pool.rs:412-449 | what entries before a failure did stays, and the failure is the call's |
| WriteShim.GatherOutOfBounds | wasm-worker-manager/src/sandbox_pool.rs:413-424 | an entry or buffer outside guest memory: invalid, and nothing more is written |
| WriteShim.GatherRefused | wasm-worker-manager/src/sandbox_pool.rs:438-444 | a buffer the VFS refuses: bad descriptor, and nothing more is written |
| WriteShim.WriteCompose | wasm-worker-manager/src/vfs.rs:424-473 | two consecutive writes through a handle, appending or not, are one write of both, and one succeeds if and only if the other does |
| ReadShim.FdReadShim | wasm-worker-manager/src/sandbox_pool.rs:458-495 | effect, errno and stored count of the scatter loop, descriptor 0 included |
| ReadShim.ScatterIsOneRead | wasm-worker-manager/src/sandbox_pool.rs:469-495 | over in-bounds buffers apart from each other, each apart from the array entries after its own: one read of the total length, laid out over the buffers in order, nothing else in memory changed, short reads included |
| ReadShim.ListedIsOneRead | wasm-worker-manager/src/sandbox_pool.rs:469-495 | the same for any single walk over separate buffers that reads every entry as listed |
| ReadShim.AsListedIff | wasm-worker-manager/src/sandbox_pool.rs:471-489 | for an in-bounds array of in-bounds buffers: whatever file is read, the walk reads every entry as the array held it at the call, if and only if no buffer overlaps an entry after its own |
| ReadShim.ScatterStep | wasm-worker-manager/src/sandbox_pool.rs:469-489 | an entry whose buffer is filled: the walk goes on with the next; a short read ends it |
| ReadShim.ScatterFails | wasm-worker-manager/src/sandbox_pool.rs:469-489 | an entry outside guest memory, a refused read, or bytes that do not fit: the errno, memory untouched, and the handle moved only in the last case |
| ReadShim.ReadCompose | wasm-worker-manager/src/vfs.rs:387-418 | reading a and then b bytes is reading a + b; a short read already has everything |
| ReadShim.OverlapWithTableDiffers | wasm-worker-manager/src/sandbox_pool.rs:471-489 | disjoint buffers alone do not suffice: a buffer over a later entry makes the walk differ from the flat read |
| QuotaProtocol.QuotaHolds | wasm-worker-manager/src/vfs.rs:424-436 | in every interleaving of add, test and take-back the successful bytes stay within 64 MB and within the counter, which never goes negative |
| QuotaProtocol.RefusedIff | wasm-worker-manager/src/vfs.rs:426-436 | in every run and whatever happens between a writer's charge and its test, it is refused if and only if its bytes do not fit beside the kept charges and those of all writers under way when it charged |
| QuotaProtocol.RefusedBesideAnother | wasm-worker-manager/src/vfs.rs:426-436 | beside another writer it can be refused although nothing was written |
| VfsThreads.Linearizable | wasm-worker-manager/src/vfs.rs:327-514 | in every interleaving of opens, reads, writes, seeks and closes under the two locks and the atomic counter, the calls that returned (refused writes apart) are, in order of return, a sequential run of the file model: same outcomes, same descriptor table, and with no call under way the same files, numbering and charge |
| VfsThreads.SharedWellFormed | wasm-worker-manager/src/vfs.rs:327-514 | in every interleaving and at every step, in the middle of an open too, at most 256 handles, each on a node of a well-formed tree; the counter is never negative and with no write under way within the quota |
| VfsThreads.RefusedIff | wasm-worker-manager/src/vfs.rs:424-436 | the exact difference to a sequential run: a write is refused if and only if it does not fit beside kept charges and all writes under way; sequentially, if and only if it does not fit beside the kept ones |
| VfsThreads.CallReturns | wasm-worker-manager/src/vfs.rs:327-514 | with no open under way any call whose charge fits returns by its own steps alone |
| VfsThreads.CloseReturns | wasm-worker-manager/src/vfs.rs:508-514 | a close returns at once even in the middle of another thread's open |
| VfsThreads.EverySequence | wasm-worker-manager/src/vfs.rs:327-514 | conversely, every sequential run without a refused write is a run of threads |
| VfsViews.ThreadsKeepQuota | wasm-worker-manager/src/vfs.rs:424-473 | forgetting all but counter and writers, every run of threads is a run of the quota protocol, with the bytes reported written as its successful bytes |
| VfsViews.ThreadsWithinQuota | wasm-worker-manager/src/vfs.rs:424-436 | so the bytes threads report written stay within 64 MB and within the shared counter |
| VfsViews.ThreadsKeepFds | wasm-worker-manager/src/vfs.rs:314-381 | forgetting all but openers, open descriptors and numbers, every run of threads is a run of the descriptor protocol |
| VfsViews.ThreadsGoneForever | wasm-worker-manager/src/vfs.rs:314-322 | so within 2^32 draws a closed descriptor never becomes valid again for any thread |
| FdTableProtocol.RunKeeps | wasm-worker-manager/src/vfs.rs:337-380 | in every interleaving of openers and closers at most one opener is inside, at most 256 descriptors are open and numbers are drawn in order |
| FdTableProtocol.GoneForever | wasm-worker-manager/src/vfs.rs:314-322 | in every interleaving, within 2^32 allocations, a closed descriptor never becomes valid again |
| SlotPool.SlotsBounded | wasm-worker-manager/src/sandbox_pool.rs:838-996 | in every interleaving, pop and cold creation being separate steps, unspent slots (warm, in use, or made and not pushed yet) plus cold slots about to be made stay within max(prewarmed, 512); unspent slots equal prewarmed plus cold starts minus losses, and do not fall below the prewarmed count unless one was lost |
| SlotPool.SlotBoundExact | wasm-worker-manager/src/sandbox_pool.rs:838-996 | max(prewarmed, 512) unspent slots are reached by some run and exceeded by none |
| SlotPool.AliveBounded | wasm-worker-manager/src/sandbox_pool.rs:846-1020 | in every interleaving all slots alive, with the used ones that live until their execution returns, are at most max(prewarmed, 512) + 512 |
| SlotPool.AliveBoundExact | wasm-worker-manager/src/sandbox_pool.rs:846-1020 | that many are alive in some run, and no run has more |
| SlotPool.NeverReused | wasm-worker-manager/src/sandbox_pool.rs:846-996 | in every interleaving each execution gets a slot no execution had before, and slots waiting or on their way to the deque are fresh |
| SlotPool.FirstInFirstOut | wasm-worker-manager/src/sandbox_pool.rs:846-996 | in every interleaving slots leave the deque in the order in which they entered it |
| SlotPool.SandboxPool.Execute | wasm-worker-manager/src/sandbox_pool.rs:846-996 | one execution alone is the protocol's steps, for every course (warm, cold, no slot, early return, failed replacement); it runs in the oldest warm slot if there is one, and its replacement goes to the end |
| Backpressure.UnderThresholdIff | wasm-worker-manager/src/backpressure.rs:313-319 | not over the pool threshold if and only if the pool is non-empty and at most floor(0.9 * capacity) are active |
| Backpressure.ActiveBounded | wasm-worker-manager/src/backpressure.rs:248-335 | with at most k handlers between check and ticket, active executions are at most floor(0.9 * capacity) + k in every interleaving; the active count is the number of live tickets, and admitted plus shed plus checks under way is the number of checks |
| Backpressure.BoundReached | wasm-worker-manager/src/backpressure.rs:248-282 | for every non-empty pool and k >= 1 some interleaving within that condition reaches floor(0.9 * capacity) + k, so the bound is exact |
| Backpressure.BackPressureGuard.CheckAdmission | wasm-worker-manager/src/backpressure.rs:248-270 | alone, the protocol's two steps; passes if and only if CPU and memory are within their limits and at most floor(0.9 * capacity) are active; a refusal carries the load that caused it |
| Backpressure.BackPressureGuard.Admit | wasm-worker-manager/src/backpressure.rs:277-282 | the protocol's step for a handler that passed; keeps the active count equal to the number of live tickets |
| Backpressure.BackPressureGuard.DropTicket | wasm-worker-manager/src/backpressure.rs:331-335 | the protocol's step for a live ticket; keeps that equality, so the unsigned counter never wraps |
| Backpressure.RetryGraduated | wasm-worker-manager/src/backpressure.rs:96-115 | the wait grows with load; it is 1, 2, 5 or 10 seconds with the thresholds 80/90/95 percent CPU and 0.90/0.95/0.98 pool; overloaded if and only if it is above 1 or memory is over 85 percent |
| TokenBucket.RedisStore.RunScript | orchestrator/internal/ratelimit/tokenbucket.go:55-87 | one script run finds the hash unless it has expired, stores the refilled and consumed bucket under its key with a new expiry, leaves other keys, and returns the decision |
| TokenBucket.RedisStore.Allow | orchestrator/internal/ratelimit/tokenbucket.go:95-113 | the decision of the script with the computed time to live, or open with an error and no change when Redis is out of reach |
| TokenBucket.TokensWithin | orchestrator/internal/ratelimit/tokenbucket.go:72-84 | over all runs stored tokens stay between 0 and the capacity |
| TokenBucket.PassedWorth | orchestrator/internal/ratelimit/tokenbucket.go:62-86 | for any timestamps at all, calls let through are at most the capacity plus what the gaps are worth, each at most a full bucket |
| TokenBucket.PassedBound | orchestrator/internal/ratelimit/tokenbucket.go:62-86 | and so at most the capacity plus what forward time earned |
| TokenBucket.WindowBound | orchestrator/internal/ratelimit/tokenbucket.go:62-86 | for nondecreasing timestamps, in every window of length T at most capacity + floor(rate * T) calls get through |
| TokenBucket.BurstExceedsIff | orchestrator/internal/ratelimit/tokenbucket.go:72-86 | for calls at any instants in any order, some number of calls at each gets more through than the capacity and what the window earns if and only if the gaps are worth more than the window |
| TokenBucket.InOrderWorth | orchestrator/internal/ratelimit/tokenbucket.go:72-75 | instants in order within a window are never worth more than the window |
| TokenBucket.BackwardClockExceeds | orchestrator/internal/ratelimit/tokenbucket.go:72-75 | one run with a timestamp going back that exceeds the window bound |
| TokenBucket.EmptyPassesIff | orchestrator/internal/ratelimit/tokenbucket.go:72-81 | on an empty bucket a call passes if and only if the gap since the last call earns a whole token |
| TokenBucket.PollingStarves | orchestrator/internal/ratelimit/tokenbucket.go:72-85 | if every gap earns less than a token, exactly the tokens on hand get through and nothing after, for any number of calls |
| TokenBucket.StarvesIff | orchestrator/internal/ratelimit/tokenbucket.go:72-85 | from an empty bucket a run lets nothing through if and only if every gap earns less than a token |
| TokenBucket.TtlExact | orchestrator/internal/ratelimit/tokenbucket.go:99-101 | the time to live is ten seconds plus twice the whole seconds a full bucket takes |
| TokenBucket.TtlCoversRefill | orchestrator/internal/ratelimit/tokenbucket.go:99-101 | over a whole time to live a bucket earns its full capacity |
| TokenBucket.ExpiryVisibleIff | orchestrator/internal/ratelimit/tokenbucket.go:66-85 | a call can tell that its key is gone if and only if it expired before the bucket was full again by the caller's clock |
| TokenBucket.ExpiryInvisible | orchestrator/internal/ratelimit/tokenbucket.go:66-105 | from any stored entry, as long as the caller's clock does not fall back against the server's, a run in which keys expire stores and decides exactly as one in which they are kept for ever |
| WriteBehind.WriteBehindSync.IngestResponse | orchestrator/internal/vfs/writebehind.go:139-154 | the loop appends every entry once, in order, after what was pending: the model's ingest step |
| WriteBehind.WriteBehindSync.Flush | orchestrator/internal/vfs/writebehind.go:176-217 | the model's steps of one flush; it succeeds if and only if the database does, then all pending rows are added to the table in order; a BeginTx error leaves everything as it was, any other drops all pending rows |
| WriteBehind.Conserved | orchestrator/internal/vfs/writebehind.go:139-217 | in every interleaving the ingested rows are, as a bag, persisted plus pending plus in flight plus lost |
| WriteBehind.PersistedOnce | orchestrator/internal/vfs/writebehind.go:176-217 | no row is persisted twice, or persisted and still pending, in flight or lost |
| WriteBehind.LostIff | orchestrator/internal/vfs/writebehind.go:186-213 | rows are lost if and only if some flush fails after its BeginTx |
| WriteBehind.OrderKeptIff | orchestrator/internal/vfs/writebehind.go:176-217 | in every interleaving the persisted rows are a front piece of the ingested ones, in order, if and only if every commit was in turn |
| WriteBehind.CommitKeepsOrderIff | orchestrator/internal/vfs/writebehind.go:176-217 | a commit keeps that order if and only if its batch is ascending and older than every row pending, lost or in another flush |
| WriteBehind.OrderKept | orchestrator/internal/vfs/writebehind.go:176-217 | with flushes that do not overlap and no late failure, persisted, in flight and pending are the ingested rows in order |
| WriteBehind.OverlapReorders | orchestrator/internal/vfs/writebehind.go:173-193 | two flushes can be under way at once and persist rows out of order |
| WriteBehind.RestoresReorder | orchestrator/internal/vfs/writebehind.go:186-193 | two overlapping flushes whose BeginTx fails leave the pending list out of order, and a lone flush then persists it so |
| WriteBehind.LateFailureDrops | orchestrator/internal/vfs/writebehind.go:186-213 | a failure after BeginTx drops the batch |
| WarmPool.Pool.Put | orchestrator/internal/pool/pool.go:50-55 | appends unless full, else discards |
| WarmPool.Pool.Get | orchestrator/internal/pool/pool.go:64-74 | takes the oldest slot if and only if there is one, the context was not done at the call, and the select does not prefer a context done since; otherwise nothing changes |
| WarmPool.Pool.Replenish | orchestrator/internal/pool/manager.go:224-237 | alone, fills the queue to capacity, slot i of the new ones with worker i mod n |
| WarmPool.RunKeeps | orchestrator/internal/pool/manager.go:154-253 | in every interleaving (threshold test, worker list, second length and each put of a refill being separate steps) idle is at most the capacity, idle plus running at least the capacity, and slots are created only by refill puts and destroyed only by a full queue |
| WarmPool.SlotsFixedIff | orchestrator/internal/pool/manager.go:224-253 | idle plus running equals the capacity throughout a run if and only if no refill put of the run finds room in the queue |
| WarmPool.TickIff | orchestrator/internal/pool/manager.go:245-247 | a refill is decided on if and only if fewer slots are idle than half the capacity, rounded down |
| WarmPool.RefillAfterHeartbeat | orchestrator/internal/pool/manager.go:224-237 | the refill plans the missing slots with the workers of the last heartbeat, and none if no worker is alive |
| WarmPool.RefillPutIs | orchestrator/internal/pool/manager.go:233-236 | its i-th put adds worker i mod n to the end of the queue unless it is full |
| WarmPool.GetThenPut | orchestrator/internal/pool/manager.go:154-168 | an execution takes the oldest idle slot and puts the same one back at the end |
| WarmPool.PutWhenFull | orchestrator/internal/pool/pool.go:50-55 | a slot given back to a full queue is dropped |
| WarmPool.SequentialRoundRobin | orchestrator/internal/pool/manager.go:154-253 | in sequential runs the refill never starts, idle plus running is the capacity and execution i runs on workers[(i mod capacity) mod n] |
| WarmPool.InFlightBoundedIff | orchestrator/internal/pool/pool.go:19-22 | the executions in flight stay within the capacity over all runs if and only if the capacity is below two |
| WarmPool.GetsExceedIff | orchestrator/internal/pool/pool.go:64-74 | in any state, new executions alone can exceed the capacity if and only if idle and running slots together exceed it |
| WarmPool.InFlightUnbounded | orchestrator/internal/pool/manager.go:239-253 | with two slots or more, for every m some run has at least m executions in flight |
| Streaming.ChunksCover | orchestrator/internal/api/handlers.go:386-395 | the chunks are the bytes in order, 1 to 4096 each, all but the last full |
| Streaming.StreamOutput | orchestrator/internal/api/handlers.go:386-411 | the loops send stdout's chunks and then stderr's wrapped chunks, cut off at the first failed write |
| Streaming.FramesCarry | orchestrator/internal/api/handlers.go:386-411 | the frames are stdout in pieces of 1 to 4096 bytes and then frames of nine escape bytes around a piece of stderr; taking those off gives stderr back byte for byte |
| Streaming.WrappedText | orchestrator/internal/api/handlers.go:405-406 | every stderr frame is ESC[31m, the chunk, ESC[0m |
| Streaming.Terminal.Enqueue | frontend/components/Terminal.tsx:236-245 | buffers the frame, counts its bytes and makes sure a flush is scheduled |
| Streaming.Terminal.FlushBuffer | frontend/components/Terminal.tsx:217-234 | writes the chunks the model's flush takes, keeps the rest and reschedules if any is left |
| Streaming.Terminal.DrainAll | frontend/components/Terminal.tsx:348-359 | cancels the schedule, writes everything if xterm is there, and empties the buffer |
| Streaming.RunKept | frontend/components/Terminal.tsx:217-245 | under every schedule with xterm loaded, screen plus buffer is what arrived in order, the pending count is exact and a non-empty buffer has a flush scheduled |
| Streaming.FlushBounded | frontend/components/Terminal.tsx:222-228 | one frame writes less than 32768 bytes plus one chunk and stops only at the limit or an empty buffer |
| Streaming.AnimateWrites | frontend/components/Terminal.tsx:217-234 | with xterm loaded a frame moves a front piece of the buffer to the screen, up to the limit, and asks for another if and only if something is left |
| Streaming.FramesShowAll | frontend/components/Terminal.tsx:217-234 | as many frames as there are chunks show everything, without a drain |
| Streaming.EndToEnd | orchestrator/internal/api/handlers.go:386-411 | after the drain the screen shows stdout and then frames in red whose text is stderr, whatever the schedule of animation frames |
| Streaming.ShownIff | frontend/components/Terminal.tsx:348-359 | whenever xterm loads, nothing that arrived is missing or out of order if and only if no drain before that discarded bytes |
| Streaming.DiscardedIff | frontend/components/Terminal.tsx:348-359 | over all runs bytes are discarded if and only if some arrived and a drain followed before xterm was loaded |
| Streaming.StalledIff | frontend/components/Terminal.tsx:217-245 | over all runs the buffer is non-empty with no flush scheduled if and only if an animation frame fired before xterm was loaded with bytes waiting, and since then nothing arrived and nothing was drained |
| VirtualTree.BuildTree | frontend/components/VirtualFileTree.tsx:113-153 | in whatever order entries come: the files found by descending from the top array are a permutation of the entries; each directory lists its files in that order; every directory is reachable from the top, linked exactly once and non-empty; every node fits its directory |
| VirtualTree.UnderTopIsAll | frontend/components/VirtualFileTree.tsx:113-153 | if every directory but the top is linked exactly once, descending from the top finds every file of every directory exactly once |
| VirtualTree.PlaceEntry | frontend/components/VirtualFileTree.tsx:120-150 | one entry adds exactly itself, last in its directory, and the missing ancestors |
| VirtualTree.ReachableFromTop | frontend/components/VirtualFileTree.tsx:128-141 | every directory is reached from the top through directories that list it |
| VirtualTree.ListedOnce | frontend/components/VirtualFileTree.tsx:130-139 | no directory path occurs twice |
| VirtualTree.FilePathIff | frontend/components/VirtualFileTree.tsx:121-149 | a file's path is its directory's path, a separator and its name if and only if the entry's path starts with a separator |

## Left out

- Wasmtime: engine, linker registration, module compilation, epochs and traps; only the steps of an execution around its slot are modelled.
- Seccomp guard, RSS watchdog, resource monitor, PII scrubber, capability templates: operating-system calls, constant tables or regular expressions.
- HTTP, gRPC and WebSocket plumbing, authentication, metrics, configuration, the compile endpoint, React rendering, Automerge merging, poll back-off.
- SQL read queries: their results depend on the database's tie-breaking.
- File timestamps and permission changes: files carry a mode but no times.
- Memory exhaustion: vectors and positions are unbounded, so a write far past the end is an overlay and not an abort.
- Deadlock: `path_open` and the descriptor operations take the two VFS locks in opposite orders; a call that has to wait takes no step, and the model does not establish progress.
- Negative guest pointers: shim arguments are natural numbers; the code sign-extends a negative 32-bit pointer.
- Floating point: rates and utilisation are exact (milliseconds and rationals), so rounding of times and of 0.9 is not modelled.
- Locale collation in the file tree: the sort is any permutation of the entries.
- RingBuffers.RingBuffer.Write: asks that buffer and data together fit a 64-bit address space, and models the wrapping subtraction of a release build; a debug build panics there.
- WriteShim.FdWriteShim: the same address-space bound for all buffers together.
- Vfs.VfsState.ListDir: the explicit sort after the scan is not a step of its own, since the scan is already strictly ascending.
- QuotaProtocol.QuotaHolds: the shared counter is unbounded; wrapping it would take 2^64 bytes of writes in flight.
- WriteBehind.WriteBehindSync.Flush: a commit error counts as not persisted, although a database may have committed before reporting it.
- Interleavings (VFS calls, quota, descriptor table, slots, admission, warm pool, flushes) are step functions on state values beside the classes: one step per lock section, atomic operation, channel operation or slot creation; update in place and aliasing inside one step are not modelled.
- WarmPool.RunKeeps: a heartbeat replaces the worker list in one step, by any list; its health calls are not steps.
- VirtualTree.BuildTree: shared mutable children arrays are a map from directory path to children; object identity is not modelled.
