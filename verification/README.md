# Verification of the kernel's devices and the guest's host side

Dafny models of the parts of this repository where an interleaving, a wrap-around
or a length computed on two sides can go wrong, and proofs of what they promise.
Every program member that keeps state is a class or a method proved against a
function of its old state; what the program promises is then proved about those
functions, over every input and every run.

| files | what they model |
|---|---|
| RingPositions, PackedQueue, PackedRing | a packed virtqueue and a driver that keeps to section 2.8 of VIRTIO 1.2, over unbounded positions that the (index, wrap counter) pairs stand for |
| Device | kicks, the drain loop, spawned work, reset and shutdown of a device; one step is one synchronous turn |
| Remote, RemoteThreads, RemoteSafety, RemoteDelivery, RemoteQuiescence | a device in a worker: two threads, two FIFO channels and the shared epochs, in every interleaving |
| Checksum, IpPacket, Reassembly, ReassemblyBytes, ReassemblyFate, Reassembler, FragmentRoundTrip | the userspace IPv4 layer: RFC 1071 checksums, cutting, parsing and reassembly |
| TcpReceive, TcpStream, TcpAnswers | the receiving side of a TCP flow (RFC 9293) |
| FuseTables, FuseLive, FuseRequests, FuseRuns, FuseSystem, FuseGuest, Readdir | the filesystem device's reference-counted node table, its handles and its directory pages |
| LaneWire, LaneEnds, LaneSync, LanePool | the unframed syscall lanes between host and agent, and their pool |
| Vsock, VsockCredit | a vsock connection and its credit in both directions (section 5.10.6.3 of VIRTIO 1.2) |
| HttpReader, HttpChunked, HttpGrammar | HTTP/1.1 heads, lines and the chunked coding (section 7.1 of RFC 9112) over a stream cut anywhere |
| WasmBinary, WasmTypes, WasmImports, WasmModule, WasmGrammar, WasmWritten | LEB128 numbers, the type section and the two import walkers, and the modules a producer may write (chapter 5 of the WebAssembly Core Specification) |
| GrowingBytes, ObjectKeys, Devicetree, DevicetreeNodes, DevicetreeWriter, DevicetreeRoundTrip | the growable buffer and the flattened devicetree (chapter 5 of the Devicetree Specification) |
| Block | moving a block request's segments, and flush ordering |
| Wrappers, BigEndian, LittleEndian | shared types and number encodings |

`dafny verify dfyconfig.toml` checks the whole project.

How to read it: a function such as `Reassembly.Delivered` or `TcpReceive.Processed`
says what one step does; the method of the class beside it is the program and
ensures that it takes that step; `RemoteThreads` and `PackedRing.DevicePops` bind
such programs to the systems of several parties; lemmas named as sentences hold
of every run.
Parameters stand for what lies outside: the order in which turns and messages
happen, how streams are cut and reads come up short, what the kernel, the
filesystem backend and storage answer, and when timers fire.

Where the code does less than one might expect, the project says exactly when:

- A notify waits unserved on an enabled queue exactly if a kick failed while it
  was waiting and nothing has cleared it since (`Device.NotifyStrandedExactly`).
- A reset waits for a snapshot of the active work. Running work from before the
  reset stays within that snapshot exactly as long as no such work spawns more
  (`Device.CoversStep`). Without such spawning a settled reset is quiet
  (`Device.SettledResetIsQuiet`), and each such spawn can outlive the wait
  (`Device.LateSpawnOutlivesReset`). Kicks that spawn synchronously, as the block
  device's do, never spawn late (`Device.PromptRunIsTimely`).
- A failed remote device is revoked by one bump of slot 0 alone. A chain from
  before the failure commits only if another queue is enabled after it
  (`RemoteSafety.OnlyCurrentCommits`), and then it can
  (`RemoteSafety.EnableAfterFailureRevivesOldChains`).
- A devicetree comes back from its blob exactly if every number in it fits its
  cell, every typed array spans its buffer, no name has a NUL in it and no
  reservation is (0, 0) (`DevicetreeRoundTrip.BlobReadsExactly`). It is written at
  all exactly if no name is too long, no property is named like a member of
  Object.prototype, and no object nested in it has a key `constructor`
  (`DevicetreeWriter.Generate`).
- A LOOKUP, MKDIR, SYMLINK or CREATE whose node's attributes cannot be read answers
  an error after it has counted the lookup. The device's counts are the guest's
  exactly if that never happens (`FuseGuest.CountsTrueExactlyIfTold`); each time it
  does, the record stays for ever (`FuseGuest.UntoldStaysForEver`), and a CREATE's
  open file is never made a handle, so that nothing releases it.
- A lane that fails to open gives its place back and wakes nobody: a caller is left
  waiting with no lane in use exactly if the last lane in use fails to open while
  it waits (`LanePool.WaitsInVainExactly`).
- A spawn payload above 4 MiB ends the lane rather than failing with an errno;
  nothing on the host checks for it (`LaneSync.LongDirectoryEndsLane`).

## Model

| member | source | states |
|---|---|---|
| `PackedQueue.PackedVirtqueue.constructor` | packages/kernel/src/virtio/queue.ts:147-176 | a new queue stands at position 0 of both counts |
| `PackedQueue.PackedVirtqueue.Invalidate` | packages/kernel/src/virtio/queue.ts:178-180 | only the valid flag changes |
| `PackedQueue.PackedVirtqueue.Advance` | packages/kernel/src/virtio/queue.ts:253-269 | takes the slot of the unbounded position p exactly when its descriptor carries that lap's available bit, and then stands at p + 1 |
| `PackedQueue.PackedVirtqueue.FollowLinks` | packages/kernel/src/virtio/queue.ts:221-228 | the linked chain from the position on, or None where it breaks off; the cursor passes exactly the descriptors seen |
| `PackedQueue.PackedVirtqueue.Pop` | packages/kernel/src/virtio/queue.ts:212-246 | returns what the ring alone determines at the position: nothing, the whole linked or indirect chain, or one of the two malformed cases, and nothing once the queue is revoked; in every case the cursor passes exactly the descriptors taken |
| `PackedQueue.PackedVirtqueue.ReadTable` | packages/kernel/src/virtio/queue.ts:195-210 | the descriptors of an indirect table, in order |
| `PackedQueue.PackedVirtqueue.Release` | packages/kernel/src/virtio/queue.ts:271-303 | drops stale releases, reports a full ring exactly when the slot was not available, and otherwise writes one used descriptor at the used position and moves by the chain's length |
| `PackedQueue.Publish` | packages/kernel/src/virtio/queue.ts:130-145 | only the id, length and flags of one slot change |
| `PackedQueue.LapEndsRun` | packages/kernel/src/virtio/queue.ts:221-228 | a chain cannot link on for a whole lap: the first slot would need both phases, so the loop ends |
| `PackedQueue.PopsExactly` | packages/kernel/src/virtio/queue.ts:195-246 | on any ring, malformed ones included: a pop is empty exactly if the descriptor is not available, throws exactly if a chain breaks off or a table is no whole number of descriptors or too large, and otherwise yields the linked chain, the table or the one descriptor |
| `PackedRing.CollectFinds` | packages/kernel/src/virtio/queue.ts:271-303 | the driver finds a used descriptor exactly when a release is uncollected, and it names that release |
| `PackedRing.PopFinds` | packages/kernel/src/virtio/queue.ts:212-246 | in every reachable state a pop finds the oldest unpopped chain, or nothing if there is none |
| `PackedRing.TableReads` | packages/kernel/src/virtio/queue.ts:195-210 | where memory holds a list of descriptors sixteen bytes apart, reading the table gives that list |
| `PackedRing.ReleaseFits` | packages/kernel/src/virtio/queue.ts:278-282 | a held chain always finds its slot available |
| `PackedRing.StepKeeps` | packages/kernel/src/virtio/queue.ts:212-303 | every step of driver or device keeps the ring invariant |
| `PackedRing.CursorsStayWithinALap` | packages/kernel/src/virtio/queue.ts:253-303 | over all runs used <= popped <= submitted <= used + size, and the free count is exact |
| `PackedRing.EachChainPoppedOnceInOrder` | packages/kernel/src/virtio/queue.ts:212-246 | over all runs each chain is popped once, in submission order, with its id, length and buffers; a pop is empty only when all are popped, and never malformed |
| `PackedRing.EachReleaseSeenOnce` | packages/kernel/src/virtio/queue.ts:271-303 | over all runs each release, in whatever order, is seen exactly once with its own request and length |
| `PackedRing.ReleaseNeverRingFull` | packages/kernel/src/virtio/queue.ts:278-282 | over all runs releasing a held chain never meets a full ring |
| `PackedRing.DevicePops` | packages/kernel/src/virtio/queue.ts:212-246 | the program's pop takes the pop step of the two-sided model |
| `PackedRing.DeviceReleases` | packages/kernel/src/virtio/queue.ts:271-303 | the program's release takes the release step of the two-sided model |
| `Device.VirtioDevice.constructor` | packages/kernel/src/virtio/device.ts:126-170 | a fresh device is the model's initial state |
| `Device.VirtioDevice.DispatchKick` | packages/kernel/src/virtio/device.ts:224-238 | one pass of the drain loop: starts a tracked kick, fails for a missing queue, or does nothing once stopped |
| `Device.VirtioDevice.BeginDrain` | packages/kernel/src/virtio/device.ts:248-253 | a drain starts only where none runs and a queue is enabled |
| `Device.VirtioDevice.ResumeDrain` | packages/kernel/src/virtio/device.ts:253-261 | after the await the loop goes on exactly while a notify is pending and the queue enabled |
| `Device.VirtioDevice.EnableQueue` | packages/kernel/src/virtio/device.ts:290-317 | a new queue object is installed, and a pending notify drained |
| `Device.VirtioDevice.DisableQueue` | packages/kernel/src/virtio/device.ts:318-324 | the queue and its pending notify go |
| `Device.VirtioDevice.NotifyQueue` | packages/kernel/src/virtio/device.ts:325-328 | the notify is recorded, then drained if it can be |
| `Device.VirtioDevice.ResetQueues` | packages/kernel/src/virtio/device.ts:329-341 | every queue goes, and the reset's wait is for the work active now |
| `Device.VirtioDevice.SpawnWork` | packages/kernel/src/virtio/device.ts:188-197 | spawned work joins the active set |
| `Device.VirtioDevice.ShutDown` | packages/kernel/src/virtio/device.ts:199-213 | stops once, and waits for the active set |
| `Device.VirtioDevice.ShutDownPass` | packages/kernel/src/virtio/device.ts:210-215 | closes when the active set is empty, and otherwise waits again |
| `Device.StepKeeps` | packages/kernel/src/virtio/device.ts:188-341 | every turn keeps the scheduling invariant |
| `Device.OneKickPerQueue` | packages/kernel/src/virtio/device.ts:248-262 | over all runs no two kicks of one queue are in flight together |
| `Device.StrandedStep` | packages/kernel/src/virtio/device.ts:248-262 | a turn leaves an enabled queue with no drain running and a pending notify exactly if a drain resumes from a failed kick with a notify waiting, or it was so and the turn does not enable, disable or notify that queue or reset the device |
| `Device.NotifyStrandedExactly` | packages/kernel/src/virtio/device.ts:248-262 | over all runs: such a queue is left exactly if some resume from a failed kick left its notify waiting and nothing has cleared it since |
| `Device.FailedKickStrandsNotify` | packages/kernel/src/virtio/device.ts:257-261 | a run of that kind |
| `Device.NotifyKept` | packages/kernel/src/virtio/device.ts:248-262 | no turn loses a notify: it waits, or a kick of its queue starts in that turn, or the turn is that queue's disable or a reset, or the device is stopped or has no such queue |
| `Device.NotifyIsGuests` | packages/kernel/src/virtio/device.ts:248-328 | and none is made up: what waits was there or has just come, and is gone once a kick starts or the guest takes the queue away |
| `Device.KickStartsExactly` | packages/kernel/src/virtio/device.ts:248-328 | a kick starts exactly in a turn that enables a free queue with a notify waiting, notifies a free enabled one, or resumes after a kick that did not fail with a notify waiting |
| `Device.DrainsExactly` | packages/kernel/src/virtio/device.ts:248-262 | until the device stops, a drain is running after a turn exactly if the turn started a kick, or it was running and the turn was not its own |
| `Device.WorkHasCause` | packages/kernel/src/virtio/device.ts:188-262 | a turn starts no work but such a kick or what running work spawns |
| `Device.KickIsOfLatestEnable` | packages/kernel/src/virtio/device.ts:224-341 | over all runs a kick starts only for the queue of its latest enable, with no disable or reset since, and carries that queue's own number |
| `Device.NotifyIsAnswered` | packages/kernel/src/virtio/device.ts:248-328 | over all runs every notify is followed by a kick of its queue, unless it still waits, or the guest took the queue away, or the device was stopped |
| `Device.NoKickAfterStop` | packages/kernel/src/virtio/device.ts:199-225 | no turn after a stop starts a kick |
| `Device.NoKickEverAfterStop` | packages/kernel/src/virtio/device.ts:199-225 | nor does any run after one |
| `Device.ClosesOnceWhenIdle` | packages/kernel/src/virtio/device.ts:199-221 | over all runs close() is called at most once, only when stopped and idle, with nothing running afterwards; exactly once when shutdown has finished |
| `Device.PassClosesExactly` | packages/kernel/src/virtio/device.ts:210-221 | a pass of the shutdown closes exactly if nothing is active, and otherwise waits for all that is |
| `Device.LaterResetCoversEarlier` | packages/kernel/src/virtio/device.ts:329-341 | once a later reset's work has settled so has every earlier reset's |
| `Device.CoversStep` | packages/kernel/src/virtio/device.ts:188-341 | every turn: a reset that waits for all running work from before it goes on doing so exactly if the turn is no late spawn, one by work from before that reset |
| `Device.SettledResetIsQuiet` | packages/kernel/src/virtio/device.ts:329-341 | over all runs without late spawns: once a reset's work has settled, no running work holds chains from before it |
| `Device.PromptRunIsTimely` | packages/kernel/src/virtio/block.ts:141-145 | kicks that spawn only in their first turn, as the block device's do, never spawn late |
| `Device.OutlivedExactly` | packages/kernel/src/virtio/device.ts:340 | work can settle so that a reset's wait ends with older work still running exactly if some running older work is not in its snapshot |
| `Device.LateSpawnOutlivesReset` | packages/kernel/src/virtio/device.ts:188-197 | in every reachable state: what a late spawn starts is older than the reset, outside its snapshot, and can outlive its wait |
| `Device.LateSpawnHappens` | packages/kernel/src/virtio/device.ts:188-197 | a run of that kind |
| `Remote.Connection.EnableQueue` | packages/kernel/src/virtio/remote.ts:271-286 | bumps the queue's epoch, enables it, and posts both epochs |
| `Remote.Connection.DisableQueue` | packages/kernel/src/virtio/remote.ts:287-292 | disables, bumps the queue's epoch, posts |
| `Remote.Connection.NotifyQueue` | packages/kernel/src/virtio/remote.ts:293-295 | posts, and changes nothing else |
| `Remote.Connection.Reset` | packages/kernel/src/virtio/remote.ts:296-306 | revokes everything before the worker hears of it, and files the reset last |
| `Remote.Connection.Revoke` | packages/kernel/src/virtio/remote.ts:313-316 | bumps slot 0 and disables every queue |
| `Remote.Connection.Fail` | packages/kernel/src/virtio/remote.ts:221-226 | the first failure bumps slot 0 and nothing else |
| `Remote.Connection.Shutdown` | packages/kernel/src/virtio/remote.ts:187-193 | revokes and posts close, once |
| `Remote.Connection.Receive` | packages/kernel/src/virtio/remote.ts:228-250 | a completion is committed exactly when its queue is enabled and both epochs match; an acknowledgement releases the oldest reset; closed releases all |
| `Remote.Server.OnMessage` | packages/kernel/src/virtio/remote.ts:354-445 | the worker's handling of each message is the model's |
| `Remote.Server.PublishCompletion` | packages/kernel/src/virtio/remote.ts:378-398 | posts a completion, with the worker's own epochs, exactly when its queue object is installed and its epochs look current |
| `Remote.Server.ReportClosed` | packages/kernel/src/virtio/remote.ts:432-436 | stops listening and reports |
| `Remote.Server.AcknowledgeReset` | packages/kernel/src/virtio/remote.ts:423-428 | posts one acknowledgement |
| `RemoteSafety.StepKeeps` | packages/kernel/src/virtio/remote.ts:228-445 | every step of either thread or either channel keeps the safety invariant |
| `RemoteSafety.CommitIsCurrent` | packages/kernel/src/virtio/remote.ts:228-240 | in every reachable state a completion the main thread would commit belongs to the latest enable of its queue, with nothing since |
| `RemoteSafety.OnlyCurrentCommits` | packages/kernel/src/virtio/remote.ts:228-316 | over all interleavings: a committed completion was popped from the queue of the latest enable, with no disable, reset or revoke since; after a failure, from a queue enabled before it, only if another queue was enabled after it, so with a single queue never |
| `RemoteSafety.DoneFindsReset` | packages/kernel/src/virtio/remote.ts:246-248 | an acknowledgement always finds a reset to release |
| `RemoteSafety.ReleasesQuiesced` | packages/kernel/src/virtio/remote.ts:296-319 | whatever releases a reset, the worker has run it and its work has settled |
| `RemoteSafety.ResetReleasedAfterQuiescence` | packages/kernel/src/virtio/remote.ts:296-319 | over all interleavings the n-th reset is released, by its acknowledgement or by closed, only after all work active when the device ran it has settled; with closed, nothing runs at all |
| `RemoteDelivery.CommitExactly` | packages/kernel/src/virtio/remote.ts:228-240 | in every reachable state a completion that arrives is committed exactly if it is of the live enable of its queue and the device epoch is still its own |
| `RemoteDelivery.LiveCompletionCommits` | packages/kernel/src/virtio/remote.ts:228-240 | over all interleavings, while nothing has failed, a completion of the live enable of its queue is committed |
| `RemoteDelivery.LiveChainIsPosted` | packages/kernel/src/virtio/remote.ts:378-398 | and the worker posts it: a chain of the queue it has installed, released while the epochs are its own, goes up as a completion |
| `RemoteDelivery.WorkerEndsUpAsWanted` | packages/kernel/src/virtio/remote.ts:271-306 | over all interleavings, when every message has been read the worker has exactly the queues the guest last wanted |
| `RemoteDelivery.NotifyArrives` | packages/kernel/src/virtio/remote.ts:293-295 | a notify the worker reads waits or starts a kick, unless the device has stopped |
| `RemoteDelivery.CloseArrives` | packages/kernel/src/virtio/remote.ts:187-193 | over all interleavings a request to close has stopped the device once every message has been read |
| `RemoteDelivery.DoneReleasesOldest` | packages/kernel/src/virtio/remote.ts:246-248 | in every reachable listening state an acknowledgement releases exactly one reset, the one numbered by how many were released before it |
| `RemoteDelivery.ResetsReleasedInOrder` | packages/kernel/src/virtio/remote.ts:144-165 | over all interleavings the resets released so far and those still waiting are all that were issued, in order, each once; closed releases all the rest |
| `RemoteDelivery.EnabledExactly` | packages/kernel/src/virtio/remote.ts:271-316 | a queue is enabled on the main thread from its enable to its disable, a reset, a shutdown or the report that the device has closed |
| `RemoteDelivery.DeviceEpochExactly` | packages/kernel/src/virtio/remote.ts:215-316 | those and the first failure move the device epoch on by one, enables and disables their queue's, and nothing else does |
| `RemoteDelivery.OnlyOnce` | packages/kernel/src/virtio/remote.ts:187-226 | a second failure or shutdown does nothing, and after the report that the device has closed neither side reads on |
| `RemoteQuiescence.ReleasedResetIsQuiet` | packages/kernel/src/virtio/remote.ts:296-319 | over all interleavings, for kicks that spawn synchronously: when the main thread's n-th reset is released, all work still running has chains of an enable made after that reset |
| `RemoteSafety.EnableAfterFailureRevivesOldChains` | packages/kernel/src/virtio/remote.ts:221-226 | and that condition is met: from every ready state, enabling any other queue after a failure lets a chain popped before it commit |
| `RemoteThreads.Start` | packages/kernel/src/virtio/remote.ts:198-258 | a fresh connection and server are the initial state of the two-thread system |
| `RemoteThreads.Enable` | packages/kernel/src/virtio/remote.ts:271-286 | the main thread's enable takes that system's step |
| `RemoteThreads.Disable` | packages/kernel/src/virtio/remote.ts:287-292 | so does its disable |
| `RemoteThreads.Notify` | packages/kernel/src/virtio/remote.ts:293-295 | its notify |
| `RemoteThreads.Reset` | packages/kernel/src/virtio/remote.ts:296-306 | its reset |
| `RemoteThreads.Shutdown` | packages/kernel/src/virtio/remote.ts:187-193 | its shutdown |
| `RemoteThreads.Fail` | packages/kernel/src/virtio/remote.ts:221-226 | its failure |
| `RemoteThreads.MainReceives` | packages/kernel/src/virtio/remote.ts:144-165 | and its handling of a message, whose effect on guest memory and resets is the system's |
| `RemoteThreads.WorkerReceives` | packages/kernel/src/virtio/remote.ts:354-448 | the worker's handling of a message takes the system's step |
| `RemoteThreads.DrainResumes` | packages/kernel/src/virtio/device.ts:253-261 | so does a drain that resumes |
| `RemoteThreads.WorkSpawns` | packages/kernel/src/virtio/device.ts:188-197 | work that spawns |
| `RemoteThreads.ShutdownResumes` | packages/kernel/src/virtio/device.ts:210-215 | a shutdown that resumes |
| `RemoteThreads.Release` | packages/kernel/src/virtio/remote.ts:378-398 | a chain released, with the check of the epochs coming out as they stand |
| `RemoteThreads.Acknowledge` | packages/kernel/src/virtio/remote.ts:423-428 | an acknowledgement |
| `RemoteThreads.Close` | packages/kernel/src/virtio/remote.ts:432-436 | and the report that it has closed |
| `Checksum.Checksum` | packages/linux-guest/src/network.ts:334-349 | depends only on the concatenation of the parts, odd-length parts included |
| `Checksum.FoldShrinks` | packages/linux-guest/src/network.ts:347 | each fold makes the sum smaller, so the loop ends |
| `Checksum.FoldedResidue` | packages/linux-guest/src/network.ts:347 | the folding loop computes the residue modulo 0xffff, with 0xffff for non-zero multiples |
| `Checksum.SumFitsShift` | packages/linux-guest/src/network.ts:347 | for every legal segment with its pseudo-header the sum stays below 2^32 |
| `Checksum.StoredSum` | packages/linux-guest/src/network.ts:661-664 | storing a value at an even offset adds it to the sum |
| `Checksum.StoredChecksumVerifies` | packages/linux-guest/src/network.ts:719-742 | the whole sums to 0xffff exactly for the checksum stored there (or for the other zero when it is 0) |
| `IpPacket.FrameHeaderVerifies` | packages/linux-guest/src/network.ts:634-664 | every header sent sums to 0xffff |
| `IpPacket.FrameIsAddressed` | packages/linux-guest/src/network.ts:634-664 | every frame has the guest's address first, then the gateway's, then an IPv4 header without options, at the offsets of RFC 894 and RFC 791, with its own length and flags and a sum that verifies |
| `IpPacket.ParsesExactly` | packages/linux-guest/src/network.ts:464-493 | which frames parse_ip takes, exactly, and what it reads of them, options passed over |
| `IpPacket.ParseFrame` | packages/linux-guest/src/network.ts:464-493 | parse_ip recovers from a built frame exactly what it was built from |
| `IpPacket.SendIp` | packages/linux-guest/src/network.ts:669-706 | a payload that fits goes out whole and not to be fragmented, a larger one as its cuts, each frame addressed to the guest, and parse_ip gives each back; too large a payload is refused |
| `Reassembler.FindIndex` | packages/linux-guest/src/network.ts:1232-1234 | the first piece that ends after the fragment starts |
| `Reassembler.FindSameRange` | packages/linux-guest/src/network.ts:1246-1250 | a piece with the same offset and length, if there is one |
| `Reassembler.IsContiguous` | packages/linux-guest/src/network.ts:1278-1283 | true exactly when the pieces lie end to end from 0 to the length |
| `Reassembler.Fill` | packages/linux-guest/src/network.ts:1285-1286 | copying each piece to its offset joins them |
| `Reassembler.Weigh` | packages/linux-guest/src/network.ts:1223-1283 | comparing two neighbours decides overlap with any piece, and the verdict is the specified one |
| `Reassembler.Table.Discard` | packages/linux-guest/src/network.ts:1196-1201 | the entry and its timer go together |
| `Reassembler.Table.Open` | packages/linux-guest/src/network.ts:1209-1222 | an existing entry, or a new one at the cost of the oldest when 64 are held |
| `Reassembler.Table.Deliver` | packages/linux-guest/src/network.ts:1203-1294 | the program takes the specified step and keeps the invariant |
| `Reassembler.Table.Expire` | packages/linux-guest/src/network.ts:1219 | a timer discards its own entry |
| `Reassembler.Table.Drop` | packages/linux-guest/src/network.ts:1470-1472 | entries of a leaving guest, or all on close, go |
| `Reassembly.OverlapIsAtInsertion` | packages/linux-guest/src/network.ts:1241-1245 | in sorted pieces only the first one ending after the fragment starts can overlap it |
| `Reassembly.ExpiredIsDiscarded` | packages/linux-guest/src/network.ts:1219 | a firing timer discards its own entry and is no longer armed |
| `Reassembly.TableStaysSound` | packages/linux-guest/src/network.ts:1196-1294 | over all runs: at most 64 entries with distinct keys, exactly their own timers armed, and in each at most 64 sorted, disjoint, non-empty pieces within the length |
| `ReassemblyBytes.TilingIffCovered` | packages/linux-guest/src/network.ts:1277-1283 | pieces lie end to end exactly when they leave no byte uncovered |
| `ReassemblyBytes.CompleteIffCovered` | packages/linux-guest/src/network.ts:1266-1293 | a fragment that is taken completes its datagram exactly when the length is known and every byte has arrived |
| `ReassemblyBytes.ReturnedPacketIsDelivered` | packages/linux-guest/src/network.ts:1203-1294 | over all runs each byte of a returned packet comes from the one covering piece, delivered under the same key |
| `ReassemblyFate.JudgeExactly` | packages/linux-guest/src/network.ts:1223-1293 | a fragment is refused exactly if the packet would be too long, or it shares a byte with another piece it does not repeat, or is the 65th, or contradicts where the datagram ends; and what it does otherwise |
| `ReassemblyFate.WholeIsReturned` | packages/linux-guest/src/network.ts:1203-1208 | an unfragmented packet is returned at once, whatever the table holds |
| `ReassemblyFate.DeliveredExactly` | packages/linux-guest/src/network.ts:1203-1294 | a packet is returned exactly if the fragment is new, not refused, and with it every byte of a known length has come; its entry stays exactly if it is neither refused nor complete |
| `ReassemblyFate.EntryGoesExactly` | packages/linux-guest/src/network.ts:1196-1294 | in every reachable state an entry goes exactly if a whole packet comes under its key, a fragment completes it or is refused, its own timer fires, its guest leaves, or it is first of 64 when another datagram begins |
| `ReassemblyFate.TableIsInOrder` | packages/linux-guest/src/network.ts:1209-1222 | over all runs the table is in order of creation, so that the first entry is the oldest |
| `FragmentRoundTrip.JudgeCut` | packages/linux-guest/src/network.ts:1223-1293 | one more cut repeats, completes or extends an entry that holds cuts of the same datagram |
| `FragmentRoundTrip.TableHoldsGot` | packages/linux-guest/src/network.ts:1203-1294 | over all runs an entry holds exactly the cuts delivered since it was created |
| `FragmentRoundTrip.StayingEntryGetsEveryCut` | packages/linux-guest/src/network.ts:1203-1294 | while its entry stays, every cut delivered counts |
| `FragmentRoundTrip.LastMissingCutReturnsTheDatagram` | packages/linux-guest/src/network.ts:669-706 | over all runs, in any order with duplicates among other traffic: a packet is returned exactly when the last missing cut arrives, and it is the datagram byte for byte |
| `TcpReceive.TcpFlow.FromGuest` | packages/linux-guest/src/network.ts:977-1000 | a flow the guest opens starts one past its SYN |
| `TcpReceive.TcpFlow.FromHost` | packages/linux-guest/src/network.ts:1328-1348 | a flow the host opens waits for the handshake |
| `TcpReceive.TcpFlow.Acknowledge` | packages/linux-guest/src/network.ts:808-816 | every waiter for the number leaves, the others stay in order |
| `TcpReceive.TcpFlow.Close` | packages/linux-guest/src/network.ts:861-899 | closing fails the stream and drops its queue, or ends it |
| `TcpReceive.TcpFlow.Establish` | packages/linux-guest/src/network.ts:1062-1078 | the handshake half of process_tcp |
| `TcpReceive.TcpFlow.Accept` | packages/linux-guest/src/network.ts:1092-1106 | queueing the payload, and a FIN's effects |
| `TcpReceive.TcpFlow.Process` | packages/linux-guest/src/network.ts:1050-1107 | process_tcp takes the specified step and answers as specified |
| `TcpReceive.ReceiveWindow` | packages/linux-guest/src/network.ts:774-778 | on a host-opened flow unread bytes and advertised window together are 65535; nothing is advertised for a failed stream |
| `TcpStream.HostReadsAPrefix` | packages/linux-guest/src/network.ts:1081-1106 | over all runs, for any loss, duplication and reordering: what was read is a prefix of the guest's stream, the sequence number is its length offset modulo 2^32, and at most 65535 bytes are unread |
| `TcpStream.ExactlyTheNextSegmentIsTaken` | packages/linux-guest/src/network.ts:1083-1097 | a data segment is taken exactly when it is the next and fits the window |
| `TcpStream.AcksOnlyWhatWasReceived` | packages/linux-guest/src/network.ts:1083-1103 | every answer acknowledges exactly what has entered the stream |
| `TcpAnswers.AnswersOnce` | packages/linux-guest/src/network.ts:1081-1103 | an established open flow answers every segment that takes sequence space and is no reset exactly once, with the position after the step and the window of that moment |
| `TcpAnswers.NextSegmentMoves` | packages/linux-guest/src/network.ts:1093-1103 | a segment that is taken moves that position by its payload and FIN |
| `TcpAnswers.HandshakeExactly` | packages/linux-guest/src/network.ts:1061-1079 | a flow becomes established exactly by the segment that completes its handshake, and what it answers then |
| `TcpAnswers.HostOpensExactly` | packages/linux-guest/src/network.ts:1061-1074 | a flow the host opens takes for its handshake exactly a SYN that acknowledges its own, and acknowledges it with the whole window |
| `TcpAnswers.GuestOpensExactly` | packages/linux-guest/src/network.ts:1075-1079 | one the guest opens is established exactly by an acknowledgement of where it stands |
| `TcpAnswers.WaitersLeave` | packages/linux-guest/src/network.ts:808-816 | an acknowledgement releases exactly the waiters at or before its number |
| `TcpAnswers.WaitersInOrder` | packages/linux-guest/src/network.ts:808-816 | and keeps the others in order |
| `TcpAnswers.AckReleasesWaiters` | packages/linux-guest/src/network.ts:1056-1059 | a segment with an acknowledgement does so whatever else it carries |
| `TcpAnswers.EndsExactly` | packages/linux-guest/src/network.ts:1093-1106 | the stream ends exactly by a FIN that is taken |
| `TcpAnswers.ResetBreaks` | packages/linux-guest/src/network.ts:1052-1055 | a reset fails the stream and drops what is unread |
| `TcpAnswers.QuietCloseKeepsData` | packages/linux-guest/src/network.ts:861-899 | a close without an error leaves the unread data to be read, and then the end |
| `TcpAnswers.AfterTheEnd` | packages/linux-guest/src/network.ts:1093-1103 | whatever a guest sends in sequence after its stream is over is answered with a reset, and the flow breaks |
| `TcpAnswers.WindowExactly` | packages/linux-guest/src/network.ts:774-778 | the window in every state of the stream |
| `TcpStream.RightEdgeNeverMovesLeft` | packages/linux-guest/src/network.ts:774-778 | on a host-opened flow the window's right edge never moves left while the stream is open |
| `FuseTables.Tables.RecordForNode` | packages/kernel/src/virtio/fs.ts:729-745 | the node's record, or a new one counted at its parent |
| `FuseTables.Tables.CollectRecord` | packages/kernel/src/virtio/fs.ts:747-755 | drops dead records upwards; it terminates |
| `FuseTables.Tables.Forget` | packages/kernel/src/virtio/fs.ts:757-760 | saturating decrement, then collection |
| `FuseTables.Tables.Lookup` | packages/kernel/src/virtio/fs.ts:827-833 | one more lookup on the node's record |
| `FuseTables.Tables.AddHandle` | packages/kernel/src/virtio/fs.ts:780-785 | a fresh handle, counted |
| `FuseTables.Tables.Create` | packages/kernel/src/virtio/fs.ts:1015-1029 | a lookup on the node's record, and, if its attributes could be read, a new handle on it |
| `FuseTables.Tables.RemoveHandle` | packages/kernel/src/virtio/fs.ts:787-791 | the handle goes, then collection |
| `FuseTables.Tables.BatchForget` | packages/kernel/src/virtio/fs.ts:884-894 | the known entries first, then each forgotten in turn |
| `FuseTables.Tables.Rename` | packages/kernel/src/virtio/fs.ts:975-997 | re-parenting, then collection of the old parent |
| `FuseTables.Tables.List` | packages/kernel/src/virtio/fs.ts:1114-1144 | every entry gets a record, and each is collected again |
| `FuseTables.Tables.Finalize` | packages/kernel/src/virtio/fs.ts:793-813 | every handle is closed |
| `FuseLive.NoDeadIsSwept` | packages/kernel/src/virtio/fs.ts:747-755 | a table with no dead record is its own sweep: everything in it is live |
| `FuseLive.SweptAgree` | packages/kernel/src/virtio/fs.ts:747-755 | dropping records that are not live first makes no difference to the sweep |
| `FuseRequests.CollectedOk` | packages/kernel/src/virtio/fs.ts:747-755 | collecting upwards keeps the counts and the tree, changes nothing a sweep would keep, and leaves nothing dead where it worked |
| `FuseRequests.CollectedIsSwept` | packages/kernel/src/virtio/fs.ts:747-755 | collecting from the one possibly dead record is the whole sweep |
| `FuseRequests.ForgotIsSwept` | packages/kernel/src/virtio/fs.ts:757-760 | FORGET is the sweep of the lowered table |
| `FuseRequests.RemovedIsSwept` | packages/kernel/src/virtio/fs.ts:787-791 | RELEASE is the sweep of the table without the handle |
| `FuseRuns.SweptInv` | packages/kernel/src/virtio/fs.ts:729-791 | a sweep has true counts, a tree, and nothing dead |
| `FuseRuns.BatchIsSwept` | packages/kernel/src/virtio/fs.ts:884-894 | BATCH_FORGET is one sweep after every count has been taken off |
| `FuseRuns.BatchOrderIsIrrelevant` | packages/kernel/src/virtio/fs.ts:884-894 | the same entries in any order leave the same table |
| `FuseSystem.LookedUpInv` | packages/kernel/src/virtio/fs.ts:827-833 | LOOKUP keeps the invariant, and the guest's reference holds the record |
| `FuseSystem.CreatedInv` | packages/kernel/src/virtio/fs.ts:1015-1029 | so does CREATE |
| `FuseSystem.ListingLeavesNothing` | packages/kernel/src/virtio/fs.ts:1114-1144 | READDIR of any entries leaves the tables as they were but for the numbers used |
| `FuseSystem.DestroyIsSwept` | packages/kernel/src/virtio/fs.ts:793-813 | DESTROY closes every handle and keeps just what lookups need |
| `FuseSystem.RenamedIsSwept` | packages/kernel/src/virtio/fs.ts:982-995 | RENAME is the sweep of the re-parented table, if the record is not above its new parent |
| `FuseSystem.ApplyKeeps` | packages/kernel/src/virtio/fs.ts:835-1180 | every request keeps the invariant |
| `FuseSystem.TablesHoldExactlyTheLive` | packages/kernel/src/virtio/fs.ts:729-791 | over all runs the table holds exactly the root and the records that have, or have under them, lookups or handles; counts are true, parents form a tree |
| `FuseGuest.CountsAreTheGuests` | packages/kernel/src/virtio/fs.ts:729-833 | over all requests of a guest that forgets no more than it was given: every record's lookups are those the guest still owes and those it was never told of; an id it owes lookups of is in the table, for the node it was told; the open handles are the guest's |
| `FuseGuest.CountsTrueExactlyIfTold` | packages/kernel/src/virtio/fs.ts:874-878 | and the counts are the guest's own exactly if no request raised a record and then could not read its attributes |
| `FuseGuest.UntoldStaysForEver` | packages/kernel/src/virtio/fs.ts:827-878 | a record raised for a reply that failed is never dropped, whatever the guest gives back |
| `FuseGuest.FailedReplyLeavesRecord` | packages/kernel/src/virtio/fs.ts:874-878 | a run of that kind |
| `FuseGuest.AnIdIsForOneNode` | packages/kernel/src/virtio/fs.ts:729-745 | whatever follows an entry that told the guest of an id, the table has that id for that node or not at all |
| `FuseGuest.ForgettingSaturates` | packages/kernel/src/virtio/fs.ts:757-760 | for any guest, forgetting leaves the count less what was forgotten, or 0; in one request or in a batch |
| `FuseGuest.RenameMoves` | packages/kernel/src/virtio/fs.ts:982-995 | RENAME puts the record under its new parent and no other record under another, and drops nothing that is looked up or open |
| `Readdir.FillPage` | packages/kernel/src/virtio/fs.ts:1126-1141 | the reply's loop builds the specified page |
| `Readdir.PageRead` | packages/kernel/src/virtio/fs.ts:1126-1141 | a page parses back as its entries, each with where to go on |
| `Readdir.PageFits` | packages/kernel/src/virtio/fs.ts:1130-1131 | a page is within its limit, a multiple of 8, and ends only where the next record would not fit |
| `Readdir.ReplyRead` | packages/kernel/src/virtio/fs.ts:1105-1141 | what a guest reads of a reply: its entries, and in the last one's off where the page ended |
| `Readdir.ListsEverythingOnce` | packages/kernel/src/virtio/fs.ts:1105-1141 | a guest that resumes from the off it read last, until a page is empty, gets every entry exactly once in order whenever the limit holds the largest record |
| `Readdir.ListingStopsAt` | packages/kernel/src/virtio/fs.ts:1131 | and if it does not, listing stops before the first entry that cannot fit |
| `LaneEnds.Socket.ReadAll` | distro/guest-agent/agent.c:120-139 | however short the reads, exactly the next bytes, or failure at the end of the stream |
| `LaneEnds.Socket.WriteAll` | distro/guest-agent/agent.c:141-156 | however short the writes, exactly the bytes |
| `LaneEnds.Cursor.U32` | distro/guest-agent/agent.c:174-181 | the next four bytes, if they are there |
| `LaneEnds.Cursor.String` | distro/guest-agent/agent.c:183-200 | a length-prefixed string without NUL, at most 4096 bytes |
| `LaneEnds.ParsePayload` | distro/guest-agent/agent.c:429-451 | the parse of a spawn payload, or EINVAL |
| `LaneEnds.ReceiveArg` | distro/guest-agent/agent.c:225-250 | one case of the argument switch |
| `LaneEnds.ReceiveArgs` | distro/guest-agent/agent.c:218-252 | six arguments, in-blobs read as they come |
| `LaneEnds.Receive` | distro/guest-agent/agent.c:591-617 | the agent reads what the specification reads |
| `LaneEnds.AnswerSyscall` | distro/guest-agent/agent.c:254-272 | the reply head and the out-blobs |
| `LaneEnds.SyscallRequest` | packages/linux-guest/src/syscalls.ts:93-125 | header fields filled in by position while blobs are appended give the specified bytes; too large a blob is a RangeError |
| `LaneEnds.ReceiveOuts` | packages/linux-guest/src/syscalls.ts:132-138 | as many bytes per out argument as the result says |
| `LaneEnds.ReceiveReply` | packages/linux-guest/src/syscalls.ts:127-140 | the host reads what the specification reads |
| `LaneSync.SyscallRead` | distro/guest-agent/agent.c:206-251 | the agent reads back exactly the call, and nothing beyond it |
| `LaneSync.SyscallLayout` | distro/guest-agent/agent.c:206-251 | kind, number, six kinds and six values lie where the agent's struct has them, with the values that mean them |
| `LaneSync.OutsAreBeginnings` | distro/guest-agent/agent.c:254-272 | the host gets of each out buffer its beginning: all of it, or as many bytes as the result says and there are |
| `LaneSync.ArgumentExactly` | distro/guest-agent/agent.c:225-250 | an argument ends the lane exactly if its kind is unknown, a blob is over 128 KiB or the stream ends within one; else it is what the kind says |
| `LaneSync.RequestKindExactly` | distro/guest-agent/agent.c:591-617 | so does a request of none of the three kinds |
| `LaneSync.SpawnParses` | distro/guest-agent/agent.c:429-451 | a payload parses back to exactly what was sent if it is valid, and otherwise to nothing |
| `LaneSync.SpawnRead` | distro/guest-agent/agent.c:397-426 | within 4 MiB the agent consumes exactly the request, valid or not; above it the lane ends |
| `LaneSync.LongDirectoryEndsLane` | distro/guest-agent/agent.c:397-426 | a spawn over the cap: with a working directory of 4 MiB the lane ends |
| `LaneSync.RequestRead` | distro/guest-agent/agent.c:591-617 | both of these and reap together |
| `LaneSync.ReplyRead` | packages/linux-guest/src/syscalls.ts:127-145 | the host reads exactly the reply, and its answer is the outcome |
| `LaneSync.LaneStaysAligned` | packages/linux-guest/src/syscalls.ts:93-384 | for every sequence of requests and outcomes both ends consume exactly what the other wrote, and every answer is its outcome |
| `LanePool.Session.Acquire` | packages/linux-guest/src/conn.ts:143-166 | a free lane, or a new one below 64, or a place in the queue |
| `LanePool.Session.FinishOpening` | packages/linux-guest/src/conn.ts:149-155 | a new lane that has shaken hands, or an error and its place back where the session died |
| `LanePool.Session.AbandonOpening` | packages/linux-guest/src/conn.ts:156-163 | a failed connect or handshake gives its place back |
| `LanePool.Session.Release` | packages/linux-guest/src/conn.ts:168-179 | the lane goes to the first waiter, or back |
| `LanePool.Session.Die` | packages/linux-guest/src/conn.ts:130-141 | waiters and free lanes go |
| `LanePool.Session.FailExchange` | packages/linux-guest/src/conn.ts:192-197 | a failed exchange ends the session and its lane |
| `LanePool.LanesAreExclusive` | packages/linux-guest/src/conn.ts:143-197 | over all runs no two exchanges hold one lane, and at most 64 are open |
| `LanePool.AskingExactly` | packages/linux-guest/src/conn.ts:143-166 | over all runs of a live session, who asks takes a free lane if there is one, else opens one if fewer than 64 are in use, and only else waits, last in line |
| `LanePool.WaitersStep` | packages/linux-guest/src/conn.ts:130-197 | a released lane goes to the first who waits, a death ends the waiting, and nothing else changes the line but joining it |
| `LanePool.DeadGivesNothing` | packages/linux-guest/src/conn.ts:130-179 | once a session is dead it stays dead and nobody comes to hold, open or await a lane |
| `LanePool.WaitsInVainExactly` | packages/linux-guest/src/conn.ts:156-163 | a step leaves someone waiting with no lane in use that could be released exactly if the only lane in use fails to open while someone waits |
| `LanePool.WaitingInVainHappens` | packages/linux-guest/src/conn.ts:143-166 | a run of that kind: 65 ask at once and no connection succeeds |
| `Vsock.Connection.Consume` | packages/kernel/src/virtio/vsock.ts:119-126 | an update goes out once a quarter of the buffer has been read |
| `Vsock.Connection.UpdateCredit` | packages/kernel/src/virtio/vsock.ts:193-197 | the guest's size and count are noted as they came |
| `Vsock.Connection.Enqueue` | packages/kernel/src/virtio/vsock.ts:198-203 | data goes behind what is buffered, unless there is none or the connection is closed |
| `Vsock.Connection.CloseFromPeer` | packages/kernel/src/virtio/vsock.ts:103-110 | the connection is closed, what is buffered stays to be read |
| `Vsock.Connection.TakeChunk` | packages/kernel/src/virtio/vsock.ts:138-146 | the first bytes of the first chunk, the rest put back in front |
| `Vsock.Connection.ReadExactly` | packages/kernel/src/virtio/vsock.ts:134-149 | the next bytes of the stream in order, the others left where they were |
| `Vsock.Connection.WriteSome` | packages/kernel/src/virtio/vsock.ts:151-166 | sends as far as the credit goes |
| `VsockCredit.WroteCredits` | packages/kernel/src/virtio/vsock.ts:151-166 | each packet of a write fits the credit, and it stops only where there is none |
| `VsockCredit.StepKeeps` | packages/kernel/src/virtio/vsock.ts:119-205 | every step of either end keeps the counters and streams |
| `VsockCredit.WritesFitTheCredit` | packages/kernel/src/virtio/vsock.ts:155-164 | over all runs bytes sent minus bytes reported consumed never exceed the guest's buf_alloc at an RW send, though counters wrap |
| `VsockCredit.GuestBufferNeverOverflows` | packages/kernel/src/virtio/vsock.ts:155-164 | over all runs a guest never has to hold more than it ever advertised |
| `VsockCredit.StreamsArriveInOrder` | packages/kernel/src/virtio/vsock.ts:128-149 | over all runs both streams arrive in order, without loss or repetition |
| `VsockCredit.EverythingArrives` | packages/kernel/src/virtio/vsock.ts:128-205 | over all runs, once nothing is in flight to the guest it has received all that was written; and while open, once nothing is in flight to the host all the guest sent has been read or comes next |
| `VsockCredit.HostMoves` | packages/kernel/src/virtio/vsock.ts:119-205 | each turn of the host takes the next packet, hands out the next bytes, or sends the beginning of what is written; nothing is sent once closed |
| `VsockCredit.UpdatesExactly` | packages/kernel/src/virtio/vsock.ts:119-126 | over all runs, reading sends a credit update exactly when 64 KiB have been read since the last, with the count read |
| `VsockCredit.ReadGuestHasCredit` | packages/kernel/src/virtio/vsock.ts:119-126 | over all runs a guest all of whose data was read has over 192 KiB of credit |
| `VsockCredit.CreditIsTheGuestsLatest` | packages/kernel/src/virtio/vsock.ts:151-166 | over all runs, once the guest's reports have arrived, the host's credit is the size the guest advertised last less what was written since the count it reported last |
| `VsockCredit.CreditRequestAnswered` | packages/kernel/src/virtio/vsock.ts:325-328 | a credit request is answered with the count read so far, and nothing else changes |
| `VsockCredit.PacketsAreSmall` | packages/kernel/src/virtio/vsock.ts:151-166 | a write sends packets of at most 2048 bytes, none empty, each with the count read so far |
| `HttpReader.ByteReader.Fill` | packages/linux-guest/src/http.ts:71-90 | one more non-empty piece, or the end; the stream is unchanged |
| `HttpReader.ByteReader.ReadHead` | packages/linux-guest/src/http.ts:102-134 | the same head or rejection for every cutting, in spite of the searched shortcut |
| `HttpReader.ByteReader.ReadLine` | packages/linux-guest/src/http.ts:137-158 | the same line or rejection for every cutting |
| `HttpReader.ByteReader.Take` | packages/linux-guest/src/http.ts:161-164 | some of the next bytes, none only at the end |
| `HttpReader.SettledPositions` | packages/linux-guest/src/http.ts:128 | positions with three bytes behind them need not be searched again |
| `HttpReader.TooLargeAnyway` | packages/linux-guest/src/http.ts:129 | once the buffer is over the limit no later piece could have made the head acceptable |
| `HttpChunked.ChunkedBody.Pull` | packages/linux-guest/src/http.ts:262-292 | one pull delivers some of what the decoding has left, the end, or an error exactly where the coding is malformed |
| `HttpChunked.ReadAll` | packages/linux-guest/src/http.ts:258-297 | pulling to the end gives the decoding of the whole stream for every cutting, and stops exactly after it |
| `HttpChunked.MarkedBoundaryRead` | packages/linux-guest/src/http.ts:153-268 | decoding drops a byte order mark, so a line of nothing else is a boundary |
| `HttpChunked.ChunksComeBack` | packages/linux-guest/src/http.ts:314-326 | any chunks, encoded and decoded, come back as their bytes |
| `HttpGrammar.LineExactly` | packages/linux-guest/src/http.ts:137-158 | a line within 8192 bytes is read as its text, a strict reader refusing an LF alone and a CR within; a longer one is too long |
| `HttpGrammar.HeadExactly` | packages/linux-guest/src/http.ts:102-134 | a head is read exactly if it ends with an empty line, nothing shorter does, and it is within 65536 bytes |
| `HttpGrammar.DigitExactly` | packages/linux-guest/src/http.ts:268-275 | a hexadecimal digit of either case stands for its place among the sixteen, and nothing else is a digit |
| `HttpGrammar.SizeExactly` | packages/linux-guest/src/http.ts:268-275 | a size line is refused exactly if it begins with no digit, has a wrong extension, or says more than 2^53 - 1 |
| `HttpGrammar.TrailersExactly` | packages/linux-guest/src/http.ts:276-282 | trailers are passed over exactly if they are within 65536 bytes |
| `HttpGrammar.AnyCodingIsRead` | packages/linux-guest/src/http.ts:258-297 | whatever digits, extensions, trailers and line endings a sender writes, the coding is read as its data and what follows is left, unless the trailers are too long |
| `WasmBinary.Cursor.Unsigned` | packages/kernel/src/wasm_binary.ts:66-82 | accepts exactly the encodings of section 5.2.2 for that many bits, and returns their value |
| `WasmBinary.Cursor.Signed33` | packages/kernel/src/wasm_binary.ts:87-107 | consumes exactly the encodings of a 33-bit signed number |
| `WasmBinary.Cursor.Span` | packages/kernel/src/wasm_binary.ts:109-116 | a length and that many bytes, inside the section |
| `WasmBinary.Cursor.Limits` | packages/kernel/src/wasm_binary.ts:143-155 | limits and their flags |
| `WasmBinary.Cursor.ReadDesc` | packages/kernel/src/wasm_binary.ts:191-216 | the switch over import kinds |
| `WasmGrammar.LebRead` | packages/kernel/src/wasm_binary.ts:66-82 | a number below 2^n, in any permitted width, is read back and no more is taken |
| `WasmGrammar.LebWritten` | packages/kernel/src/wasm_binary.ts:66-82 | and whatever is accepted is such a number in such a width |
| `WasmGrammar.SignedRead` | packages/kernel/src/wasm_binary.ts:87-107 | so is a signed number |
| `WasmGrammar.SignedWritten` | packages/kernel/src/wasm_binary.ts:87-107 | and whatever is accepted is one |
| `WasmGrammar.LimitsRead` | packages/kernel/src/wasm_binary.ts:143-155 | limits come back with their minimum, maximum, sharing and width |
| `WasmGrammar.LimitsWritten` | packages/kernel/src/wasm_binary.ts:143-155 | and whatever is accepted is limits with flags that are allowed |
| `WasmGrammar.ImportsRead` | packages/kernel/src/wasm_binary.ts:184-216 | an import is read exactly if some kind of import is written there, and as what it means |
| `WasmTypes.ReadValueType` | packages/kernel/src/wasm_binary.ts:274-284 | a value type's name |
| `WasmTypes.ReadField` | packages/kernel/src/wasm_binary.ts:286-292 | a field of an aggregate |
| `WasmTypes.ReadComposite` | packages/kernel/src/wasm_binary.ts:296-314 | a function's signature, or an aggregate passed over |
| `WasmTypes.ReadSubType` | packages/kernel/src/wasm_binary.ts:316-324 | supertypes passed over |
| `WasmTypes.ReadTypes` | packages/kernel/src/wasm_binary.ts:326-338 | the types of a section that is exactly one list of recursion groups, in order |
| `WasmWritten.GroupsRead` | packages/kernel/src/wasm_binary.ts:274-338 | a recursion group is read exactly if one is written there, and as its signatures, aggregates passed over |
| `WasmImports.ReadMemoryImports` | packages/kernel/src/wasm_binary.ts:184-219 | the memory imports of a section that is exactly one import list |
| `WasmImports.ReadFunctionImports` | packages/kernel/src/wasm_binary.ts:354-385 | its function imports with their signatures, if every name is text |
| `WasmModule.ReadHeader` | packages/kernel/src/wasm_binary.ts:227-234 | the eight bytes a module starts with |
| `WasmModule.ReadDefinitions` | packages/kernel/src/wasm_binary.ts:221-225 | a memory section that is exactly one list of limits |
| `WasmModule.ReadMemories` | packages/kernel/src/wasm_binary.ts:236-257 | accepts exactly modules of whole sections with at most one import and one memory section, both readable, and returns their entries |
| `WasmModule.ReadFunctions` | packages/kernel/src/wasm_binary.ts:345-392 | reads types up to the first import section and returns its functions, whatever follows |
| `WasmModule.ImportsOfFirst` | packages/kernel/src/wasm_binary.ts:246 | where import sections do not repeat, the first is all a module imports |
| `WasmModule.WalkersAgree` | packages/kernel/src/wasm_binary.ts:236-392 | when both accept a module, they return the memory and the function entries of one list, all that the module imports, the latter with the types before it |
| `WasmWritten.AnyModulesMemories` | packages/kernel/src/wasm_binary.ts:236-257 | whatever module a producer writes, with numbers of any permitted width: accepted exactly if no two sections import, no two define memories, and the memory imports' names are text; and what it returns |
| `WasmWritten.AnyModulesFunctions` | packages/kernel/src/wasm_binary.ts:345-392 | accepted exactly if all names of its first import section are text, with the signatures the type sections before it give |
| `GrowingBytes.Buffer.EnsureCapacity` | packages/bytes/src/index.ts:259-268 | growing keeps the contents; it terminates from a positive capacity |
| `GrowingBytes.Buffer.Bump` | packages/bytes/src/index.ts:270-275 | the new bytes are zero |
| `GrowingBytes.Buffer.Append` | packages/bytes/src/index.ts:277-280 | exactly the bytes are appended |
| `GrowingBytes.Buffer.Set32` | packages/bytes/src/index.ts:287-298 | a handle writes its own bytes wherever the buffer is now, and no others |
| `DevicetreeWriter.Writer.WriteProp` | packages/kernel/src/devicetree.ts:94-145 | a property, its name noted with the place of its nameoff; a typed array is written as its whole buffer |
| `DevicetreeWriter.Writer.WalkTree` | packages/kernel/src/devicetree.ts:76-150 | a node's entries told apart, its properties and then its children, or the first fault: a long name, an inherited one, or an object taken for a value |
| `DevicetreeWriter.TreePatched` | packages/kernel/src/devicetree.ts:178-183 | writing a name's offset through its handles changes exactly the nameoff fields of its properties |
| `ObjectKeys.IndexExactly` | packages/kernel/src/devicetree.ts:103-178 | a name is an array index exactly if it is how a number below 2^32 - 1 is written in decimal |
| `ObjectKeys.PlacedOrdered` | packages/kernel/src/devicetree.ts:103-178 | names that are array indices are listed first and ascending |
| `ObjectKeys.PlacedOthers` | packages/kernel/src/devicetree.ts:103-178 | and the others in the order of their first use |
| `DevicetreeWriter.WriteStrings` | packages/kernel/src/devicetree.ts:176-184 | every name once, in that order, and its offset in every property of that name |
| `DevicetreeNodes.FaultExactly` | packages/kernel/src/devicetree.ts:81-138 | no fault is met exactly if every name is within its limit, no property is named like a member of Object.prototype, and no nested object has a key constructor |
| `DevicetreeNodes.NestedConstructorThrows` | packages/kernel/src/devicetree.ts:86-132 | an object under a that has a child constructor is taken for a value, and throws |
| `DevicetreeNodes.ChildNameIsFree` | packages/kernel/src/devicetree.ts:86-146 | a child of the root may have any short name, constructor and toString included |
| `DevicetreeWriter.Generate` | packages/kernel/src/devicetree.ts:62-188 | the program produces exactly the specified blob, or throws the first fault |
| `Devicetree.EveryNameResolves` | packages/kernel/src/devicetree.ts:178-183 | each nameoff resolves to its own property's name |
| `Devicetree.BlobHeaderValid` | packages/kernel/src/devicetree.ts:152-186 | all header offsets and sizes are exact and aligned |
| `DevicetreeRoundTrip.WrittenRecovers` | packages/kernel/src/devicetree.ts:105-139 | what is written gives the value back exactly if numbers fit their cells and a typed array spans its buffer |
| `DevicetreeRoundTrip.StoredRecovers` | packages/kernel/src/devicetree.ts:162-168 | reservations come back exactly if their numbers fit 64 bits and none is (0, 0) |
| `DevicetreeRoundTrip.BlobReadsExactly` | packages/kernel/src/devicetree.ts:55-188 | a reader following chapter 5 has the tree, the values, the reservations and the boot CPU back if and only if every number fits its cell, every typed array spans its buffer, no name has a NUL and no reservation is (0, 0) |
| `DevicetreeRoundTrip.PartialArrayComesBackWhole` | packages/kernel/src/devicetree.ts:119-125 | a Uint8Array over one byte of three comes back as all three |
| `DevicetreeRoundTrip.LargeNumberWraps` | packages/kernel/src/devicetree.ts:107-110 | 2^32 comes back as 0 |
| `DevicetreeRoundTrip.NulIsLost` | packages/kernel/src/devicetree.ts:80-83 | a name with a NUL does not come back |
| `DevicetreeRoundTrip.ZeroReservationIsLost` | packages/kernel/src/devicetree.ts:162-168 | nor does a (0, 0) reservation |
| `Block.Runs` | packages/kernel/src/virtio/block.ts:74-94 | the same bytes in the same order, in maximal non-empty pieces |
| `Block.Transfer` | packages/kernel/src/virtio/block.ts:101-117 | whichever calls it makes, the bytes moved are a prefix of one flat transfer, as long as the count returned |
| `Block.FlushFollowsEarlierWrites` | packages/kernel/src/virtio/block.ts:141-233 | over all runs a flush reaches storage only after every write earlier in the ring has settled |
| `Block.FlushMayGoExactly` | packages/kernel/src/virtio/block.ts:226-232 | over all runs a flush may reach storage exactly if it has not yet and every write started before it has settled; no later write holds it up |

## Left out

- PackedRing.EachChainPoppedOnceInOrder: assumes, as section 2.8 of VIRTIO 1.2 asks, that the driver writes one id on every descriptor of a chain, since the code takes it from the first.
- PackedQueue.Publish: writes the used descriptor; copying a completion's output bytes to the guest's buffers is not modelled.
- Device.VirtioDevice.SpawnWork: only running work spawns, where the code's spawn has no such guard; the block device, its one caller, spawns in its kicks. `ClosesOnceWhenIdle` rests on it.
- Device.VirtioDevice.ResetQueues: models devices that work on views of guest memory; a device that works on copies does not wait at all. The subclass hooks (`stop`, `reset`, `close`) do nothing in the model.
- Device.VirtioDevice.ShutDown: leaves out the stop() hook and what it may throw.
- Device.VirtioDevice.ShutDownPass: leaves out which of several failures the closed promise ends with.
- Remote.Connection.Receive: epochs are counted without bound, where the code's wrap after 2^32 bumps; config updates and interrupts are not modelled, and an error message is a failure at any time.
- Remote.Server.OnMessage: binding, feature negotiation and setup come before the model starts; an error thrown while handling a message is a failure of the main thread at any time.
- RemoteSafety.OnlyCurrentCommits: the worker's own reading of the epochs may come out either way, since they can change under it; memory ordering of `Atomics` is taken as atomic steps.
- Checksum.SumFitsShift: the sum is exact up to a pseudo-header and 65515 bytes, the longest segment sent.
- Reassembler.Table.Deliver: takes fragments as parse_ip returns them; timers are events without durations.
- TcpReceive.TcpFlow.Close: what it does to the sending side's waiters, timers and the flow table is not modelled.
- TcpReceive.TcpFlow.Process: one segment is one step, since the flow's receive chain runs them one at a time; the peer's window and the sending side are only arbitrary events, and the platform's stream is a queue with a high-water mark.
- TcpStream.HostReadsAPrefix: asks that a segment be less than 2^32 bytes away from where the flow stands, which 32-bit numbers cannot tell apart otherwise.
- FuseTables.Tables.CollectRecord: records are values under ids that are never reused, not shared objects; requests run one at a time, and a request naming an unknown id or handle changes nothing.
- FuseSystem.RenamedIsSwept: a filesystem refuses to move a directory under itself; the code relies on it.
- FuseTables.Tables.Finalize: is the first DESTROY; a later one returns the first one's promise and closes nothing more.
- Readdir.FillPage: names are the bytes of valid components; attributes come from the backend.
- LaneSync.LaneStaysAligned: allocation failure in the agent, which ends the lane, and the agent's sixteen process slots, which only decide which outcome a spawn has, are not modelled.
- LaneEnds.Receive: keeps a scalar argument's 64 bits, where the agent passes the kernel as many as the guest's word has.
- Vsock.Connection.ReadExactly: one reader at a time; the code's concurrent readers take chunks in the order they asked.
- VsockCredit.ReadGuestHasCredit: the guest keeps the rules and the counts on the wire reach it in order.
- HttpReader.ByteReader.ReadHead: returns the head's bytes; the grammar of header fields, URLs and UTF-8 decoding are not part of this model.
- HttpChunked.ReadAll: chunk extensions are a given predicate; a trailer's length is counted in bytes, where the code counts UTF-16 units.
- WasmImports.ReadFunctionImports: UTF-8 validity is a given predicate, and names are their bytes, where decoding drops a byte order mark; a signature is a value, not its text.
- DevicetreeWriter.Generate: blobs below 4 GiB; keys come in the order Object.entries lists them, and as UTF-8. Numbers are integers: setUint32 truncates a fraction and BigInt throws on one. Other objects than plain ones (class instances, null) are outside the model.
- Block.Transfer: storage answers each call with how many of the bytes it moved from the first on; request headers, statuses and the sector bound are not modelled.
- Block.FlushFollowsEarlierWrites: a request is a few steps on values, not the async function itself.
- DNS, ARP, UDP, the Ethernet switch, the console, entropy and MAC handling, mounts and process reaping in the agent, workers, message ports and WebAssembly instantiation are not modelled.
