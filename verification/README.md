# hcom4db: a verified model of its RPC core

`src/hcom4db.cpp` is a shim over `libhcom.so` with four pieces of logic of its own. This
project models them in Dafny and proves what they keep.

* **Packing.** `OckRpcClientCallWithParam` turns 1 to 8 user messages into at most four
  blocks of the client's pool: a header with the message id, one block each for the first
  messages, and a last block of a whole segment to which the remaining messages are appended.
  `PackMachine` is that code as a machine taking one allocator call per step; `Pack` is the
  same code in place, on a mutable pool, an iov array and an address array, proved to run
  that machine. `PackInvariant` and `PackOutcome` prove what the machine does, null message
  pointers included, `PackContract` says it over in message lengths and plain numbers,
  `SafeRequests` says which requests can do harm in some pool, and `Dispatch` what the peer
  makes of the result.
* **Asynchronous completion.** `Protocol` interleaves any number of calls over one pool:
  packing steps, record and array allocations, posts, deliveries and the rounds of the
  completion callback come in any order. `ProtocolInvariant`, `ProtocolSteps`, `ProtocolRuns`,
  `ArrayLedger` and `Endings` prove safety, conservation and exactly-once completion over all
  runs of safe requests, `ProtocolAnswers` what each answer of malloc and the channel does to
  a request in them, and `SafeRuns` that the condition on requests is exact. `Hazards` shows
  what one null message can do, `SegmentSize` what a segment size that changes under a call
  does, and `Teardown` when a disconnect is safe. `Runtime` is the code of the entry points
  and callbacks with its records and arrays updated in place, proved to do what the protocol
  does when the request is alone (`Solo`).
* **Registries.** `Services` (service and handler maps) and `MemRegistry` (allocators and
  memory regions of connected clients), each over all histories of calls.
* **Configuration.** `Config` (the configuration map, number parsing, pool sizing) and
  `Timeout`.

`Machine` holds the integer widths and conversions, `Pool` the allocator's contract.

## What is assumed of the outside

* The allocator answers an address that no live block overlaps, or refuses; which address is
  a parameter (`wish`), so all placements are covered. It answers a free of an unknown
  address with an error and no change, which `OckRpcMemFree` only logs
  (src/hcom4db.cpp:288-296), and a refused allocation leaves the caller's address at 0.
  The model counts the frees of nonzero addresses that are not live.
* `memcpy_s` is that of the securec library the repository links against (CMakeLists.txt:142).
  It refuses a capacity of 0 or above 0x7fffffff without touching the destination. Otherwise
  it succeeds exactly when the source is not null and the length is at most the capacity, and
  clears the whole stated capacity at the destination when it refuses. Its refusal of
  overlapping ranges does not arise: messages are not in the pool.
* A channel answers a post as it likes, sends the blocks of a request in sequence
  (src/hcom4db_hcom.h:460-461), completes an accepted request at most once and at any later
  step, and never one it rejected (src/hcom4db_hcom.h:468).
* The library gives a completion the type SERVICE_ONE_SIDE exactly for a one-sided post, and
  such a post names a callback. `ProtocolRuns.MisuseIff`, `ProtocolRuns.SglMisuseIff` and
  `SafeRuns.SafePostIff` say exactly what happens without this.
* A `Service_GetResult` that fails leaves its output as it was. Copying the `client` field
  of a record is not a use of it: the callback copies it for every record and looks at it
  only to free blocks (src/hcom4db.cpp:1235-1247).
* Headers are little-endian. `g_options.mrSendReceiveSegSize` does not change during a call,
  except in `SegmentSize`.
* A locked section is one atomic step. The code releases two shared locks with `unlock()`
  (src/hcom4db.cpp:391, src/hcom4db.cpp:585) and inserts into `g_serviceMap` under a shared
  lock (src/hcom4db.cpp:470-475); both are taken to work as if they were exclusive.
* `g_memoryAllocator`, `g_memoryRegion` and `g_options` are read and written under no lock at
  all (src/hcom4db.cpp:279, src/hcom4db.cpp:290, src/hcom4db.cpp:961,
  src/hcom4db.cpp:1105-1126). Each access is taken as one atomic step. That a block is
  answered and written in one step is harmless among requests, since nobody else looks at
  the block in between; `Teardown` takes the two apart.
* New handles, memory and regions answered by the library are not in use at that moment.
  `Service_GetMemoryRegionInfo` answers the address the region was registered for.

## Where the code departs from its evident intent

The model keeps the code as it is, and the theorems say exactly when it matters.

* The rollback loops of `SetReqInfo` free `addrArr[i]` in every round
  (src/hcom4db.cpp:1447-1449, src/hcom4db.cpp:1458-1460). `FailureRestoresIff` and
  `DoubleFreeIff` give the exact cases for each answer of the allocator,
  `SafeRequests.LeavesBlocksIff` and `SafeRequests.FreesTwiceIff` the requests for which they
  can happen at all; `Hazards.RollbackFreesAnothersBlock` is a run in which the second free
  releases a block of another caller.
* The capacity `SetReqInfo` states to `memcpy_s` is the segment size whatever the size of the
  block (src/hcom4db.cpp:1452-1455), so that a refused copy of a null message clears bytes
  behind a shorter block: `SafeRequests.ClearsPastBlockIff`. A segment size that is itself out
  of memcpy_s's range makes every call fail at its first copy. Requests that can neither free
  twice nor clear past a block are the safe ones (`PackMachine.SafeReq`); the results on runs
  are about them, and `SafeRuns.SafeReqIff` says they hold of no others.
* Blocks are given up when the record or its array cannot be allocated, when a post is
  rejected, and when the getters of a completion fail (src/hcom4db.cpp:1389-1428,
  src/hcom4db.cpp:1220-1224, src/hcom4db.cpp:1577-1580). `ProtocolRuns.RunKeeps` counts
  exactly these. In the last case the address array is given up as well, as
  `ArrayLedger.RunArrayLedger` counts.
* The pool size is multiplied in 32 bits (src/hcom4db.cpp:198): `Config.PoolSizeIff`. A
  product that is a multiple of 2^32 leaves the client connected without a pool
  (src/hcom4db.cpp:199-202, src/hcom4db.cpp:233-235): `Config.WrapsToNoPool`.
* All calls read one global segment size anew in every iteration. Destroying a server resets
  it to 0 (src/hcom4db.cpp:961), after which an append is refused
  (`SegmentSize.ResetRefuses`). Creating another server writes 65536 and then that server's
  own size (src/hcom4db.cpp:627-630); a call under way then copies past its last block:
  `SegmentSize.AppendUnderIff`, `SegmentSize.GrowthOverruns`. A failed creation under a
  taken name leaves its own settings behind: `Services.FailedCreateRestores`.
* A disconnect frees the pool without regard to requests under way
  (src/hcom4db.cpp:1105-1126): `Teardown.DisconnectSafeIff`.
* A server created under a taken name is never entered and can neither be given a handler nor
  be destroyed (src/hcom4db.cpp:470-475, src/hcom4db.cpp:938-963): `Services.ShadowedForever`.
* A use of a client that has no allocator leaves a null entry behind
  (src/hcom4db.cpp:279, src/hcom4db.cpp:290), which keeps the allocator of a later connection
  out of the registry (src/hcom4db.cpp:253-256): `MemRegistry.ConnectHoldsIff`,
  `Teardown.LateUseShadows`.
* A raw message shorter than its header is not checked (src/hcom4db.cpp:369-373); the model
  has the outcome `Truncated` for it.
* The header documents 16384 as the default segment size and count
  (src/hcom4db.h:94, src/hcom4db.h:102) where the code has 65536 and 1024
  (src/hcom4db.cpp:45-46), and millisecond timeouts with a default of -1
  (src/hcom4db.h:927-930) where the code keeps whole seconds and starts at 1000
  (src/hcom4db.cpp:68, src/hcom4db.cpp:84). The model follows the code.

## Model

| member | source | states |
|---|---|---|
| Pool.WriteFrame | src/hcom4db.cpp:1452-1455 | A copy that ends inside its block lands behind the bytes already there; every other live block keeps its place, size and bytes |
| PackInvariant.StepGood | src/hcom4db.cpp:1435-1529 | Each step of a packing or releasing call, in whatever pool other callers left, keeps the call's invariant, changes no block but its own, frees no block it does not hold and never writes past a block's end; the one exception is the refused copy into an answered block of a message that is not the first, or into a block shorter than a segment in range |
| PackInvariant.SafeIsHarmless | src/hcom4db.cpp:1452-1462 | A safe request never comes to that exception |
| PackInvariant.BlockPlaced | src/hcom4db.cpp:1441-1468 | Once a block is placed for a message with data, its copy cannot fail although the capacity passed is the segment size and not the block size |
| PackInvariant.AppendExact | src/hcom4db.cpp:1507-1519 | In every round of the append loop the last block's size is the length of the messages in it, the remaining capacity does not underflow, and the new size does not overflow when the message fits |
| PackOutcome.WireImage | src/hcom4db.cpp:1492-1519 | A packed request has 1 + min(count, 3) entries which, read in order, give the encoded header followed by all messages; the sizes add up to the header's plus all lengths |
| PackOutcome.PackResult | src/hcom4db.cpp:1480-1529 | For every request, pool and placement: whether packing succeeds, which blocks it then owns or leaves, how many double frees it made, whether it wrote past a block, and that nothing else changed but the bytes a refused copy clears behind a short block |
| PackOutcome.PackSucceedsIff | src/hcom4db.cpp:1500-1526 | With every allocation answered and data everywhere, packing succeeds if and only if memcpy_s accepts the segment size as a capacity and count is at most 3 or the messages from the third on fit into one segment, with room left before the last of them |
| PackOutcome.FailureRestoresIff | src/hcom4db.cpp:1444-1478 | A failed pack leaves the allocator as it was if and only if it did not stop at the second or third of more than three messages; otherwise exactly the blocks of the messages before stay allocated |
| PackOutcome.DoubleFreeIff | src/hcom4db.cpp:1456-1462 | For each answer of the allocator: packing frees a block twice if and only if the copy of the second or third message is refused with its block allocated |
| SafeRequests.FreesTwiceIff | src/hcom4db.cpp:1456-1462 | Some pool and placement makes packing free a block twice if and only if the first copy is made and that of the second or third message, with a block of its own, is refused |
| SafeRequests.ClearsPastBlockIff | src/hcom4db.cpp:1443-1455 | Some pool and placement makes packing write past a block if and only if the first refused message has a block shorter than a segment in the range of memcpy_s |
| SafeRequests.LeavesBlocksIff | src/hcom4db.cpp:1444-1506 | Some pool and placement makes packing fail with blocks left allocated if and only if there are more than three messages and the copy of the first is made |
| SafeRequests.LeftBehind | src/hcom4db.cpp:1444-1506 | The witness: the second block is refused and the first data block stays allocated |
| SafeRequests.SafeIff | src/hcom4db.cpp:1435-1471 | A request is safe, as a caller can see, if and only if no pool and placement makes packing free twice or write past a block |
| PackOutcome.RunAppends | src/hcom4db.cpp:1507-1520 | The append loop finishes exactly when every remaining message has data and all of it fits in the last block, keeping the request's invariant |
| PackOutcome.RunUndo | src/hcom4db.cpp:1447-1449 | A rollback loop comes to freeing one address as many times over as the loop has rounds |
| PackOutcome.RunFreeAll | src/hcom4db.cpp:1473-1478 | FreeAllMemory releases every block the request recorded, each once, and nothing else |
| PackOutcome.SyncCallRestores | src/hcom4db.cpp:1569-1573 | A synchronous call that packs leaves the allocator as it found it, whatever the channel answered |
| PackContract.SucceedsIff | src/hcom4db.cpp:1435-1529 | Packing succeeds if and only if blocks of 2 bytes, of the lengths of the first messages and, for the last block, of a whole segment can be placed one after another, every message has data, the segment size is within memcpy_s's range, and the messages sharing the last block fit it, with room left before the last of them |
| PackContract.TroubleIff | src/hcom4db.cpp:1441-1468 | Which block stops the set-up, and whether at its allocation or at its copy, from those sizes and the messages alone |
| PackContract.PackedShape | src/hcom4db.cpp:1443-1468 | The 1 + min(count, 3) entries of a packed request: their keys, the size of each block (2, the message's length, a whole segment for the last) and how many bytes of each are sent |
| PackContract.HeaderBytes | src/hcom4db.cpp:1491-1492 | The header is the two bytes of the message id, low one first |
| Pack.Allocator.Allocate | src/hcom4db.cpp:277-286 | An allocation in place succeeds exactly where the block overlaps no other, is then entered with its size, and answers 0 with nothing changed otherwise |
| Pack.Allocator.Free | src/hcom4db.cpp:288-296 | A free of an unknown address changes no block |
| Pack.Allocator.MemcpyS | src/hcom4db.cpp:1452-1455 | The copy is made exactly when the capacity is from 1 to 0x7fffffff, the source is not null and the length is within the capacity; otherwise an in-range capacity reads as zeros and no other byte changes, and one out of range changes nothing |
| Pack.RollBack | src/hcom4db.cpp:1447-1449 | The loop over `addrArr[i]` takes the call to the end of its rollback |
| Pack.PlaceMessage | src/hcom4db.cpp:1441-1468 | One iteration takes the call to the next one, or to the rollback its answer calls for; the sizes are those of `PackContract.SucceedsIff` and `PackContract.PackedShape` |
| Pack.SetReqInfo | src/hcom4db.cpp:1435-1471 | The loop with its address array does what the machine does from the first block on |
| Pack.FreeAllMemory | src/hcom4db.cpp:1473-1478 | The release loop over the four entries ends in the machine's failed state |
| Pack.FreeSentBlocks | src/hcom4db.cpp:1570-1573 | The release loop after a synchronous call ends in the machine's final state |
| Pack.AppendRest | src/hcom4db.cpp:1507-1520 | The append loop, with the release of all blocks when a copy is refused |
| Pack.PackReqInfo | src/hcom4db.cpp:1480-1529 | In place: succeeds exactly when the blocks of the written-out sizes can be placed and all messages copied; then the entries and blocks have those sizes, read as header and messages and are all it added to the pool; otherwise exactly the leaked blocks were added and no other byte changed but those a refused copy clears |
| Dispatch.HeaderRoundTrip | src/hcom4db.cpp:368-373 | Decoding an encoded header gives back the message id and leaves the payload |
| Dispatch.PackedIsReceived | src/hcom4db.cpp:368-392 | The peer of a packed request runs the handler of its message id on the concatenated messages |
| Dispatch.ScatterRefinesSimple | src/hcom4db.cpp:1480-1584 | Whatever handlers are registered, the peer reacts to a scatter-gather request as to one simple call with the concatenated bytes, which a simple call accepts exactly when they fit 32 bits |
| Dispatch.InvokedIff | src/hcom4db.cpp:351-393 | A handler runs on a payload if and only if the message carries that payload, raw behind its encoded header or with op info, for an id the handler is registered for |
| Dispatch.ReactionsExact | src/hcom4db.cpp:351-393 | OK without a handler exactly for a message with an id nobody registered, an error exactly for null data or a failing getter, and no check exactly for a raw message of less than 2 bytes |
| Dispatch.SimpleWireExact | src/hcom4db.cpp:1329-1345 | A simple call hands on exactly the messages that fit 32 bits, unchanged and with the id as op code |
| Dispatch.ReceiveHandle | src/hcom4db.cpp:351-393 | The receive handler, error paths included, reacts as the function does of which `InvokedIff`, `ReactionsExact` and `ScatterRefinesSimple` are proved |
| ProtocolRuns.StepKeeps | src/hcom4db.cpp:1386-1584 | Every event of every interleaving keeps the protocol's invariant, leaves blocks nobody owns untouched, and adds to them exactly what it abandons |
| ProtocolRuns.RunKeeps | src/hcom4db.cpp:1386-1584 | Over every run of safe requests: the invariant, and the live blocks without an owner are the initial ones, untouched, and those given up |
| ProtocolRuns.FreesOwnOnly | src/hcom4db.cpp:1216-1247 | Whatever a step frees is live at that moment and held by the request that steps; every other block keeps its bytes |
| ProtocolRuns.OwnershipSafe | src/hcom4db.cpp:1386-1584 | In every reachable state the blocks of all requests are live and pairwise disjoint, and no bad free, no copy outside a block and no use of an unset field has happened |
| ProtocolRuns.CleanRunConserves | src/hcom4db.cpp:1531-1584 | In a run without rejected posts, failed mallocs, failed getters or the pack exception, the live set is the initial one together with the blocks of requests under way, and the initial one again when none is |
| ProtocolRuns.DoneRunsOnce | src/hcom4db.cpp:1143-1267 | Over every run the user's callback has run exactly once for a request that ended so and not at all for any other, with the arguments and the status it is due |
| ProtocolRuns.RecordsExact | src/hcom4db.cpp:1294-1327 | The live records are exactly those in a poster's hands or accepted and not yet delivered, each of one request |
| SafeRuns.UnsafeRun | src/hcom4db.cpp:1435-1584 | For every unsafe request that passes the parameter checks there is a run, of that call alone, with a double free or a write past a block |
| SafeRuns.SafeReqIff | src/hcom4db.cpp:1386-1584 | A request is safe if and only if no run, from any state the invariant allows and with everything else as it should be, comes to a bad free, a write outside a block, the use of an unset field or shared or dead blocks |
| SafeRuns.NullPostRun | src/hcom4db.cpp:1226-1230 | A run in which a one-sided post without a callback calls the null pointer |
| SafeRuns.SafePostIff | src/hcom4db.cpp:1890-2010 | A post without blocks is harmless in every run if and only if it is not one-sided or has a callback |
| ArrayLedger.StepArrayLedger | src/hcom4db.cpp:1402-1433 | Each step adds to the address arrays without an owner exactly the one a completion with failing getters gives up |
| ArrayLedger.RunArrayLedger | src/hcom4db.cpp:1216-1247 | Over every run the address arrays without an owner are the initial ones and those given up by failing getters |
| ProtocolRuns.SglMisuseIff | src/hcom4db.cpp:1216-1247 | For any completion of a scatter-gather post: null is called exactly when the type is one-sided and there is no callback; a one-sided type or failing getters give up the array and the blocks; otherwise the callback's rounds have all they need |
| ProtocolRuns.MisuseIff | src/hcom4db.cpp:1226-1247 | For any completion the library might present for a post without blocks, the callback uses an unset field or calls null exactly when it takes the two-sided branch for a one-sided record, or the one-sided branch without a callback |
| ProtocolRuns.WireIntact | src/hcom4db.cpp:1386-1433 | From packing to delivery, whatever else runs, a channel reading a request's blocks reads the header and the messages, and the peer runs the right handler on them |
| ProtocolRuns.ArithmeticExact | src/hcom4db.cpp:1548-1554 | In every reachable state every narrowing of a length is exact and the append loop's arithmetic does not wrap |
| ProtocolRuns.InitialInv | src/hcom4db.cpp:1531-1584 | A valid pool with nothing under way satisfies the invariant, so that the results on runs apply from the start |
| ProtocolAnswers.StartCallExact | src/hcom4db.cpp:1531-1555 | A call of 1 to 8 messages within the segment size, and no other, is taken up, with the caller's request and callback |
| ProtocolAnswers.StartPlainExact | src/hcom4db.cpp:1294-1309 | A post without blocks is taken up with the caller's callback, which only a reply may lack |
| ProtocolAnswers.MallocAnswered | src/hcom4db.cpp:1294-1411 | In every reachable state: a request goes on with its record, or with its array listing the entries in order, exactly when malloc answers; otherwise it ends unsent with its record freed; nothing of other requests changes |
| ProtocolAnswers.PostAnswered | src/hcom4db.cpp:1310-1432 | In every reachable state: exactly an accepted post is in flight with its record and array kept; a rejected one ends unsent with both freed; nothing of other requests changes |
| ProtocolSteps.PostSglEffect | src/hcom4db.cpp:1412-1432 | A rejected post frees the array and the record and abandons the blocks; an accepted one hands all of them to the callback |
| ProtocolSteps.ResponseEffect | src/hcom4db.cpp:1143-1157 | A reply's completion frees its record once and reports once, unless no callback was given |
| Endings.CompletionReached | src/hcom4db.cpp:1216-1267 | An accepted request whose completion is delivered at any point of any run ends, after the callback's rounds interleaved with anything, in the one way the completion determines: the user's callback ran exactly once with its status and response, or not at all for failed getters or no callback |
| Endings.DrainsFinish | src/hcom4db.cpp:1242-1267 | The number of rounds left falls with each round of the callback and with nothing else |
| Hazards.RollbackFreesAnothersBlock | src/hcom4db.cpp:1456-1462 | A concrete interleaving in which a null message makes the rollback free a live block of another caller, without any error from the allocator |
| SegmentSize.CapacityExactIff | src/hcom4db.cpp:1507-1513 | Under whatever segment size is in force, the remaining capacity is exact if and only if that size is not below what the last block holds |
| SegmentSize.AppendUnderIff | src/hcom4db.cpp:1507-1519 | Under whatever segment size is in force, an append writes past the last block if and only if that size is larger than the block, the capacity it leaves is in the range of memcpy_s, and the message is null or does not fit the block |
| SegmentSize.AppendUnderGood | src/hcom4db.cpp:1507-1519 | An append keeps all that it keeps under an unchanged size if and only if it does not do that |
| SegmentSize.ResetRefuses | src/hcom4db.cpp:961-961 | After a reset of the size to 0 every append is refused and touches nothing |
| SegmentSize.BlockUnderIff | src/hcom4db.cpp:1443-1455 | With the size read once for the block and once for the copy, a placed block is written past if and only if the second value is in range and the bytes copied or cleared under it exceed the block |
| SegmentSize.GrowthOverruns | src/hcom4db.cpp:627-630 | For every request with data whose third and fourth message overfill a segment: there is a pool in which it comes to its append loop, is refused under an unchanged size, and writes past its block under any larger size in range |
| SegmentSize.DefaultOverrunsShort | src/hcom4db.cpp:627-630 | Such a request, safe and of four short messages, and the size another server's creation writes |
| Teardown.DisconnectSafeIff | src/hcom4db.cpp:1105-1126 | At any moment of any run of a connected client: disconnecting releases its pool, and no later step uses the pool's memory if and only if no request has an answered block to write and none is past its last block and undelivered |
| Teardown.BlockGetsPending | src/hcom4db.cpp:277-286 | While connected, a request has a block to write exactly from the step that makes its block live, unless memcpy_s will write nothing to it |
| Teardown.LateUseShadows | src/hcom4db.cpp:277-296 | An allocation or a callback's free after the disconnect leaves a null entry that keeps the allocator and region of the client's next connection out of the registries |
| Solo.AloneIsRun | src/hcom4db.cpp:1531-1584 | What a request reaches on its own is what some run of the protocol reaches |
| Solo.AloneKeeps | src/hcom4db.cpp:1531-1584 | A request on its own keeps the protocol's invariant |
| Solo.AloneRuns | src/hcom4db.cpp:1480-1584 | Inside the protocol, packing and the release after a synchronous call are the packing machine's run |
| Runtime.Hcom.ClientCallWithParam | src/hcom4db.cpp:1531-1584 | Refuses exactly the calls that fail the parameter checks, changing nothing; otherwise does what the protocol does for the call, and answers OK exactly when the blocks can be placed, all copies made, and the synchronous call succeeds or both mallocs answer and the post is accepted; the records and arrays then grow by that call's own, and are unchanged in all other cases |
| Runtime.Hcom.SendSync | src/hcom4db.cpp:1569-1576 | The blocks are released whatever the synchronous call answers |
| Runtime.Hcom.CallAsyncSgl | src/hcom4db.cpp:1386-1433 | OK exactly when both mallocs answer and the post is accepted: the record and the array are then there; on every error path all records and arrays are as before |
| Runtime.Hcom.MallocArray | src/hcom4db.cpp:1402-1411 | Exactly when malloc answers: an array of the entries' addresses in order; otherwise the record is freed |
| Runtime.Hcom.PostPlain | src/hcom4db.cpp:1294-1327 | The entry points without blocks answer OK exactly when malloc answers and the channel accepts; the record is then live, and otherwise the records are as before |
| Runtime.Hcom.CallbackFunc | src/hcom4db.cpp:1216-1267 | On the record of an accepted request and for any completion, does what the protocol does from delivery to the end of the request |
| Runtime.Hcom.ResponseCallBack | src/hcom4db.cpp:1143-1157 | Reports once if a callback was given, frees the record, uses no unset field |
| Services.CreateServerInv | src/hcom4db.cpp:433-478 | Creating a server keeps names within 64 characters and handles under one name each |
| Services.EnteredIff | src/hcom4db.cpp:470-475 | A new server is registered if and only if its name was free; taking it out again gives back the map |
| Services.ReplayInv | src/hcom4db.cpp:433-963 | Over every history of creations, registrations and destructions: names of at most 64 characters, no handle under two names, handler keys within 0 to 999 |
| Services.CreateExact | src/hcom4db.cpp:433-841 | A creation answers OK exactly when the name has at most 64 characters, the type is absent, TCP or RDMA, the library creates the server and the options are accepted; an error exactly when only the library refuses; invalid parameter otherwise; and what it leaves of connection type, settings and service map |
| Services.FailedCreateRestores | src/hcom4db.cpp:810-836 | A creation that fails on its options leaves the service map as it was; the new server is destroyed too if and only if its name was free; the shared settings are reset in that case, and left as the failed creation has them in the other |
| Services.CreateUnderTakenName | src/hcom4db.cpp:470-475 | Creating under a taken name reports success for a server that is not registered |
| Services.ShadowedForever | src/hcom4db.cpp:848-963 | Such a server can never again be given a handler or be destroyed |
| Services.DestroyExact | src/hcom4db.cpp:938-963 | Destroying removes exactly that server's entry and resets the shared settings, and does nothing when the library fails or the server is unknown |
| Services.NarrowKey | src/hcom4db.cpp:368-392 | No message id of 1000 or more narrows onto a registered key |
| Services.AddServiceExact | src/hcom4db.cpp:848-886 | A registration is accepted exactly for a registered server, an id below 1000 and a handler, be the id taken or not; that id then has that handler and every other id what it had; a refusal changes nothing |
| Services.DispatchFollowsLog | src/hcom4db.cpp:848-886 | After any history a message id meets the handler of the last registration for it that names a registered server, an id below 1000 and a handler, and none otherwise |
| Services.Tables.CreateServerEntry | src/hcom4db.cpp:433-478 | The service map updated in place, so that the results on histories hold of it |
| Services.Tables.ServerDestroy | src/hcom4db.cpp:938-963 | The entry is searched by handle and erased only when the library has destroyed the server |
| Services.Tables.ServerCreateWithCfg | src/hcom4db.cpp:787-841 | Creates, takes over the settings left by the options, and destroys the server again when they failed, with the status `Services.CreateExact` fixes |
| Services.Tables.ServerAddService | src/hcom4db.cpp:848-886 | Unknown server, null service, id of 1000 or more and null handler are refused without effect; otherwise the handler of that id is replaced |
| MemRegistry.ReplayInv | src/hcom4db.cpp:227-296 | Over every history: a client with a region has an allocator, an allocator entry without a region is null, no two clients share, nothing is released that is not held |
| MemRegistry.ConnectExact | src/hcom4db.cpp:227-275 | For every way the set-up can go: connecting succeeds exactly without a pool or with everything made, the channel is open in any case, and what is made, left behind and entered |
| MemRegistry.ConnectHoldsIff | src/hcom4db.cpp:253-267 | A completed connection is entered if and only if the client had no allocator entry before |
| MemRegistry.HoldsUntilDisconnect | src/hcom4db.cpp:277-296 | It stays entered and unreleased through everything but that client's disconnect |
| MemRegistry.ReleasedOnce | src/hcom4db.cpp:1105-1126 | A disconnect releases the client's allocator, pool memory and region and closes its channel, each held until then, and nothing else; only the allocator stays when its destruction fails |
| MemRegistry.OrphanLedger | src/hcom4db.cpp:227-270 | What no entry names any more grows exactly by what an incomplete or shadowed connection, or a failing destruction, loses, and by nothing else |
| MemRegistry.Tables.PrepareMemAllocator | src/hcom4db.cpp:227-275 | Each error path leaves behind exactly what the registry model says it loses; success enters only absent clients |
| MemRegistry.Tables.ClientConnect | src/hcom4db.cpp:1091-1102 | The channel is open whether or not the allocator can be prepared |
| MemRegistry.Tables.AllocatorOf | src/hcom4db.cpp:277-296 | Looking a client up answers its allocator, or enters and answers a null one when there is none; no other entry changes |
| MemRegistry.Tables.ClientDisconnect | src/hcom4db.cpp:1105-1126 | Both maps give up the client, and what they held for it is released |
| Config.InitConfigMap | src/hcom4db.cpp:409-430 | Accepts exactly the arrays without null pointers; the map answers every key as a scan for its first pair would |
| Config.FirstValueExact | src/hcom4db.cpp:409-430 | The pair that counts for a key is the one before which no pair has that key |
| Config.Calculate2PowerTimes | src/hcom4db_utils.cpp:29-38 | The loop ends with the bit length of its argument |
| Config.BitLengthPowers | src/hcom4db_utils.cpp:29-38 | 0 and only 0 has bit length 0; any other number lies between the power below its bit length and the power at it |
| Config.TopTier | src/hcom4db.cpp:215-222 | The largest cached tier is at most the segment size and more than half of it |
| Config.SetAllocatorOption | src/hcom4db.cpp:176-225 | When a configuration is refused, when it gives no pool, and every option otherwise in plain arithmetic; without either key and with memory, a pool of 67108864 bytes |
| Config.PoolSizeIff | src/hcom4db.cpp:197-206 | For nonzero numbers there is a pool of the size asked for, at least 4096, if and only if the product fits 32 bits; otherwise it is smaller or there is none |
| Config.WrapsToNoPool | src/hcom4db.cpp:197-202 | Two accepted numbers, written in a configuration, with which the client gets no pool |
| Config.SizesExact | src/hcom4db.cpp:158-196 | An absent key gives 65536 bytes or 1024 segments; a number in the text is in use exactly from 0 to 943718400, or to 65535; any other text is refused |
| Config.WrittenSizes | src/hcom4db.cpp:158-196 | The same for a number of any size written in decimal |
| Config.StoiExact | src/hcom4db.cpp:163-163 | White space, an optional sign, digits and anything behind them: the value of the digits if it fits an int, out of range otherwise |
| Config.StoiRefusesIff | src/hcom4db.cpp:164-166 | A text is not a number if and only if it has no digit right behind its leading white space and sign |
| Config.StoiReadsBack | src/hcom4db.cpp:158-174 | A number written in decimal is read back if it fits an int and is out of range otherwise |
| Config.NegativeRefused | src/hcom4db.cpp:158-196 | A negative segment size or count is always refused by the upper bound it exceeds as an unsigned number |
| Config.ServerSegmentSize | src/hcom4db.cpp:627-634 | The server has the same default and takes the same number unbounded: it is in force as written if and only if it is not negative; a text without one is an error |
| Timeout.Settings.SetTimeout | src/hcom4db.cpp:1826-1834 | The global and the channel's two timeouts hold the same 32-bit value, the whole seconds or the negative value where 32 bits hold it, from which `SecondsIff`, `NegativeIff` and `SignIff` start |
| Timeout.Settings.RequestTimeout | src/hcom4db.cpp:1342-1345 | A request carries the whole seconds of the timeout last asked for, or the negative value itself, exactly when 16 bits hold it |
| Timeout.StoredExact | src/hcom4db.cpp:1826-1834 | What is stored is a 32-bit number congruent to the whole seconds or the negative value, and equal to it exactly when 32 bits hold it |
| Timeout.SecondsIff | src/hcom4db.cpp:1826-1837 | A request carries whole seconds of a non-negative timeout if and only if it is below 32768000 milliseconds |
| Timeout.NegativeIff | src/hcom4db.cpp:1826-1837 | A negative timeout is carried unchanged if and only if it is at least -32768 |
| Timeout.SignIff | src/hcom4db_hcom.h:102-102 | The carried timeout is negative exactly when bit 15 of the stored value is set |

## Left out

- Services.FailedCreateRestores: takes `Service_Destroy` to succeed in the cleanup; `Services.CreateExact` covers its failure.
- ProtocolRuns.RunKeeps: one client's pool, and no disconnect during the run, which is in `Teardown`; the pools of two clients share nothing but the malloc'ed records.
- Endings.CompletionReached: the library's duty to deliver and the scheduler's duty to go on are hypotheses on the run.
- The user's response buffer: its capacity is nowhere in the code; a response is the bytes of the reply, as in the case of a null buffer (src/hcom4db.cpp:1249-1259).
- What a synchronous call writes into the response, and the raw or op-info form of a reply: one assignment each.
- The Rndv entry points apart from their records, the public allocator and memory-region functions, the deprecated functions: forwarding calls.
- Symbol loading (src/hcom4db_dlopen_hcom.cpp), logging, TLS callbacks, worker groups, port ranges and address masks: library plumbing and string copies.
- `std::stoi` beyond base 10 with leading white space and a sign; `errno` and locales.
- ProtocolRuns.ArithmeticExact: one segment size per call; `SegmentSize` has the exact conditions, step by step, when it changes.
- Teardown.DisconnectSafeIff: requests over a client handle that the library uses again for a later connection are not modelled; a late free of an old request would then go to the new allocator, which answers it with an error unless it has a block at that address.
- Services.DestroyExact: of `g_options` and `g_tlsFunc` the model has the segment size and one callback, which stand for the rest.
- Real scheduling on the mutexes.
- Null server, client, context and parameter pointers of entry points whose only reaction is an error code.
