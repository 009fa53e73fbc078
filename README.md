# rmw_embeddedrtps receive path and memory pools, in Dafny

This project models the memory-pool and receive hand-off layer of the
micro-ROS middleware shim `rmw_embeddedrtps`.

**Pools** (`memory.dfy`, `types.dfy`)
- Each pool is an intrusive pair of doubly linked lists: a free list and an allocated list.
- `get_memory`, `put_memory` and the pool initialiser are imperative methods on a `Pool<T>` class.
- The class keeps its items' `prev`/`next` pointers in index arrays.
- Ghost sequences give the two lists read from their heads. A ghost set gives the heap items handed back to the allocator.
- The invariant `Valid` states that both lists are threaded and disjoint, that listed items are live cells, and that unlisted live cells have NULL links.
- Every pool operation is proved to keep that invariant and to produce the list contents it promises.

**Receive dispatcher** (`callbacks.dfy`)
- It finds the entity whose reader received a change.
- It claims an input buffer and stamps it with the change's identities.
- It copies the payload, or gives the buffer back when the payload does not fit.

**Wait** (`wait.dfy`)
- `rmw_wait` pre-scans the `has_data` flags, decides whether to block on the semaphore, re-scans the claimed buffers to mark ready entities, and NULLs the wait-set entries of the others.

**Take and service paths** (`take.dfy`, `request.dfy`, `response.dfy`)
- Each take finds the newest buffer of its owner, decodes the payload behind the 4-byte encapsulation header, and gives the buffer back whatever the codec answered.
- The request/response paths pack and unpack the 64-bit sequence ids and copy the 16-byte GUIDs.
- `rmw_take_sequence` is proved to deliver exactly the leading run of buffers the codec accepts.

**Name builders and graph** (`utils.dfy`, `graph.dfy`)
- The `snprintf`-based name builders and the identifier check.
- The graph bookkeeping message with its publication.

**What becomes a parameter.** The model keeps no I/O. These become inputs:
- the semaphore's outcome (`woken`);
- the codec (`deserialize`, a function of the bytes it is shown; `serialize`/`serialized`, its output or None);
- the writer's assigned sequence number (`changeSn`);
- the shim's implementation identifier (`implementation`).

**When the re-scan runs.** The re-scan for claimed buffers runs only when `available_data` already holds after the block decision (src/rmw_wait.cpp:82). So a buffer that was claimed while nothing was flagged and the timeout was under 1 ms is not seen, and the call times out (`Wait.SubMillisecondTimeoutTimesOut`).

## Model

| member | source | states |
|---|---|---|
| Common.ToInt32 | src/rmw_wait.cpp:75 | `static_cast<int32_t>` keeps values below 2^31 and otherwise yields the two's complement value congruent modulo 2^32 |
| Common.SizeSub | src/rmw_take.cpp:64-67 | `length - 4` in `size_t` is exact without underflow and wraps to 2^64 - (4 - length) otherwise |
| Common.JoinSequenceNumber | src/rmw_request.cpp:55-57 | `high << 32 \| low` is the 64-bit id whose remainder modulo 2^32 is the low word and whose quotient is the high word; it is negative exactly when the high word is |
| Common.SplitSequenceNumber | src/rmw_response.cpp:52-53 | `seq >> 32` and `seq & 0xFFFFFFFF` are the high and low words with `high * 2^32 + low == seq`; the high word is non-negative exactly when the id is |
| Common.GuidBytesRoundTrip | src/rmw_response.cpp:43-51 | reading a GUID's 16 in-memory bytes back gives the GUID, and the bytes of the GUID read from 16 bytes are those bytes |
| Common.SplitJoin | src/rmw_response.cpp:52-53 | splitting `high << 32 \| low` by arithmetic shift and mask gives back both words of every sequence number |
| Common.JoinSplit | src/rmw_request.cpp:55-57 | joining the two words split from a 64-bit id gives the id back |
| Common.WriteHeader | src/rmw_request.cpp:40-43 | the buffer starts with the encapsulation header 0,1,0,0 and nothing behind it changes |
| Common.WritePayload | src/rmw_request.cpp:46-51 | the codec output lands behind the header, the size is its length plus 4, and nothing else changes |
| Common.WriteFrame | src/rmw_request.cpp:39-54 | a size is produced exactly when the codec succeeded; the buffer's first `size` bytes are header plus payload; without output only the header is written |
| Common.CopyRange | src/rmw_graph.cpp:175-177 | `std::copy` puts `src[from..to]` at `dst[at..]` and leaves every other element |
| Common.CopyGuid | src/rmw_graph.cpp:175-183 | the three copies 0..12, 12..15, 15..16 put all 16 GUID bytes in order and leave the rest of the storage |
| Memory.Remove | src/memory.cpp:76-85 | taking an item out of a list shortens it by one exactly when the item was listed and keeps every other item |
| Memory.PutOne | src/memory.cpp:76-101 | one `put_memory` takes the item out of the allocated list and, unless it is released, puts it in front of the free list; a released item is the only one added to the released set: the one-item case of giving back a run of items |
| Memory.PutEachCompose | src/memory.cpp:76-101 | giving back one run of items and then another leaves the lists that giving back both runs at once leaves |
| Memory.ReleasedOfAppend | src/memory.cpp:87-93 | the items released by giving back one run and then another are those released by either run |
| Memory.ThreadedIsChained | src/types.cpp:85-93 | from any position of a threaded list, following `next` links from that item visits the rest of the list in order |
| Memory.ThreadedHasNoDuplicates | src/memory.hpp:26-29 | a list threaded through `prev`/`next` with NULL at both ends never visits an item twice |
| Memory.PopKeepsThreaded | src/memory.cpp:38-42 | after the head is popped and its successor's `prev` is cleared, the rest of the list is threaded and the old head's `next` was the new head |
| Memory.PushKeepsThreaded | src/memory.cpp:95-101 | pushing an unlisted item in front of a threaded list by the three link writes keeps it threaded and duplicate-free |
| Memory.UnlinkKeepsThreaded | src/memory.cpp:76-81 | patching the neighbours of the item at position k leaves the list without it threaded |
| Memory.MoveHeadKeepsThreaded | src/memory.cpp:36-50 | moving the free head to the allocated head keeps both lists threaded |
| Memory.GetKeepsShape | src/memory.cpp:36-50 | `get_memory`'s fast path keeps the pool well shaped, with the free head moved to the allocated list |
| Memory.GrowKeepsShape | src/memory.cpp:53-58 | a freshly allocated item with NULL links enters the arena without disturbing either list |
| Memory.UnlinkKeepsShape | src/memory.cpp:76-85 | unlinking an allocated or unlisted item removes it from the allocated list, advances the allocated head exactly when it was that item, keeps the free list, and changes only links of allocated items |
| Memory.PutReleaseKeepsShape | src/memory.cpp:76-93 | `put_memory` of a dynamic item keeps the pool well shaped, with the item released to the allocator |
| Memory.RecycleKeepsThreaded | src/memory.cpp:76-101 | unlinking an item and pushing it on the free list keeps both lists threaded and leaves unrelated links |
| Memory.PutFreeKeepsShape | src/memory.cpp:76-101 | `put_memory` of a non-dynamic item keeps the pool well shaped, with the item at the free head |
| Memory.Pool.constructor | src/types.cpp:26-45 | a zero-initialised pool global: not initialised, both lists empty, every item zeroed and not dynamic |
| Memory.Pool.HasMemory | src/memory.cpp:21-27 | true exactly when the free list is non-empty |
| Memory.Pool.PopFree | src/memory.cpp:38-42 | the free head advances to the item's successor, which loses its predecessor |
| Memory.Pool.LinkFront | src/memory.cpp:45-49 | the item's `next` becomes the old head, the old head's `prev` the item, and the item's `prev` NULL |
| Memory.Pool.MoveFreeHead | src/memory.cpp:36-50 | the free head moves to the front of the allocated list, with the new links given exactly |
| Memory.Pool.TakeFree | src/memory.cpp:36-50 | on a non-empty free list the first free item becomes the first allocated item, and the pool stays valid |
| Memory.Pool.AllocateItem | src/memory.cpp:53-59 | the growth path's fresh item has NULL links, a zeroed block of `element_size` bytes, and is not dynamic yet; nothing else changes |
| Memory.Pool.FileDynamic | src/memory.cpp:53-61 | the growth path's fresh item is filed as the only free item, marked dynamic, with a zeroed block; the allocated list and every other item are unchanged |
| Memory.Pool.Grow | src/memory.cpp:51-64 | the growth path files the new item via `put_memory`, marks it dynamic and claims it, so it heads the allocated list and the free list stays empty |
| Memory.Pool.Get | src/memory.cpp:29-67 | returns the free head, else a grown item when growth is compiled in, allowed and possible, else NULL; the lists, flags and records change exactly as that choice implies; the heap top moves up by one exactly on growth; the settings and the released set stay |
| Memory.Pool.Unlink | src/memory.cpp:76-81 | the item's neighbours skip it |
| Memory.Pool.Detach | src/memory.cpp:76-85 | the neighbours skip the item, the allocated head advances exactly when it was the item, and the item leaves the allocated list |
| Memory.Pool.DetachAndRelease | src/memory.cpp:76-93 | a dynamic item is unlinked and given back to the allocator |
| Memory.Pool.DetachAndPush | src/memory.cpp:76-101 | a non-dynamic item is unlinked and becomes the free head |
| Memory.Pool.PushFree | src/memory.cpp:95-101 | the item becomes the head of the free list in front of the old free items |
| Memory.Pool.PutRelease | src/memory.cpp:76-93 | `put_memory` of a dynamic item keeps the pool valid, removes the item from the allocated list and releases it |
| Memory.Pool.PutRecycle | src/memory.cpp:76-101 | `put_memory` of any other item keeps the pool valid, removes it from the allocated list and pushes it on the free list |
| Memory.Pool.Put | src/memory.cpp:69-102 | the item leaves the allocated list; it is released when dynamic allocation is compiled in and the item is dynamic, and otherwise heads the free list; the released set gains exactly the released item; the heap top and the settings stay; the pool stays valid |
| Types.Descending | src/types.cpp:63-67 | the free list the initialiser leaves holds exactly the cells 0..n-1, in reverse array order |
| Types.InitMemory | src/types.cpp:49-69 | on an uninitialised pool and a non-empty array: the scalars are set, the allocated list is empty, the free list is the array in reverse order, and each item's data is its own record; otherwise nothing changes, the dynamic flags and links included |
| Types.EnrolAll | src/types.cpp:63-67 | the loop leaves the cells 0..size-1 on the free list in reverse array order, each pointing at its own record and not dynamic, and the other cells' data unchanged |
| Types.StartInit | src/types.cpp:56-61 | the pool is initialised with the element size, two empty lists and growth allowed |
| Types.EnrolStatic | src/types.cpp:64-66 | `put_memory` on the i-th cell pushes it on the free list and its data points at its own record |
| Types.FirstOwned | src/types.cpp:80-95 | NULL exactly when no listed buffer belongs to the owner; otherwise the owner's first buffer in list order |
| Types.FirstOwnedFindsLatestClaim | src/types.cpp:85-91 | a buffer claimed for an owner, being pushed at the allocated head, is the one the lookup finds |
| Types.OwnedItems | src/types.cpp:80-95 | the owner's buffers in list order are at most as many as the listed items, and each is in range and belongs to the owner |
| Types.OwnedItemsExact | src/types.cpp:80-95 | the owner's buffers are exactly the listed items whose record names the owner, kept in list order as a sub-list |
| Types.FirstOwnedHeadsOwnedItems | src/types.cpp:80-95 | the lookup returns the first of the owner's buffers, or NULL when there are none |
| Types.RemovingFirstOwned | src/rmw_take.cpp:54-73 | after the found buffer is put back, the owner's remaining buffers are the others in the same order |
| Types.TakingFirstOwned | src/rmw_take.cpp:54-73 | both facts above together, for any list whose items are in range |
| Types.FindByOwner | src/types.cpp:80-95 | the walk from the allocated head returns the first buffer owned by `owner`, an allocated item, and NULL exactly when the owner has none |
| Callbacks.FirstReading | src/callbacks.cpp:23-28 | NULL exactly when no listed entity listens on the reader; otherwise the first one in list order |
| Callbacks.FindByReader | src/callbacks.cpp:23-28 | the walk from the entity pool's allocated head returns the first entity whose reader received the change |
| Callbacks.Stamped | src/callbacks.cpp:37-42 | stamping a buffer records the owner, the change's length, sender and related identities, and keeps its payload bytes |
| Callbacks.FilledIsStamped | src/callbacks.cpp:37-48 | a claimed buffer holds exactly what stamping writes, plus the payload once the copy succeeded; stamping then copying always yields such a buffer |
| Callbacks.InnerCallback | src/callbacks.cpp:18-54 | no entity or no buffer leaves the buffer pool unchanged; otherwise the claimed buffer records owner, length and identities; the semaphore is signalled exactly when the payload fit, and then the buffer heads the allocated list and the free list lost its head; a buffer whose copy failed is given back, restoring both lists, and a grown one is released; the settings stay, the heap top moves up by one exactly when a buffer was grown, which is then dynamic with a fresh block, and every other buffer keeps its record, growth flag and data block |
| Callbacks.Acquire | src/callbacks.cpp:29-33 | the claimed buffer is the one `get_memory` hands out next and heads the allocated list; it is released later exactly when it was grown; the settings and the released set stay, the heap top moves up by one exactly on growth, and every other buffer keeps its record, growth flag and data block |
| Callbacks.Claim | src/callbacks.cpp:29-48 | the buffer claimed is the one `get_memory` hands out next and is stamped for the owner; the semaphore is signalled exactly when the payload fit; then the buffer heads the allocated list and the free head is gone; otherwise both lists are as before and a grown buffer is released; the settings stay, the heap top moves up by one exactly on growth, and other buffers keep their records, growth flags and data blocks |
| Callbacks.GiveBackRestores | src/callbacks.cpp:29-44 | a `get_memory` followed by a `put_memory` of the same buffer leaves the free and allocated lists as they were |
| Callbacks.Fill | src/callbacks.cpp:37-48 | the fields are stamped; the copy succeeds exactly when the payload fits; on failure the buffer leaves the allocated list and goes to the free head or, when dynamic, is released; the settings, the heap top, the growth flags and the data blocks stay |
| Callbacks.GenericCallback | src/callbacks.cpp:56-78 | each specialisation scans its own entity pool and claims a buffer for an owner of the matching kind, with the buffer pool's lists, released set, heap top, settings and other buffers changing exactly as in the inner callback |
| Wait.Millis | src/rmw_wait.cpp:70 | `timeout / 1000000ULL` divides non-negative timeouts and turns a negative one into a huge positive count |
| Wait.Blocks | src/rmw_wait.cpp:70 | the semaphore is waited on exactly when nothing is flagged and the timeout is negative (infinite once converted) or at least 1 ms |
| Wait.TimeoutMs | src/rmw_wait.cpp:71-76 | 0 for an infinite timeout, otherwise the millisecond count when it fits in `int32_t` |
| Wait.ReadTimeoutAsWritten | src/rmw_wait.cpp:43 | the timeout is read through the pointer without a test: a non-NULL timeout is read as it is, and a NULL one has no defined reading |
| Wait.NullTimeoutUndefined | src/rmw_wait.cpp:43 | a NULL `wait_timeout` reaches undefined behaviour, and every other timeout is read unchanged |
| Wait.ReadTimeout | src/rmw_wait.cpp:43 | with the intended NULL test, a NULL `wait_timeout` reads as the infinite timeout, of at least 1 ms, and any other timeout as it is |
| Wait.NullTimeoutWaitsForever | src/rmw_wait.cpp:43-79 | with the intended reading, a NULL timeout with nothing flagged waits on the semaphore with `timeout_ms` 0, and data is available exactly when the wait is woken |
| Wait.AfterRescan | src/rmw_wait.cpp:82-121 | a watched entity's flag ends up set exactly when it was set or the entity owns a claimed buffer; readers are unchanged |
| Wait.Nulled | src/rmw_wait.cpp:124-144 | an entry becomes NULL exactly when its entity has no data, and is kept otherwise |
| Wait.ScanFlags | src/rmw_wait.cpp:47-53 | a pre-scan loop finds a flag exactly when one is set or data was already available |
| Wait.BlockIfIdle | src/rmw_wait.cpp:69-79 | the semaphore is waited on exactly when nothing is flagged and the timeout is at least 1 ms, with the right `timeout_ms`; afterwards data is available exactly when flagged or woken |
| Wait.MarkReady | src/rmw_wait.cpp:84-94 | a re-scan loop sets the flag of every watched entity that owns a claimed buffer, and reports whether any did |
| Wait.MarkIfPending | src/rmw_wait.cpp:88-93 | one entity is marked exactly when the lookup finds a buffer it owns |
| Wait.RescanStep | src/rmw_wait.cpp:84-94 | re-scanning one more entry marks at most that entry's entity |
| Wait.NullNotReady | src/rmw_wait.cpp:124-130 | a nulling loop leaves exactly the entries of entities with data |
| Wait.Prescan | src/rmw_wait.cpp:46-67 | the three pre-scan loops find a flag exactly when some watched entity has one |
| Wait.Rescan | src/rmw_wait.cpp:82-121 | the three re-scan loops mark services, clients and subscriptions that own claimed buffers |
| Wait.Decide | src/rmw_wait.cpp:43-121 | the block decision and the result as functions of the flags, timeout and semaphore outcome; the re-scan happens exactly when the result is OK |
| Wait.NullAll | src/rmw_wait.cpp:124-144 | all three wait-set arrays keep exactly the entries whose entity has data |
| Wait.WaitForData | src/rmw_wait.cpp:43-146 | OK exactly when a flag was set or the semaphore was waited on and woke; ready entities are marked then; every entry without data is NULLed; a NULL timeout is read as the infinite one |
| Wait.SubMillisecondTimeoutTimesOut | src/rmw_wait.cpp:70-82 | with nothing flagged and a timeout under 1 ms there is no wait and the result is TIMEOUT, pending buffers notwithstanding |
| Wait.WakeWithoutDataNullsAll | src/rmw_wait.cpp:82-144 | a wake-up that finds no flag and no owned buffer changes no flag and NULLs every entry |
| Utils.StrcmpZeroIffEqual | src/utils.cpp:118 | `strcmp` returns 0 exactly for equal C strings |
| Utils.IsIdentifierValid | src/utils.cpp:114-119 | valid exactly when the identifier is present and equals the shim's |
| Utils.Snprintf | src/utils.cpp:102-107 | size 0 writes nothing; otherwise the buffer holds a prefix of the text, the whole text exactly when it is shorter than the size and exactly `size - 1` characters otherwise; the count is the text's length, or -1 beyond `INT_MAX` |
| Utils.GenerateServiceTopics | src/utils.cpp:27-42 | request topic "rq"+name+"Request" and reply topic "rr"+name+"Reply", each whole exactly when it fits and otherwise its first `size - 1` characters, and result 1 |
| Utils.RequestAndReplyDiffer | src/utils.cpp:21-25 | with at least 3 bytes of buffer the request and reply topics differ |
| Utils.ServiceTopicsInjective | src/utils.cpp:33-39 | distinct services get distinct request topics and distinct reply topics |
| Utils.GenerateTypeNameAsWritten | src/utils.cpp:64-95 | the text is the type name `ns::dds_::Name_` when it fits and otherwise its first `size - 1` characters; the reported size is the full length plus 1, less 2 when there is a namespace |
| Utils.TypeNameSizeTooSmall | src/utils.cpp:72-78 | for namespace "pkg" and name "Msg" the reported size 14 cuts the name to "pkg::dds_::Ms" |
| Utils.GenerateTypeName | src/utils.cpp:64-95 | with the intended size, the buffer holds the whole type name exactly when it is at least that size, and its first `size - 1` characters otherwise |
| Utils.GenerateServiceTypes | src/utils.cpp:44-62 | both type names, each whole exactly when it fits the buffer and otherwise its first `size - 1` characters, and result 0 |
| Utils.GenerateTopicNameAsWritten | src/utils.cpp:97-112 | the text is "rt"+topic when it fits and otherwise its first `size - 1` characters; the result is the full length when that is at most `INT_MAX`, and 0 only when the name is longer |
| Utils.TopicTruncationUnreported | src/utils.cpp:108 | "chatter" in a 4-byte buffer gives "rtc" and result 9, not 0 |
| Utils.GenerateTopicName | src/utils.cpp:97-112 | with the intended guard and a buffer of positive `int` size, a non-zero result means the whole name was written and equals its length, and conversely; a cut name is its first `size - 1` characters |
| Take.FramedPayloadReachesCodec | src/rmw_take.cpp:63-67 | a buffer filled from a frame of header plus payload shows the codec exactly that payload and its length |
| Take.DecodeAndRelease | src/rmw_take.cpp:63-73 | the codec's answer on the buffer's view is returned and the buffer is put back: it leaves the allocated list and heads the free list, or is released when dynamic; the heap top and the settings stay |
| Take.TakeWithInfo | src/rmw_take.cpp:20-85 | `taken` starts false; a foreign identifier or no buffer is an error with no pool change; otherwise the newest owned buffer is decoded and put back, leaving the allocated list and going to the free head or, when dynamic, to the released set, and OK and `taken` both report the codec's answer; the heap top and the settings stay |
| Take.TakeRun | src/rmw_take.cpp:106-122 | the number delivered from position `from` of the owner's buffers is at most `count` and stays within the list |
| Take.TakeRunDelivers | src/rmw_take.cpp:106-122 | every buffer the run counts decoded, and a run that stops short of both `count` and the end of the list stops at a buffer the codec refused |
| Take.TakeNext | src/rmw_take.cpp:109-119 | one round takes a message exactly when the owner has a buffer the codec accepts, and consumes the owner's newest buffer either way: it leaves the allocated list and heads the free list or, when dynamic, joins the released set, and nothing else in the lists or the released set changes; the owner keeps the rest of its buffers; the heap top and the settings stay |
| Take.TakeRunIs | src/rmw_take.cpp:106-122 | from any position, the run count is the only count at most `count` and the owned buffers, with every earlier buffer decoded, that stops at `count`, at the end of the list, or at a refusal |
| Take.SequenceRound | src/rmw_take.cpp:106-121 | a round after `from` buffers were used delivers a message exactly when buffer `from` exists and decodes, is OK exactly when it delivers, and leaves the owner's buffers after that one; the allocated list, free list and released set are the originals with the first `next` owned buffers given back; the growth flags, heap top and settings stay; on a delivery the rest of the run is one shorter and starts one buffer later |
| Take.ConsumeNext | src/rmw_take.cpp:109-121 | the take of one round delivers exactly when buffer `from` exists and decodes, is OK exactly then, leaves the owner the buffers after that one, and extends the given-back buffers of the allocated list, free list and released set to `next`; the heap top and the settings stay |
| Take.RoundConsumed | src/rmw_take.cpp:106-121 | giving back one more owned buffer after `from` extends the record of given-back buffers, on the allocated list, the free list and the released set, from `from` to `next` |
| Take.RoundView | src/rmw_take.cpp:106-121 | the owner's remaining buffers after `from` are empty exactly at the end, start with buffer `from`, and lose it in a round |
| Take.NothingConsumed | src/rmw_take.cpp:106 | before the first round no buffer has been given back: the lists and the released set are as they were |
| Take.RoundRun | src/rmw_take.cpp:106-121 | when a round delivers exactly if buffer `from` exists and the codec accepts it, a delivery counts one towards the run, and a refusal or the end of the list ends it |
| Take.TakeLoop | src/rmw_take.cpp:106-122 | the loop takes the leading run of accepted buffers and is OK exactly when it took `count`; the owner keeps its buffers after the taken ones and any refused one, in order; the allocated list, free list and released set are the originals with exactly those consumed buffers given back; the heap top and the settings stay |
| Take.TakeSequence | src/rmw_take.cpp:87-128 | a foreign identifier is an error with nothing taken, no change to the lists or the released set and both sequence sizes as the caller left them; otherwise the number taken is the leading accepted run cut at `count`, OK exactly when all `count` were taken, the consumed buffers (the taken ones and a refused one) leave the allocated list in order and go to the free list, or to the released set when dynamic, and both sequence sizes equal the number taken; the heap top and the settings stay |
| Request.RequestId.constructor | src/rmw_request.cpp:69 | request id storage of at least 16 GUID bytes |
| Request.SendRequest | src/rmw_request.cpp:19-64 | a foreign identifier is refused with nothing written; otherwise OK exactly when serialized, the frame of header plus payload is handed over, and the sequence id is `high << 32 \| low` of the change's number |
| Request.StampHeader | src/rmw_request.cpp:94-105 | the header holds the GUID's 16 bytes and the packed sequence number, and both read back to the originals |
| Request.TakeRequest | src/rmw_request.cpp:66-133 | foreign identifier and empty take leave pool and header alone; otherwise the header gets the sender's GUID and sequence number, the payload is decoded, and the buffer is put back: it leaves the allocated list and heads the free list or, when dynamic, joins the released set; the heap top and the settings stay |
| Response.RelatedIdentity | src/rmw_response.cpp:40-53 | the related GUID and sequence number rebuilt from the header give back the header's bytes and id |
| Response.SendResponse | src/rmw_response.cpp:24-83 | a foreign identifier is refused; otherwise OK exactly when serialized, and the frame carries the request's GUID and sequence number as related identity |
| Response.TakeResponse | src/rmw_response.cpp:85-155 | like the take of a request, but the header receives the related GUID and related sequence number; the buffer leaves the allocated list and heads the free list or, when dynamic, joins the released set; the heap top and the settings stay |
| Response.ResponseCorrelatesWithRequest | src/rmw_response.cpp:43-53 | equal GUID bytes and equal packed ids mean the related identity is the request's own |
| Graph.Frame | src/rmw_graph.cpp:43-49 | a frame exists exactly when serialization succeeded, 4 bytes longer than the output |
| Graph.FirstNamed | src/rmw_graph.cpp:160-161 | no position exactly when no node has that name; otherwise the first node with it |
| Graph.WithGidAddsOne | src/rmw_graph.cpp:165-173 | adding a GID to one node adds exactly one GID to the message and keeps the node's name and namespace |
| Graph.GraphInfo.constructor | src/rmw_graph.cpp:93-118 | message storage with no node |
| Graph.GraphInfo.InitParticipant | src/rmw_graph.cpp:120-125 | the GID holds the 12-byte prefix and the participant id, the node list is empty, and that message is published |
| Graph.GraphInfo.Publish | src/rmw_graph.cpp:27-54 | header written; OK with the frame of the serialized message exactly when serialization succeeded, error otherwise |
| Graph.GraphInfo.AddNode | src/rmw_graph.cpp:130-151 | the slot at `size` receives name and namespace, `size` grows by one, and the new message is published |
| Graph.GraphInfo.AppendGid | src/rmw_graph.cpp:162-183 | the node's reader or writer GIDs gain the 16 GUID bytes at their end |
| Graph.GraphInfo.AddEntity | src/rmw_graph.cpp:153-190 | the first node with the name gains the GID on the chosen side, nothing else changes, the GID count grows by one exactly when such a node exists, and the message is published |

## Left out

- The pool mutexes (`memory_mutex`) and the lock guards: the model is sequential.
- The wait semaphore is an input. Its outcome `woken` is a parameter; `sys_sem_signal` is the `signalled` result of the callback.
- Allocator exhaustion. `rmw_allocate` is assumed to succeed whenever the arena has an unused cell. The growth path stops when the arena is full, and `get_memory` then returns NULL.
- The shim's implementation identifier is a parameter: the file that defines it is not part of this model.
- `Graph.GraphInfo.AddNode` and `Graph.GraphInfo.AddEntity` return nothing. The C functions fall off their end without a return statement, so their result is undefined.
- `Graph.GraphInfo.AddNode` requires room in the node sequence. The C code writes `data[size]` without checking the sequence's capacity.
- `Graph.GraphInfo.AppendGid`: the GID sequences are unbounded, where the C code does not check their capacity either.
- Bytes of the `rmw_dds_common` GID storage beyond the 16 the shim writes are not modelled. The `int8_t writer_guid` of the request header is modelled as bytes.
- `Utils.Snprintf`: for a text longer than `INT_MAX` the buffer contents are modelled as the truncated prefix; C leaves them unspecified.
- The NULL test of `subscriptions` in the third re-scan loop (src/rmw_wait.cpp:110) is dropped. The nulling loop (src/rmw_wait.cpp:138) dereferences the pointer unconditionally, so the test never matters.
- A NULL `taken` pointer in the take paths behaves like a discarded output.
- `newChange` returning NULL in `rmw_send_request` is not modelled (the C code dereferences it).
- `rmw_graph_init` beyond the participant GID fill, the empty node list and its publication: creating the graph writer and reader, and building the type name.
- The entity creation and destruction files (`rmw_node.cpp`, `rmw_publisher.cpp`, `rmw_subscription.cpp`, `rmw_service.cpp`, `rmw_init.cpp`), `rmw_publish.cpp` and the GID and topic-info queries.
- The wait paths only need `Walkable`, the part of the pool invariant that a walk of the allocated list relies on. This keeps their proofs small.
- Names are Dafny strings, counted in characters, where `strlen` and `snprintf` count bytes. The two agree for ASCII names, and ROS name validation in the layers above admits only ASCII.
- Message contents are not modelled: the codec is an oracle on the bytes it is shown (`deserialize`) or its output (`serialize`/`serialized`).

## Findings

| source | as written | input that shows it | evidently intended | confidence | as-written member | corrected member |
|---|---|---|---|---|---|---|
| src/utils.cpp:72-78,94 | the reported size counts "dds", "_", "::", the name, "_", the namespace and the NUL, but not the "::" written after a namespace | namespace "pkg", name "Msg": reported size 14, but "pkg::dds_::Msg_" needs 16 bytes, so a 14-byte buffer gets "pkg::dds_::Ms" | the size is the full name's length plus 1 | not executed | Utils.GenerateTypeNameAsWritten, Utils.TypeNameSizeTooSmall | Utils.GenerateTypeName |
| src/utils.cpp:108 | `ret < 0 && ret >= (int) size` never holds for a size that is a positive `int`, so truncation is never reported | "chatter" with a 4-byte buffer: the buffer gets "rtc" and the result is 9 | `ret < 0 \|\| ret >= (int) size`: 0 on failure or truncation | not executed | Utils.GenerateTopicNameAsWritten, Utils.TopicTruncationUnreported | Utils.GenerateTopicName |
| src/rmw_wait.cpp:43 | `rmw_time_total_nsec(*wait_timeout)` reads through the pointer with no NULL test | a NULL `wait_timeout`, which the rmw interface documents as waiting until a condition is ready: the read is undefined behaviour | a NULL timeout is the infinite timeout: with nothing flagged, wait on the semaphore with `timeout_ms` 0 | not executed | Wait.ReadTimeoutAsWritten, Wait.NullTimeoutUndefined | Wait.ReadTimeout, Wait.NullTimeoutWaitsForever |
