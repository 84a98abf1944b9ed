# Elkeid, verified

A Dafny model of the parts of Elkeid, a host security agent with a kernel module, whose correctness is hardest to
see from the code: its lock-free object pool, its wire format with the partial decoder that avoids decoding
payloads, the buffers records travel through, and the state machines that supervise plugins and collectors.

`dafny verify dfyconfig.toml` checks everything. `Wrappers` and `Bits` hold what the other modules share.

**The object pool.** `MemcacheMachine` is a transition system whose steps are the single loads, stores and
compare-and-swaps of `memcache_push` and `memcache_try_get_slot`, over unbounded counters. Pushes on a CPU nest last
in, first out, as interrupts do; pops run on any CPU. A ghost map from objects to places carries the conservation
law from which exclusive ownership, the bound on the window and the absence of stranded objects follow.
`MemcacheWrap` runs the same steps on 32-bit counters and gives, instruction by instruction, the exact condition
under which they are those of the unbounded pool. `MemcacheFresh` shows that the condition holds in every run whose
snapshots are compared within 2^32 - nr_objs steps of being obtained, and `MemcacheStale` gives a run of 2^32 pops, from
initialisation, at whose end the 32-bit pool hands out an object that a caller holds. `MemcachePool` is
initialisation, and `MemcacheBuilt` states the 32-bit theorem of the pool it builds. `MemcacheLife` is pop, fini and
the reference count, `MemcacheRelease` says when a push or pop still touches the slots after the count has freed
them, `Cpumask` is the wrapping walk, and `DelayedPut` the queue that is the pool's client.

**The wire format.** `Varint`, `Wire`, `Skip` and `Unmarshal` are the generated code for Protocol Buffers (the
sections "Base 128 Varints" and "Message Structure" of Protocol Buffers Encoding) as methods with loops over byte
buffers, each proved against a function on sequences. The generated parsers differ only in their field tables, so
they are one generic loop over a descriptor, and `Messages` gives the descriptor and the round trip of each message.
`Layout` and `Tags` fix the wire numbers: the bytes of every message, tag by tag, and what each tag does to a message
wherever it stands. `Accepted` says which bytes a parser accepts and what it makes of them, by the grammar of the wire
format, and `Reencode` that whatever it accepts survives being written and read again. `Receive` is
the agent's partial decoder and the plugin's framer. The claim that they stay in step is false for records without
type, time or payload, so it is stated as an if-and-only-if. `Forward` is the loop that passes records on to the ring.
It passes on the pointer that comes with an error too, and its theorems say for which bytes that is nil or a record
not wholly read.

**Buffers and readers.** `RecordBuffer` is the agent's ring of records and the pools they are recycled through, and
`Recycling` follows a record through them over whole runs. `TraceReader` is the reader of the per-CPU trace rings
(fair within a page, but every page starts behind CPU 0, so that reads of one entry each can pass it over any number
of times), `Allowlist` the execve allowlists and their command loop, `Strings` the trimming of a command's text, and
`Dns` the decoder of question names (sections 3.1, 4.1.1 and 4.1.2 of RFC 1035).

**Control.** `Plugins` is the agent's reconciliation of plugins with a configuration, `Collector` the token that
keeps runs of a collector apart and the cache they fill. Both are transition systems over the steps of the source,
because processes exit and calls arrive at any moment. `PluginRuns` and `CollectorRuns` say what whole runs of them
achieve, and that they end.

Code that works in place is a method or a class with loops and invariants; protocols between threads are transition
systems, with theorems about every reachable state. Assumptions that the source leaves to its environment are
parameters: whether an allocation succeeds, which hash function is used, which process exits when.

## Model

| member | source | states |
|---|---|---|
| MemcacheMachine.NoUnwrittenBelow | driver/LKM/src/memcache.c:181-187 | the store that publishes `last` succeeds only when no push on that CPU, interrupted or not, still has to write its entry |
| MemcacheMachine.AdvanceOK | driver/LKM/src/memcache.c:168-187 | every instruction of a nested push keeps the slot's counters and the pushes in flight consistent and never moves `last` back |
| MemcacheMachine.WindowBound | driver/LKM/src/memcache.c:131-140 | between `head` and `tail` of any slot lie at most as many positions as there are objects, so a slot never wraps onto itself |
| MemcacheMachine.PushStepPreservesInv | driver/LKM/src/memcache.c:159-192 | the whole-pool invariant survives each load, store and compare-and-swap of a push, whatever the other CPUs are doing |
| MemcacheMachine.PopStepPreservesInv | driver/LKM/src/memcache.c:195-233 | the whole-pool invariant survives each load and compare-and-swap of a pop on any CPU |
| MemcacheMachine.StepPreservesInv | driver/LKM/src/memcache.c:159-233 | every step of every thread keeps the invariant, with the object that moved followed to its new place |
| MemcacheMachine.RunKeepsInv | driver/LKM/src/memcache.c:159-233 | the invariant holds after any interleaving of any length |
| MemcacheMachine.OnePlaceEach | driver/LKM/src/memcache.c:159-233 | in every reachable state each object is in exactly one place: one position of one slot, one pending push, one caller, or discarded |
| MemcacheMachine.PopIsExclusive | driver/LKM/src/memcache.c:195-233 | a successful pop takes the oldest published object, nobody else holds it, and afterwards it is nowhere else |
| MemcacheMachine.LiveEntriesKept | driver/LKM/src/memcache.c:159-233 | no step of any thread overwrites or unpublishes an entry that is published and not yet taken |
| MemcacheMachine.PublishedIsWritten | driver/LKM/src/memcache.c:168-187 | `last` never passes a reserved position whose object has not been stored |
| MemcacheMachine.NothingStranded | driver/LKM/src/memcache.c:168-187 | with no push in flight on a slot, `last` equals `tail`, so everything pushed can be popped |
| MemcacheMachine.EmptyIsTrue | driver/LKM/src/memcache.c:195-233 | a pop gives up on a slot only at an instant when nothing is published there |
| MemcacheMachine.FailedTakeMeansProgress | driver/LKM/src/memcache.c:221-229 | the compare-and-swap on `head` fails only because another pop has succeeded since the snapshot |
| MemcacheMachine.PushFinishes | driver/LKM/src/memcache.c:168-187 | an uninterrupted push finishes within nine instructions, and each of them leaves the pushes it has interrupted as they were |
| MemcacheWrap.MaskedIndex | driver/LKM/include/memcache.h:54-58 | masking a wrapped 32-bit counter gives the index of the unbounded counter |
| MemcacheWrap.RangeTestAgrees | driver/LKM/src/memcache.c:199-219 | the unsigned range test on wrapped counters decides the unbounded one if and only if the snapshot is at most nr_objs behind, or not one to nr_objs behind modulo 2^32 |
| MemcacheWrap.PushAgrees | driver/LKM/src/memcache.c:168-187 | a push instruction on 32-bit counters is the truncation of the unbounded one if and only if the counter it compares is its snapshot or not a multiple of 2^32 away |
| MemcacheWrap.PopAgrees | driver/LKM/src/memcache.c:195-233 | a pop instruction on 32-bit counters is the truncation of the unbounded one, and takes an object in the same cases, if and only if the distance of its snapshot from `last` or `head` meets an exact condition |
| MemcacheWrap.StepAgrees | driver/LKM/src/memcache.c:159-233 | one step of the 32-bit pool is the truncation of one step of the unbounded pool if and only if the snapshot that the step compares does not fool it |
| MemcacheWrap.WrapRefinesUnbounded | driver/LKM/src/memcache.c:159-233 | over every run in which no step is fooled the 32-bit pool ends in the truncation of the unbounded pool's state, however old the snapshots that are not compared |
| MemcacheWrap.WrapPopIsExclusive | driver/LKM/src/memcache.c:195-233 | after any such run from initialisation, an object the 32-bit pool hands out is with no caller and not discarded |
| MemcacheFresh.AgedStep | driver/LKM/src/memcache.c:168-229 | every step keeps each snapshot no further from its counter than the steps gone by since it was obtained, plus nr_objs for the publishing loop |
| MemcacheFresh.PromptRunIsExact | driver/LKM/src/memcache.c:168-229 | a run in which every snapshot is compared within 2^32 - nr_objs steps of being obtained fools no step |
| MemcacheFresh.PromptPopIsExclusive | driver/LKM/src/memcache.c:159-233 | from initialisation, in every such run the 32-bit pool does what the unbounded one does and an object it hands out is with no caller and not discarded |
| MemcacheStale.StaleSnapshotSharesObject | driver/LKM/src/memcache.c:195-233 | a run of the 32-bit pool from initialisation, of 2^32 pops and no fooled step, after which a compare-and-swap on a snapshot 2^32 behind hands out an object a caller holds |
| MemcachePool.CeilLog2 | driver/LKM/src/memcache.c:131-134 | the exponent of the least power of two that is not below the number of objects |
| MemcachePool.SharesAddUp | driver/LKM/src/memcache.c:47-95 | the per-CPU shares add up to exactly nr_objs, for every number of CPUs |
| MemcachePool.SharesClosedForm | driver/LKM/src/memcache.c:62-66 | the first CPUs together get the quotient each and one more for as many as the remainder allows |
| MemcachePool.InitSlot | driver/LKM/src/memcache.c:17-44 | a slot starts at 0 with its objects published in order; it fails exactly when the caller's initialiser rejects one of them |
| MemcachePool.AddCpu | driver/LKM/src/memcache.c:68-92 | the slot of one possible CPU is built if and only if it can be allocated and its objects are accepted; its objects take the next free numbers |
| MemcachePool.InitSlots | driver/LKM/src/memcache.c:47-95 | the loop over the possible CPUs succeeds if and only if every slot can be allocated and every object is accepted, and then gives each CPU its share of distinct objects, nr_objs in all |
| MemcachePool.LaidOutIsInitial | driver/LKM/src/memcache.c:47-157 | objects spread that way make an initial state of the machine, with every object in one place |
| MemcachePool.Init | driver/LKM/src/memcache.c:116-157 | it succeeds if and only if the sizes are valid, everything can be allocated and every object is accepted; success gives an initial state of the machine, even shares and a reference count of nr_objs + 1, failure leaves nothing |
| MemcacheBuilt.PoolIsSized | driver/LKM/src/memcache.c:124-134 | for every number of objects memcache_init accepts, the ring it chooses is a power of two of at most 2^24 entries, as the 32-bit theorems require |
| MemcacheBuilt.BuiltFitsCounters | driver/LKM/src/memcache.c:17-44 | no counter of the state memcache_init leaves behind is cut by the width of uint32_t, so the 32-bit pool starts in that very state |
| MemcacheBuilt.BuiltPopIsExclusive | driver/LKM/src/memcache.c:116-233 | from the state memcache_init leaves behind, in every run whose snapshots are compared within 2^32 - nr_objs steps, the 32-bit pool does what the unbounded one does and an object it hands out is with no caller and not discarded |
| MemcacheLife.SoloTryGet | driver/LKM/src/memcache.c:195-233 | without interference a slot gives its oldest object, or nothing exactly when it is empty, through the machine's own steps |
| MemcacheLife.WalkAdvances | driver/LKM/src/memcache.c:267-286 | the walk over the CPUs comes back to its start only after visiting every possible CPU |
| MemcacheLife.Pop | driver/LKM/src/memcache.c:267-286 | without interference a pop returns NULL if and only if every slot is empty; otherwise it takes from the nearest non-empty CPU in cyclic order |
| MemcacheLife.DrainRound | driver/LKM/src/memcache.c:317-324 | each object memcache_fini pops was not counted before and never comes back |
| MemcacheLife.DrainedMeansOutstanding | driver/LKM/src/memcache.c:317-327 | once the slots are empty, exactly the objects with callers are not yet discarded |
| MemcacheLife.Fini | driver/LKM/src/memcache.c:317-327 | memcache_fini, with no other thread taking a step and every push in flight published, leaves in the reference count exactly the number of objects with callers, and frees the pool at once if and only if there are none |
| MemcacheLife.LifeStepKeepsInv | driver/LKM/src/memcache.c:289-327 | pushes, pops, drops and the steps of fini keep the reference count equal to the objects not discarded plus what fini still owes |
| MemcacheLife.FreedExactlyOnce | driver/LKM/src/memcache.c:289-327 | in every interleaved run the pool is freed at most once, and it has been freed if and only if fini has finished and every object was drained or dropped |
| MemcacheRelease.FreedIsEmpty | driver/LKM/src/memcache.c:289-327 | once the pool is freed no object is with a caller or carried by a push: the pushes still in flight have all published |
| MemcacheRelease.StepsLeftAfterFree | driver/LKM/src/memcache.c:159-327 | once the pool is freed, the only steps possible are instructions of pushes and pops in flight and new calls of memcache_pop |
| MemcacheRelease.TouchedAfterFreeExactly | driver/LKM/src/memcache.c:159-327 | after any run, the slots can be touched once more after the step that frees them, no call beginning, if and only if a push or a pop is in flight at that step |
| MemcacheRelease.FreedUnderPush | driver/LKM/src/memcache.c:159-327 | every pool has a run from initialisation in which fini drains and frees it while a push that has published its object is about to read `tail` once more |
| Cpumask.NextBit | driver/LKM/src/memcache.c:247-264 | the first CPU of the mask after a given one, or the size of the mask if there is none |
| Cpumask.NextWrap | driver/LKM/src/trace.c:129-146 | the wrapping successor: without an end the cyclic successor, with an end the nearest CPU further on, and none exactly when the walk is complete |
| DelayedPut.ConservedStep | driver/LKM/src/smith_hook.c:187-238 | every step keeps each pool node and heap node in exactly one place: free, in the queue, or in one thread's hands |
| DelayedPut.OnceStep | driver/LKM/src/smith_hook.c:219-306 | every step keeps each put that was asked for either pending in one place or carried out once |
| DelayedPut.ActiveStep | driver/LKM/src/smith_hook.c:219-306 | every step keeps the active counter equal to the queued nodes plus those in hand |
| DelayedPut.FlagsStep | driver/LKM/src/smith_hook.c:187-213 | every step keeps the flag of each node in use telling whether it belongs to the pool |
| DelayedPut.StepKeepsInv | driver/LKM/src/smith_hook.c:187-306 | all of these together survive every step of every thread, memcache_fini included |
| DelayedPut.DoneOnce | driver/LKM/src/smith_hook.c:219-306 | in every reachable state a put has been carried out at most once, and only if asked for; until then it waits in exactly one place |
| DelayedPut.ActiveIsInUse | driver/LKM/src/smith_hook.c:219-306 | in every reachable state the active counter is the number of queued nodes and of nodes in hand |
| DelayedPut.ReleasedToOrigin | driver/LKM/src/smith_hook.c:202-213 | a released pool node goes to the pool and a released heap node is freed, never the other way round and never twice |
| DelayedPut.NothingOutstanding | driver/LKM/src/smith_hook.c:281-292 | with the queue empty and the threads idle every put has been done, the whole pool is free, no heap node is left and the counter is zero |
| DelayedPut.StopReleasesPool | driver/LKM/src/smith_hook.c:281-293 | at the end of stop the pool's reference count is the number of its nodes not free; it is zero if and only if all are free, as they are when the threads are idle |
| DelayedPut.SevenStepsEach | driver/LKM/src/smith_hook.c:187-306 | over every run the steps taken and those still to be taken, memcache_fini aside, are exactly seven for each put asked for |
| DelayedPut.NeverStuck | driver/LKM/src/smith_hook.c:187-306 | as long as anything is left to do some thread can take a step towards it |
| DelayedPut.NoWorkMeansDone | driver/LKM/src/smith_hook.c:219-306 | when nothing is left to do every put asked for has been carried out once |
| DelayedPut.PutCanHappen | driver/LKM/src/smith_hook.c:187-306 | whatever else is under way, an idle thread can have any new put carried out, with a node of the pool if it has one, and everything else is then as it was |
| DelayedPut.LastInFirstOut | driver/LKM/src/smith_hook.c:219-225 | the queue gives back first what was linked last |
| Varint.SovIsLength | agent/proto/grpc.pb.go:1758-1760 | for every value the bit-length formula is the number of bytes the varint writer emits |
| Varint.VarintBits | agent/proto/grpc.pb.go:1489-1499 | byte k of a varint holds the seven bits from bit 7k on, and all bytes but the last have the high bit set |
| Varint.EncodeVarint | agent/proto/grpc.pb.go:1489-1499 | the backwards writer ends exactly at the offset, starts at the offset minus the formula, and leaves the rest of the buffer alone |
| Varint.OrRound | agent/proto/grpc.pb.go:1770-1783 | one round of the reading loop, shifting and or-ing in a 32- or 64-bit word, keeps the truncated sum of the septets read |
| Varint.ReadVarint | agent/proto/grpc.pb.go:1770-1783 | the inlined reading loop computes the truncated septet sum, stops on overlong and cut varints, and never indexes outside the data |
| Varint.DecodeUndoesEncode | agent/proto/grpc.pb.go:1489-1499 | reading back any written uint64 into a 32- or 64-bit word gives it truncated, and stops right behind it |
| Varint.SignedUndoesUnsigned | agent/proto/grpc.pb.go:1108-1135 | every int32 and int64, negative ones too, survives the extension to uint64 and the truncation back |
| Wire.SizeIsLength | agent/proto/grpc.pb.go:1500-1721 | for every message Size() is the number of bytes Marshal emits, with nested messages and map entries |
| Wire.EncodeConcat | agent/proto/grpc.pb.go:986-1091 | encoding a concatenation of fields is the concatenation of the encodings |
| Wire.PutHeader | agent/proto/grpc.pb.go:1019-1032 | a tag and a varint are put just before what is already in the buffer |
| Wire.PutField | agent/proto/grpc.pb.go:986-1091 | one field, nested messages included, is emitted so that it ends just before what is already there |
| Wire.PutFields | agent/proto/grpc.pb.go:986-1091 | emitting the fields from the last to the first leaves their encoding in order, in exactly their size |
| Wire.MarshalToSizedBuffer | agent/proto/grpc.pb.go:986-1091 | the backwards writer ends exactly Size() bytes before the end, with fields and unknown bytes in wire order and nothing else touched |
| Wire.Marshal | agent/proto/grpc.pb.go:971-984 | a buffer of Size() bytes is filled exactly, from offset 0 |
| Skip.PassValue | agent/proto/grpc.pb.go:3371-3417 | the switch over the wire type passes one value, with its overflow tests, and reads only inside the data |
| Skip.SkipGrpc | agent/proto/grpc.pb.go:3350-3427 | the loop with its depth counter ends on every input, reads only inside the data and computes the token-by-token skip |
| Skip.FieldSkipped | agent/proto/grpc.pb.go:3350-3427 | any well-formed field, with groups nested to any depth, is passed exactly, at any depth of surrounding groups |
| Skip.OpenGroupsFound | agent/proto/grpc.pb.go:3350-3427 | whatever is skipped inside open groups closes exactly those groups, innermost first, with well-formed fields between |
| Skip.SkipExact | agent/proto/grpc.pb.go:3350-3427 | skipGrpc returns n within the data if and only if the first n bytes are one well-formed field |
| Unmarshal.Step | agent/proto/grpc.pb.go:1764-2174 | each round of the parser moves the index strictly forward and not beyond the data, also when a map entry resets it |
| Unmarshal.ReadEntry | agent/proto/grpc.pb.go:2479-2577 | the inner loop over a map entry computes the entry's key and value and reads only inside the data |
| Unmarshal.ReadField | agent/proto/grpc.pb.go:1764-2174 | one round of the generated loop, with all its error cases, is one step of the specification |
| Unmarshal.Unmarshal | agent/proto/grpc.pb.go:1764-2174 | on any bytes the parser ends, reads only inside them, and gives the message or error of the specification |
| Accepted.StepAgrees | agent/proto/grpc.pb.go:1764-2174 | a round of the parser on a well-formed field, however its tag and length are encoded, does what the field says, or fails if its number or wire type does not fit |
| Accepted.AcceptedExactly | agent/proto/grpc.pb.go:1764-3163 | for every message type, every start and every bytes: Unmarshal gives a result if and only if the bytes are well-formed fields, one after the other, that lead from the start to that result |
| Accepted.EntryExactly | agent/proto/grpc.pb.go:2479-2577 | a map entry is read as a key and a value if and only if keys and values of any wire type and other well-formed fields stand there, the last key and value being these; only a key or value may end behind the entry |
| RoundTrip.FieldStep | agent/proto/grpc.pb.go:1764-2174 | the parser takes an encoded field off the data as a whole and merges it into the message |
| RoundTrip.FieldsDecoded | agent/proto/grpc.pb.go:1764-2174 | any sequence of encoded fields is merged in order |
| RoundTrip.ForeignDecoded | agent/proto/grpc.pb.go:2153-2167 | well-formed fields the message does not know are kept byte for byte |
| RoundTrip.MessageDecoded | agent/proto/grpc.pb.go:986-2174 | parsing a marshalled message folds its fields in order and keeps its unknown bytes |
| Messages.EncodedRecordRoundTrip | agent/proto/grpc.pb.go:1108-1135 | Unmarshal undoes Marshal for every EncodedRecord |
| Messages.TaskRoundTrip | agent/proto/grpc.pb.go:1300-1336 | Unmarshal undoes Marshal for every Task |
| Messages.ConfigRoundTrip | agent/proto/grpc.pb.go:1353-1414 | Unmarshal undoes Marshal for every Config, repeated download addresses included |
| Messages.PayloadRoundTrip | agent/proto/grpc.pb.go:1201-1230 | Unmarshal undoes Marshal for every Payload under every iteration order of its map |
| Messages.RecordRoundTrip | agent/proto/grpc.pb.go:1152-1184 | Unmarshal undoes Marshal for every Record, its payload in any order |
| Messages.CommandRoundTrip | agent/proto/grpc.pb.go:1247-1283 | Unmarshal undoes Marshal for every Command, with its task and all its configs |
| Messages.PackagedDataRoundTrip | agent/proto/grpc.pb.go:986-1091 | Unmarshal undoes Marshal for every PackagedData, with all its records, address lists and unknown fields |
| Layout.EncodedRecordLaidOut | agent/proto/grpc.pb.go:1108-1135 | every EncodedRecord is written as its type behind 0x08, its time behind 0x10 and its data behind 0x1a, each absent when zero or empty, then the unknown bytes |
| Layout.TaskLaidOut | agent/proto/grpc.pb.go:1300-1336 | every Task is written as its type behind 0x08 and object name, data and token behind 0x12, 0x1a and 0x22, each absent when zero or empty, then the unknown bytes |
| Layout.ConfigLaidOut | agent/proto/grpc.pb.go:1353-1414 | every Config is written as name, type, version, sha256 and signature behind 0x0a, 0x12, 0x1a, 0x22 and 0x2a, each URL behind 0x32 and the detail behind 0x3a |
| Layout.PayloadLaidOut | agent/proto/grpc.pb.go:1201-1230 | every Payload is written as its entries in the order visited, each behind 0x0a with the key behind 0x0a and the value behind 0x12, empty ones too |
| Layout.RecordLaidOut | agent/proto/grpc.pb.go:1152-1184 | every Record is written as its type behind 0x08, its time behind 0x10 and its payload behind 0x1a |
| Layout.CommandLaidOut | agent/proto/grpc.pb.go:1247-1283 | every Command is written as its task behind 0x12 and each config behind 0x1a |
| Layout.PackagedDataLaidOut | agent/proto/grpc.pb.go:986-1091 | every PackagedData is written as its records behind 0x0a, the agent id behind 0x12, the four address lists behind 0x1a, 0x22, 0x2a and 0x32, texts behind 0x3a, 0x42, 0x4a and 0x52 and numbers behind 0x58 and 0x60 |
| Tags.EncodedRecordTags | agent/proto/grpc.pb.go:2175-2297 | wherever they stand, 0x08, 0x10 and 0x1a set type, time and data; the same number with another wire type is an error, and other fields are kept byte for byte |
| Tags.TaskTags | agent/proto/grpc.pb.go:2722-2887 | wherever they stand, 0x08, 0x12, 0x1a and 0x22 set type, object name, data and token; the same number with another wire type is an error, and other fields are kept byte for byte |
| Tags.ConfigTags | agent/proto/grpc.pb.go:2888-3162 | wherever they stand, 0x0a to 0x2a and 0x3a set the six texts and 0x32 appends a URL; the same number with another wire type is an error, and other fields are kept byte for byte |
| Tags.PayloadTags | agent/proto/grpc.pb.go:2423-2600 | wherever it stands, an entry behind 0x0a sets its key to its value; the same number with another wire type is an error, and other fields are kept byte for byte |
| Tags.RecordTags | agent/proto/grpc.pb.go:2298-2422 | wherever they stand, 0x08 and 0x10 set type and time, and 0x1a merges a payload into the one there is; the same number with another wire type is an error, and other fields are kept byte for byte |
| Tags.CommandTags | agent/proto/grpc.pb.go:2601-2721 | wherever they stand, 0x12 merges a task into the one there is and 0x1a appends a config; the same number with another wire type is an error, and other fields are kept byte for byte |
| Tags.PackagedDataFirstTags | agent/proto/grpc.pb.go:1764-2174 | wherever they stand, 0x0a appends a record, 0x12 sets the agent id and 0x1a, 0x22, 0x2a and 0x32 append to the four address lists |
| Tags.PackagedDataLastTags | agent/proto/grpc.pb.go:1764-2174 | wherever they stand, 0x3a to 0x60 set the four texts and two numbers; the same number with another wire type is an error, and other fields are kept byte for byte |
| Tags.BadTagRejected | agent/proto/grpc.pb.go:1764-1800 | every message refuses the end of a group that was not begun, and a field whose number, cut to an int32, is zero or negative |
| Reencode.SkippedIsForeign | agent/proto/grpc.pb.go:2153-2167 | the bytes kept for an unknown field are one well-formed field that the message does not know |
| Reencode.DecodeKeeps | agent/proto/grpc.pb.go:1764-2174 | what holds of a message's known part and is kept by merging fields holds of everything the parser returns, whose unknown bytes are well-formed |
| Reencode.PackagedDataReencoded | agent/proto/grpc.pb.go:1764-2174 | a PackagedData accepted from any bytes, not only marshalled ones, survives marshalling and parsing again |
| Reencode.CommandReencoded | agent/proto/grpc.pb.go:2601-2721 | a Command accepted from any bytes survives marshalling and parsing again |
| Reencode.RecordReencoded | agent/proto/grpc.pb.go:2298-2422 | a Record accepted from any bytes survives marshalling, in any order of its payload, and parsing again |
| Receive.Client.SendRecord | plugins/lib/go/client.go:20-35 | the plugin appends to the pipe the four length bytes and the marshalled record, and nothing else |
| Receive.LowestFirst | plugins/lib/go/client.go:24-27 | the four length bytes of a frame hold the length, lowest eight bits first |
| Receive.SeptetsFail | agent/plugin/protocol.go:14-32 | reading a varint fails as overlong if and only if ten bytes with the high bit set are there, and with the end of the pipe if and only if fewer are left and all have it set |
| Receive.Reader.NextVarint | agent/plugin/protocol.go:14-32 | the reader consumes one varint, or ten bytes of an overlong one, or the pipe to its end, and counts exactly the bytes it consumed |
| Receive.Reader.ReadFull | agent/plugin/plugin.go:123-126 | the bytes asked for or all there are, with no error, the end of the pipe, or an unexpected end if some but not all are there |
| Receive.Reader.ReceiveData | agent/plugin/plugin.go:74-131 | the partial decoder with its byte counting returns the pointer and the error that the frame specification gives, a record beside an error included, panics as it says, and leaves the pipe where it says |
| Receive.PanicsExactly | agent/plugin/plugin.go:108-123 | ReceiveData slices out of bounds if and only if the announced length ends behind the payload's tag but inside the varint that follows it |
| Receive.HeaderReceived | agent/plugin/plugin.go:74-108 | type and time on the wire are read back, and the header ends behind the tag that follows them |
| Receive.CompleteReceived | agent/plugin/plugin.go:74-131 | a frame with type, time and payload is received with exactly these and exactly 4 + l bytes consumed |
| Receive.NilDataNotReceived | agent/plugin/plugin.go:92-108 | a framed record without payload yields no record, whatever follows it |
| Receive.NilDataOvershoots | agent/plugin/plugin.go:102-131 | for a framed record with type and time but no payload ReceiveData returns nil and leaves the pipe one byte inside the next frame, or reports the end of the pipe if there is no such byte |
| Receive.NoTypeNotReceived | agent/plugin/plugin.go:85-100 | a framed record that has a payload and a nonzero time but whose type is zero is not received as sent |
| Receive.NoTimeNotReceived | agent/plugin/plugin.go:92-108 | a framed record that has a payload but whose time is zero is not received as sent |
| Receive.InStepExactly | agent/plugin/plugin.go:74-131 | the agent takes a framed record off the pipe as sent, and is left at the next frame, if and only if its type and time are nonzero and it has a payload |
| Forward.Forward | agent/plugin/plugin_linux.go:153-166 | the receiving loop hands to the ring, call by call, what the run specification says, stops when the pipe has ended and has then read all of it |
| Forward.NumberEnds | agent/plugin/protocol.go:14-32 | readVarint reads a number ending at an index if and only if the bytes up to it are one to ten of which the last alone has the high bit clear |
| Forward.NilExactly | agent/plugin/plugin_linux.go:154-165 | one call makes the loop hand nil to the ring if and only if the pipe ends inside the four length bytes, one of the three varints is overlong, or the announced length ends with or before the tag behind the second number |
| Forward.NilStopsAt | agent/plugin/plugin.go:102-131 | after nil for a frame that is too short the loop goes on behind the tag that follows the second number, wherever that is |
| Forward.PartExactly | agent/plugin/plugin_linux.go:154-165 | one call makes the loop hand over a record not wholly read if and only if the pipe ends inside its payload, behind the first byte |
| Forward.NilInRunExactly | agent/plugin/plugin_linux.go:153-166 | a whole run hands nil to the ring if and only if the bytes at the start of one of its calls are such |
| Forward.PartInRunExactly | agent/plugin/plugin_linux.go:153-166 | a whole run hands over a record not wholly read if and only if the bytes at the start of one of its calls are such |
| Forward.PartIsLast | agent/plugin/plugin_linux.go:153-166 | only the last record of a run can be one not wholly read, and no panic follows it |
| Forward.CutFrame | agent/plugin/plugin.go:74-131 | of a frame that the pipe cuts anywhere the loop hands over nil if one to three bytes are there, nothing if they end at or before the payload, and else the record with what there is of its payload |
| Forward.StreamForwarded | agent/plugin/plugin_linux.go:153-166 | for every sequence of complete records the loop hands over each as sent, in order, and goes on exactly behind the last frame, whatever follows |
| Forward.DeathForwarded | agent/plugin/plugin_linux.go:153-166 | when a plugin dies any number of bytes into a frame, the loop hands over all records before it as sent, then what it makes of the rest, and stops without a panic |
| Receive.SpliceBytes | agent/buffer/buffer.go:32-44 | the EncodedRecord built from a Record with a payload marshals to the Record's own bytes if and only if the payload is not empty |
| Receive.SpliceKeepsMeaning | agent/plugin/plugin.go:108-127 | a server that reads the spliced bytes as a Record gets the plugin's Record back |
| TraceReader.FindNextEntry | driver/LKM/src/trace.c:148-192 | the scan finds the first non-empty ring in cyclic order after the one read last, and none exactly when all are empty |
| TraceReader.PipeReader.ToUser | driver/LKM/src/trace.c:250-252 | what is left of the page is handed out in order, at most as much as asked for |
| TraceReader.PipeReader.Consume | driver/LKM/src/trace.c:216-234 | an entry is printed whole and consumed once |
| TraceReader.PipeReader.ServeNext | driver/LKM/src/trace.c:280-302 | one round of the loop appends the oldest entry of the nearest non-empty ring whole and consumes it, or leaves everything unchanged because there is none or it does not fit |
| TraceReader.PipeReader.FillPage | driver/LKM/src/trace.c:276-312 | a page is filled with whole entries, each taken from the nearest CPU that at that moment has entries left of those found at the start; filling stops as soon as, and only when, enough bytes are there, the rings are empty or the next entry does not fit |
| TraceReader.PipeReader.IsTraceEmpty | driver/LKM/src/trace.c:82-92 | the trace is reported empty if and only if every ring is |
| TraceReader.PipeReader.Read | driver/LKM/src/trace.c:236-334 | a read of any size first hands out what is left of the page, appends its bytes to those delivered, fills every page in turn out of what the pages before it left and no further than needed, consumes what it fills, and would block only when every ring is empty |
| TraceReader.PipeReader.Do | driver/LKM/src/trace.c:236-334 | a commit changes one ring and nothing else; a read fills pages in turn, no further than needed, hands out as much of the last as fits, and fills none only if something was left, nothing was asked for, recording is off or the rings are empty |
| TraceReader.PipeReader.Session | driver/LKM/src/trace.c:236-334 | over any sequence of commits and reads, what was handed out is a prefix of the text of the entries consumed, and on each CPU these are the oldest of those committed, in order |
| TraceReader.DeliveredIsPrefix | driver/LKM/src/trace.c:236-334 | in every state of a reader the bytes delivered are a prefix of the text of whole entries, and each CPU's consumed entries are its oldest ones, in order, none twice and none lost |
| TraceReader.NoStarvation | driver/LKM/src/trace.c:148-192 | between two entries of any CPU in a page, every CPU that still has entries is served |
| TraceReader.ReadIsFair | driver/LKM/src/trace.c:236-334 | the same of every page of every read, out of the rings the read found |
| TraceReader.ZeroComesLast | driver/LKM/src/trace.c:276-280 | every page starts behind CPU 0, so it reaches CPU 0 only after serving every other CPU that had entries |
| TraceReader.ZeroFirstExactly | driver/LKM/src/trace.c:276-302 | a page begins with CPU 0 if and only if no other CPU has entries |
| TraceReader.SmallReadPassesZero | driver/LKM/src/trace.c:276-334 | while another CPU has entries and each fills the buffer of a read, the read takes exactly one entry, the oldest of its CPU, and not one of CPU 0 |
| TraceReader.Starve | driver/LKM/src/trace.c:236-334 | for every n there is a session of n reads, each handing out a whole entry of another CPU, at whose end the entry CPU 0 committed before them all is still in its ring |
| Allowlist.Search | driver/LKM/src/filter.c:70-108 | the loop down the tree finds a node with the hash if and only if there is one |
| Allowlist.LinkKeepsOrder | driver/LKM/src/filter.c:115-134 | hanging a new node below the leaf where the search ends keeps the order and adds exactly that node |
| Allowlist.OneNodeEach | driver/LKM/src/filter.c:115-134 | an ordered tree has at most one node for a hash |
| Allowlist.CountIsHashes | driver/LKM/src/filter.c:174-182 | the number of nodes is the number of distinct hashes |
| Strings.Strim | driver/LKM/include/util.h:139-158 | smith_strim leaves in the buffer the trimmed form of the string it held, also when that is all spaces |
| Strings.TrimExact | driver/LKM/include/util.h:139-158 | of spaces around a text that neither begins nor ends with one, exactly the spaces are trimmed, a space being one of seven characters |
| Strings.TrimForm | driver/LKM/include/util.h:139-158 | every string is its trimmed form between spaces, and the trimmed form neither begins nor ends with one |
| Allowlist.ArgumentExactly | driver/LKM/src/filter.c:357-368 | the text a command is carried out with is the one it holds between flag, spaces and an optional zero with anything behind it, and no other |
| Allowlist.ToldExactly | driver/LKM/src/filter.c:333-418 | a hash was added and kept if and only if a command of 5 to 4090 bytes said to add a text of that hash when at most 128 were listed, and none since said to delete one or all |
| Allowlist.Filter.constructor | driver/LKM/src/filter.c:157-212 | both lists start empty and own nothing |
| Allowlist.Filter.AddTo | driver/LKM/src/filter.c:157-183 | success, exactly for a new hash with memory for the node, makes the list own the buffer and the node; otherwise nothing is kept |
| Allowlist.Filter.DeleteFrom | driver/LKM/src/filter.c:185-201 | exactly the node with that hash leaves the tree, and both its allocations are freed |
| Allowlist.Filter.Clear | driver/LKM/src/filter.c:136-149 | both allocations of every node are freed, each exactly once |
| Allowlist.Filter.Check | driver/LKM/src/filter.c:227-241 | the check succeeds if and only if the hash is listed and the text is not one of the exempt ones |
| Allowlist.Filter.Add | driver/LKM/src/filter.c:366-397 | after an add command the buffer belongs to a new node or is freed |
| Allowlist.Filter.Remove | driver/LKM/src/filter.c:185-212 | a delete takes away exactly the named hash, or all, and frees exactly what those nodes owned |
| Allowlist.Filter.Process | driver/LKM/src/filter.c:333-418 | any command has exactly its described effect on the two lists, keeps trees ordered, counters right and within the limit, and leaves every allocation freed or owned by one node; a check command y or z finds exactly a listed, not exempt text |
| Allowlist.Filter.ProcessAll | driver/LKM/src/filter.c:420-424 | after any sequence of commands from the start a hash is on a list if and only if some command put it there and none since took it off |
| Allowlist.Filter.CheckAfter | driver/LKM/src/filter.c:227-241 | after any sequence of commands a check of an executable succeeds if and only if the text is not empty, -1 or -2 and a command Y said to add a text of its hash and no F or w since said to delete it |
| Allowlist.Filter.CheckArgvAfter | driver/LKM/src/filter.c:317-331 | the same of a check of arguments, with the commands m, J and u |
| Allowlist.ListedExactly | driver/LKM/src/filter.c:333-418 | over every sequence of commands a hash is listed if and only if some command added it and none since removed it |
| Allowlist.NeverOverfull | driver/LKM/src/filter.c:347-355 | over every sequence of commands a list holds at most 129 hashes |
| Dns.GetDnsQuery | driver/LKM/src/smith_hook.c:2169-2191 | the loop writes exactly the decoded name into the first query_len - 1 bytes, touches nothing behind them, and reads the type right after the name |
| Dns.AnyNameDecoded | driver/LKM/src/smith_hook.c:2169-2191 | whatever the question holds, its labels, the last one possibly cut short, are written out with a dot between them |
| Dns.SplitUndoesName | driver/LKM/src/smith_hook.c:2169-2191 | splitting an encoded name gives back its labels, for every list of labels of 1 to 255 bytes |
| Dns.NameDecoded | driver/LKM/src/smith_hook.c:2169-2191 | decoding the encoded name of any list of non-empty labels yields the labels joined by dots, with unprintable bytes replaced |
| Dns.DecodedNamesDiffer | driver/LKM/src/smith_hook.c:2169-2191 | two names of printable, dot-free labels that decode alike are the same name |
| Dns.NameMeasured | driver/LKM/src/smith_hook.c:2206-2209 | the whole name is found if and only if no label holds a zero byte |
| Dns.ProcessDns | driver/LKM/src/smith_hook.c:2193-2234 | a message is reported if and only if it is an answer with a name of 1 to 253 bytes, room for type and class, and memory; the report holds its opcode, rcode, type and decoded name |
| Dns.AnswerReported | driver/LKM/src/smith_hook.c:2193-2234 | for every list of non-empty zero-free labels the report holds the labels joined by dots, a terminated buffer and the type |
| Dns.ReportedExactly | driver/LKM/src/smith_hook.c:2193-2234 | of a message of at least 20 bytes something is reported if and only if the response bit is set and the first zero behind the header stands 1 to 253 bytes behind it, with room for type and class |
| Dns.PlainNameReported | driver/LKM/src/smith_hook.c:2169-2234 | an answer for a name of printable ASCII labels is reported under that name, letter for letter with dots between the labels |
| Dns.ShownExactly | driver/LKM/src/smith_hook.c:2169-2191 | control characters, of ASCII and of Latin-1, are shown as a hash sign and every other byte as it is |
| Dns.Terminated | driver/LKM/src/smith_hook.c:2169-2191 | a decoded name holds no zero byte, so the string ends at the buffer's terminator |
| RecordBuffer.GetClass | agent/buffer/pool.go:41-50 | a size of up to 4096 lies in the range of its class; smaller sizes get the first and larger ones the last class |
| RecordBuffer.PutClass | agent/buffer/pool.go:52-63 | a capacity above 4096 is not pooled, any other goes to the class it would be taken from |
| RecordBuffer.TakenFits | agent/buffer/pool.go:37-50 | a record taken from a pool misses the wanted size by less than one unit either way |
| RecordBuffer.HoldersStep | agent/buffer/buffer.go:19-64 | every step keeps every record with a holder, but for the one it drops and the one it makes: a record is dropped only if it is abandoned, collected, exchanged out of a full ring, or put back with a capacity above 4096 |
| RecordBuffer.Ring.WriteEncodedRecord | agent/buffer/buffer.go:19-31 | a record joins the end of the ring, or is refused exactly when the ring is full |
| RecordBuffer.Ring.WriteRecord | agent/buffer/buffer.go:45-54 | a record joins the end of the ring, or replaces the first one of a full ring |
| RecordBuffer.Ring.ReadEncodedRecords | agent/buffer/buffer.go:57-64 | a read returns the ring's records in order and leaves the ring empty |
| RecordBuffer.OwnedStep | agent/buffer/buffer.go:19-64 | no step of any writer, of the sender or of a pool gives a record to a second holder |
| RecordBuffer.ClassedStep | agent/buffer/pool.go:41-63 | every step keeps each pooled record in the class of its capacity |
| RecordBuffer.FaithfulStep | agent/buffer/buffer.go:19-64 | no step changes the value of a record that is queued or being sent, although records are recycled |
| RecordBuffer.InOrderStep | agent/buffer/buffer.go:19-64 | every step keeps the ring, the sender's batch and what was sent in order of writing, up to the first record of a full ring |
| RecordBuffer.AccountedStep | agent/buffer/buffer.go:19-64 | every step keeps the lost writes exactly those that are neither queued, nor being sent, nor sent |
| RecordBuffer.StepKeepsInv | agent/buffer/buffer.go:19-64 | all of these together survive every step |
| RecordBuffer.OnePlaceEach | agent/buffer/pool.go:41-63 | in every reachable state a record is in at most one of the pools, a writer's hands, the ring and the sender's batch, and there once |
| RecordBuffer.PooledByCapacity | agent/buffer/pool.go:52-63 | in every reachable state a pooled record's capacity lies in its size class |
| RecordBuffer.SentAsWritten | agent/transport/transfer.go:102-123 | in every reachable state each value handed to the stream is the value written by the write it stands for |
| RecordBuffer.SentInOrderOnce | agent/transport/transfer.go:102-123 | no write is handed over twice, and writes are handed over in order, except for the first record of a full batch |
| RecordBuffer.LostOnlyWhenFull | agent/buffer/buffer.go:24-53 | in every reachable state each write is in exactly one of four places, queued, being sent, sent or lost, and a step loses a write only when the ring is full |
| Recycling.PutIsRecycled | agent/buffer/pool.go:41-63 | a record of at most 4096 bytes that the sender puts back, or a writer that found the ring full, is in the pool of its class, once, its buffer empty, and a writer asking for a size of that class can have it |
| Recycling.TakenFromPool | agent/buffer/pool.go:41-50 | a pooled record that a writer gets is with that writer and in no pool |
| Recycling.MadeFits | agent/buffer/pool.go:9-50 | a record made for a size of up to 4096 holds it, and unless filled with more goes back to the class that size is taken from |
| Recycling.LeavesOnlyWhenDropped | agent/buffer/pool.go:41-63 | in every reachable state a step leaves a record without a holder if and only if it drops it |
| Recycling.HeldExactly | agent/buffer/pool.go:41-63 | after any run a record has a holder if and only if it was there or was made and no step has dropped it |
| Recycling.NothingLeaks | agent/buffer/pool.go:41-63 | after any run from the start a record has exactly one holder if it was made and never dropped, and none otherwise |
| Recycling.RoundSendsAll | agent/transport/transfer.go:102-123 | a round of the sender hands over everything in the ring, in order and as it was written, and leaves the ring empty |
| Recycling.RoundEnds | agent/transport/transfer.go:102-123 | putting back a batch takes one step for each record and leaves nothing in the sender's hands |
| Recycling.FilledIsWritten | agent/buffer/buffer.go:19-54 | whatever happens in between, a writer that fills a record and then writes it has written what it filled in |
| Plugins.RegisteredStep | agent/plugin/plugin_linux.go:46-62 | every step keeps each live process registered under its name, but for the one just started, whose predecessor has exited |
| Plugins.ReconcilingStep | agent/plugin/plugin.go:197-227 | every step of a sync keeps what it has dealt with registered at the configured version, unless its Load failed |
| Plugins.MarkedStep | agent/plugin/plugin_linux.go:26-45 | every step keeps a running plugin from having been told to stop unless the daemon waits for its exit |
| Plugins.StepKeepsInv | agent/plugin/plugin.go:172-229 | all of these survive every step of the daemon and every exit of a process at any moment |
| Plugins.OneLiveEach | agent/plugin/plugin_linux.go:114-149 | in every reachable state at most one live process exists for a plugin name |
| Plugins.LiveIsRegistered | agent/plugin/plugin_linux.go:114-197 | in every reachable state a live process is registered, unless Load has started it and not stored it yet |
| Plugins.SyncReconciles | agent/plugin/plugin.go:197-227 | when any sync ends, only configured names are registered, and each of them whose Load did not fail is registered at the configured version |
| Plugins.SyncSettles | agent/plugin/plugin.go:197-227 | if no Load failed and all plugins run when a sync ends, the state is one that an identical sync leaves alone |
| Plugins.SameSyncChangesNothing | agent/plugin/plugin.go:197-227 | while all plugins run, any number of identical syncs starts, stops and registers nothing |
| Plugins.NeverStuck | agent/plugin/plugin_linux.go:26-45 | the daemon is idle or stopped, or can take a step, or waits for the exit of a plugin it has told to stop |
| PluginRuns.FailsExactly | agent/plugin/plugin_linux.go:46-62 | over every sync the Load of a configured plugin fails if and only if its name is empty or holds a character other than an ASCII letter, digit, underscore or dash, or its start fails |
| PluginRuns.SyncOfValidNames | agent/plugin/plugin.go:197-227 | a sync of valid names in which no start fails ends with exactly the configured plugins registered, at the configured versions |
| PluginRuns.SyncRestarts | agent/plugin/plugin_linux.go:46-62 | such a sync restarts what had exited, and ends settled if none of the registered processes exits during it |
| PluginRuns.LiveExactly | agent/plugin/plugin_linux.go:114-149 | over every run a process is live if and only if it was before or was started, and has not exited |
| PluginRuns.SyncIsPossible | agent/plugin/plugin.go:172-229 | an idle daemon can be given any configuration, and there is a whole sync of it in which no start fails |
| PluginRuns.SyncEnds | agent/plugin/plugin.go:197-227 | every sync ends after at most six steps of the daemon for each configured plugin, two for each registered one and two more |
| PluginRuns.CancelStops | agent/plugin/plugin.go:177-195 | once the agent is stopping no plugin is started or synced and every running one has been told to stop; when it is done none runs and none is registered |
| PluginRuns.ToldOnlyToStop | agent/plugin/plugin_linux.go:26-45 | in every reachable state a running plugin has been told to stop only if the daemon waits for its exit |
| Collector.Cache.Get | plugins/collector/engine/engine.go:42-47 | a lookup finds what is stored under a data type and a key, and nothing for a missing data type or key |
| Collector.Cache.Put | plugins/collector/engine/engine.go:48-52 | after a put a lookup finds the value under its key and what it found before under any other |
| Collector.Cache.Clear | plugins/collector/engine/engine.go:53-57 | after a clear a lookup finds nothing of that data type and what it found before of any other |
| Collector.AddHandlers | plugins/collector/engine/engine.go:102-110 | exactly the data types added have a channel, each with one token in it |
| Collector.OneTokenStep | plugins/collector/engine/engine.go:72-90 | every step of every concurrent call keeps each handler's token in its channel or with one call |
| Collector.ClearCached | plugins/collector/engine/engine.go:81-81 | starting a run makes the cache of its data type that run's own, and no other run of it is under way |
| Collector.PutCached | plugins/collector/engine/engine.go:48-52 | a put of a run meets its map and keeps every cache equal to its latest run's puts |
| Collector.StepKeepsInv | plugins/collector/engine/engine.go:72-90 | the token and cache invariants survive every step of any number of calls |
| Collector.TokenIsSomewhere | plugins/collector/engine/engine.go:72-90 | in every reachable state a handler's token is in the channel or with exactly one call |
| Collector.RunsNeverOverlap | plugins/collector/engine/engine.go:75-82 | in every reachable state at most one call of a handler is running |
| Collector.NeverStuck | plugins/collector/engine/engine.go:83-89 | returning the token never blocks, and while a call has not returned some call of its handler can move |
| Collector.NeverPanics | plugins/collector/engine/engine.go:48-57 | in every reachable state no put has met a missing map, and a running call's map is there |
| Collector.CacheIsLatestRun | plugins/collector/engine/engine.go:48-82 | in every reachable state the cache of a data type holds exactly what the latest run of its handler has put |
| Collector.GetIsLatestRun | plugins/collector/engine/engine.go:42-47 | in every reachable state a lookup returns what the latest run of that data type put last under the key |
| CollectorRuns.ToldBySteps | plugins/collector/engine/engine.go:42-90 | after any run the calls and what the log says of their runs are what the steps of the run say |
| CollectorRuns.CacheIsLastRun | plugins/collector/engine/engine.go:48-82 | after any run the cache of a data type holds exactly what the handler that was the last to clear it has put since |
| CollectorRuns.PutIsFound | plugins/collector/engine/engine.go:42-52 | a running handler can put anything; a lookup then finds it, and elsewhere what it found before |
| CollectorRuns.CallEnds | plugins/collector/engine/engine.go:72-90 | in any run a call takes at most four steps besides its puts, and one that has taken four has returned |
| CollectorRuns.RanOrYielded | plugins/collector/engine/engine.go:72-90 | after any run a call that has returned has cleared the cache and run its handler, or another call of that handler had the token when it selected |
| CollectorRuns.AloneRuns | plugins/collector/engine/engine.go:72-90 | a call that enters when every call of its handler has returned, and returns before another enters, has run the handler, and the cache holds exactly what the handler put |

## Left out

- Weak memory: the pool's steps are sequentially consistent; the barriers in `driver/LKM/src/memcache.c` are not modelled.
- MemcacheLife.Pop: is stated with no other thread running; what holds of a pop under interference is stated by the machine's own theorems.
- MemcacheLife.Fini: is stated with no other thread taking a step; `MemcacheLife.FreedExactlyOnce` and `MemcacheRelease.TouchedAfterFreeExactly` cover fini interleaved with everything else.
- MemcacheRelease: fini may end at any moment of its draining, and the memory of the slots is not taken away when they are freed; the theorems say which steps would find it gone.
- MemcachePool.Init: the caller's preallocated buffers, the release of partly built slots and NUMA placement are not modelled.
- Cpumask.NextWrap: says nothing about walks that start in the middle without the wrap flag, which no caller makes.
- DelayedPut: the pool is the set of its free nodes, as the pool's own theorems justify, and the queue a sequence of nodes; the worker's timeouts are not modelled.
- FileUploadRequest, FileUploadResponse, getters, descriptors and gRPC stubs in `agent/proto/grpc.pb.go`: they would only add members of the same shape.
- Nil and empty: a nil slice or map and an empty one are the same value in the model; a nil message is an absent one.
- Integers: Go's int is 64 bits, and slices are shorter than 2^63.
- Receive.Reader.ReceiveData: of a record not wholly read, the bytes behind those read are what the recycled buffer held and are not modelled; the position after a panic is not stated.
- Receive: the pipe is the sequence of bytes written until it ends; a record larger than the reader's buffer is read in one piece.
- Forward: a pipe closed by the agent itself, whose errors stop the loop like its end, and the error for a full buffer, which no call used here returns, are not modelled.
- TraceReader.PipeReader.Read: is the non-blocking read; waiting, signals and seeking are not modelled, and entries committed during a read count as committed after it.
- TraceReader.PipeReader.Commit: takes entries that fit one page, and rings are queues that never overwrite what was not consumed.
- Strings.Strim: is `smith_strim`; the kernel's own `strim`, which gives a pointer into the buffer instead of moving the text, is taken to trim the same string.
- Allowlist.Filter.Process: commands run one after another, so races between two writers of the device and the lock that `execve_argv_check` takes are not modelled.
- Allowlist: red-black rebalancing is any function that keeps the order and the contents; the tree is a value, not linked nodes, and printing the lists is left out.
- Dns: the traffic threshold, the copy from user memory and the transport of the report are left out.
- RecordBuffer: the transmission hook is absent, there is one sender, and records are neither nil nor partly read; `Forward.NilExactly` and `Forward.PartExactly` say for which bytes of the pipe the receiving loop hands such a one to the ring. A nil record is dereferenced when it is put back.
- Plugins: download, signature, directory and start failures are one outcome of starting; a rejected path, for which Load returns neither a plugin nor an error, counts as such a failure.
- Plugins.SyncReconciles: says nothing of the names whose own Load failed, which can be left registered with an exited older version.
- Collector: handlers are added before the first call, as `plugins/collector/main.go` does, and a run puts only under its own data type, as every handler in the repository does; scheduling is left out.
- Update in place: the states of the pool, delayed-put, plugin, collector and record-ownership machines are values that a step maps to the next; the ring, cache, allowlists, pipe readers and byte buffers are objects and arrays changed in place.
- Kernel hooks, event tables, the other collectors, RASP, the scanner, the driver and baseline plugins, the server and the transport: input and output, or single-branch code.
