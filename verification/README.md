# A verified model of Instrew

Instrew translates guest programs at run time with two processes. The server lifts guest code, rewrites its
calling convention, optimises it and keeps the results in a cache on disk. The client owns the guest's memory,
asks the server for translations, links them in and dispatches between them. This project models the parts
whose correctness does not depend on LLVM or the kernel, and proves what they promise.

| modules | what they model |
|---|---|
| `CallConvIr`, `CallConvPass`, `CallConvRewrite`, `CallConvProof`, `CallConvPaths` | the rewrite that moves the guest register file from memory into arguments and results, on a small SSA language with its own semantics |
| `Arena`, `Arith` | the client's allocator: a lock-free bump pointer and a spin-locked high-water mark, for any number of threads |
| `DiskCache` | publication of an object in the cache directory by any number of processes |
| `Protocol`, `ProtocolLockstep`, `ProtocolRuns`, `ProtocolProgress`, `ProtocolValues`, `Bytes` | the conversation between client and server, with buffering, pushback, nested memory requests and forks |
| `HashTable`, `TableReaders`, `ObjectLoad`, `QuickTlb` | the translation table, its lock-free readers, the registration of an object's functions, and the cache in front of it |
| `Reloc`, `RelocPairs`, `Patch`, `Layout` | the runtime linker: relocation fields, address pairs, lazily patched call sites, section layout |
| `FloatRound` | floor, ceil, round and trunc on bit patterns, for every binary format |
| `RemoteMemory`, `HashKey`, `Octal` | the server's page cache, the cache key, and octal symbol names |
| `Common` | the option type, 2^64, and what it means for a map to extend another |

Code that updates state step by step is modelled by methods with loops or by classes; code that several threads
or processes run at once is modelled by a step function over a whole state and by runs over arbitrary schedules.
Pure arithmetic is modelled by functions. In every case the methods are tied to specification functions or
relations, and the lemmas are about those.

Where code and comments disagree, the model follows the code. Observations that the proofs made exact:

- A RISC-V call relocation is not range-checked. The two instructions reach their target exactly for offsets from
  -2^31 - 0x800 up to, but not including, 2^31 - 0x800 (`Reloc.CallReaches`).
- Every range check, signed or unsigned, refuses the largest value that fits. What is accepted is stated exactly,
  width by width (`Reloc.BranchAccepted`, `Reloc.JalAccepted`, `Reloc.JumpAccepted`, `Reloc.AdrpAccepted`,
  `Reloc.Signed32Accepted`, `Reloc.Unsigned32Accepted`).
- An upper half whose symbol has no translation yet gets one stub, and its lower half another (`RelocPairs.OwnStubs`).
  The pair then leads to the first stub if and only if that is in range and both offsets agree in their low twelve
  bits (`RelocPairs.LazyPairInCode`). Stubs 0x40 apart already miss (`RelocPairs.LazyPairFails`).
- A temporary cache file is opened without truncation. Without failed writes and renames, every run publishes exactly
  one writer's buffer if and only if all writers of the hash bring buffers of one length and no leftover file is longer
  (`DiskCache.ExactOverall`). If no process dies either, the leftover alone decides (`DiskCache.ExactWithoutDeaths`).
- A failed write or rename that removes the temporary name while another process has the file open and unlocked can
  lead to a partial object under the final name, for all buffers that are not empty (`DiskCache.FailureLeaks`). Just
  that situation is to blame (`DiskCache.CleanUpExactly`), and only failed writes and renames lead to it
  (`DiskCache.WholeExactly`).
- Client and server stay in step in every run if and only if the server mode in the client's configuration is zero
  and no object is larger than 2^31 - 1 bytes (`ProtocolRuns.LockstepExactlyInModeZero`). In mode zero, what a server
  decides on can reach its client if and only if it is not larger (`ProtocolProgress.ArrivesExactly`).
- Sections are laid out disjointly and inside the allocation if and only if every allocated section with alignment
  zero comes before anything that takes room (`Layout.PlacedExactly`). A PROGBITS section that is not allocated is
  copied to whatever address its header holds; a loaded section survives the copy for all contents if and only if no
  such section behind it touches it (`Layout.IntactExactly`).
- An object whose symbol decodes to address zero is reported but loaded with a success code (`QuickTlb.AddObject`).

## Model

| member | source | states |
|---|---|---|
| `CallConvRewrite.FoldLoads` | server/callconv.cc:200-230 | The loads removed after one producer are exactly those that see its values, with nothing in between that may write the field |
| `CallConvRewrite.FoldBlockLoads` | server/callconv.cc:796-865 | Over a whole block, a load is removed if and only if an entry argument or call result reaches it |
| `CallConvRewrite.FoldStores` | server/callconv.cc:251-304 | Walking back from a call or return finds for each field the last store that reaches it, and removes exactly the stores into it |
| `CallConvRewrite.FoldBlockStores` | server/callconv.cc:867-886 | Over a whole block, a store is removed if and only if it reaches some call or return |
| `CallConvRewrite.FindEscape` | server/callconv.cc:796-865 | Whether the block still reads the register file or hands it out after folding |
| `CallConvRewrite.WireOne` | server/callconv.cc:918-948 | Completing one PHI gives it one incoming value per predecessor edge and queues every PHI it forwards exactly once |
| `CallConvRewrite.WirePhis` | server/callconv.cc:888-948 | The worklist terminates on every control-flow graph with every needed PHI present and each holding exactly one value per edge |
| `CallConvRewrite.UpdateSite` | server/callconv.cc:306-403 | The arguments of a call or return: folded store, reload, PHI or entry argument, field by field |
| `CallConvRewrite.CreateStores` | server/callconv.cc:232-248 | In the escaping outcome, each field of a producer is stored back once and in order |
| `CallConvRewrite.ScanBlock` | server/callconv.cc:796-886 | One block's folded loads and stores, and whether anything left over needs the register file in memory |
| `CallConvRewrite.ChangeCallConv` | server/callconv.cc:791-959 | For every lifted function, machine, entry state and number of steps, the result has made the same calls with the same field values and leaves with the same values and other memory |
| `CallConvProof.MeaningPreserved` | server/callconv.cc:200-403 | Original and rewritten function agree at every moment of every run, whether the register file escapes or not |
| `CallConvProof.SimBlock` | server/callconv.cc:251-403 | One block of the rewritten function simulates one block of the original, along every edge and at every exit |
| `CallConvProof.SimCall` | server/callconv.cc:306-403 | A rewritten call passes the fields the original left in memory and re-establishes the relation after it |
| `CallConvProof.SymbolPassesPc` | server/callconv.cc:87-107 | A call to a constant guest address through a symbol passes the same program counter as through the dispatcher |
| `CallConvPaths.MemoryIsLastProduced` | server/callconv.cc:888-916 | Without escape, on every path into a block the fields in memory are those the last producer on that path left |
| `CallConvPaths.WiredValues` | server/callconv.cc:888-949 | On every path, each wired PHI, or entry argument if there are no calls, holds the value left by the last producer |
| `Arena.RunInv` | client/memory.c:54-107 | The whole invariant holds after every interleaving of any number of threads, spurious failures of the compare-and-swap included |
| `Arena.ResultsDisjoint` | client/memory.c:82-107 | Any two regions ever returned are disjoint |
| `Arena.ResultsUsable` | client/memory.c:82-107 | A returned region is aligned to at least 0x40 and what was asked, inside the arena, below the high-water mark and accessible |
| `Arena.HighWaterMark` | client/memory.c:54-80 | The high-water mark is page-aligned, never beyond the end, and everything below it has been made accessible |
| `Arena.MutualExclusion` | client/memory.c:54-80 | At most one thread is in the extension section, and the lock is held if and only if one is |
| `Arena.Monotone` | client/memory.c:82-107 | Neither pointer ever moves back over any continuation of a run |
| `Arena.FailureReason` | client/memory.c:82-107 | A call fails only for an alignment that is no power of two or a request that does not fit at that moment |
| `Arena.CallEnds` | client/memory.c:54-107 | From every moment of every run, every call can be brought to its end by steps of its thread, after those of the thread that holds the lock if another does, with the address or error due to it |
| `Arena.AllocReturns` | client/memory.c:82-107 | Whatever has happened before, a whole call can be carried through: it returns the first suitably aligned address at or behind the bump pointer if the request fits there, -ENOMEM if not, and -EINVAL for an alignment that is no power of two |
| `DiskCache.RunInv` | server/cache.cc:103-162 | The whole invariant holds for any number of processes, deaths at any point, any leftover temporary file, and failed writes and renames whose clean-up happens under nobody else |
| `DiskCache.PublishedOnce` | server/cache.cc:121-162 | The final name is published at most once, and the file starts with one writer's whole buffer |
| `DiskCache.NeverModified` | server/cache.cc:121-162 | A published file never changes and its name never moves |
| `DiskCache.ReaderSeesWhole` | server/cache.cc:103-119 | A reader gets the published size and bytes, never part of an object |
| `DiskCache.ReaderServed` | server/cache.cc:103-119 | After every run, steps of a process that looks for a published object alone give it the size and all the bytes, in chunks of any size |
| `DiskCache.MissedExactly` | server/cache.cc:103-119 | It misses if and only if the final name does not exist at that moment |
| `DiskCache.PutEnds` | server/cache.cc:121-162 | After every run without an accident, a process that puts an object and is not disturbed leaves all as it is if another holds the lock, removes the temporary name if the object is there, and publishes its buffer over the temporary file otherwise |
| `DiskCache.ExactWithoutDeaths` | server/cache.cc:121-162 | Without failed write, failed rename or death, the published file is the renaming writer's buffer over the leftover, and exactly that buffer if and only if the leftover is no longer |
| `DiskCache.ExactWithDeaths` | server/cache.cc:121-162 | With deaths at any point, and failed writes and renames cleaned up under nobody else, the published file is exactly the renaming writer's buffer, if buffers have one length and no leftover is longer |
| `DiskCache.LoneWriter` | server/cache.cc:121-162 | For every leftover and every buffer, a writer that runs alone publishes its buffer with the leftover's tail |
| `DiskCache.AfterDeath` | server/cache.cc:121-162 | The same over what another writer left when it died, for all buffers |
| `DiskCache.ExactExactly` | server/cache.cc:121-162 | Every run of that kind publishes exactly one writer's buffer if and only if buffers have one length and no leftover is longer |
| `DiskCache.ExactOverall` | server/cache.cc:121-162 | Over all runs with the given kinds of failure, exactly if in addition neither writes nor renames fail |
| `DiskCache.FailureLeaks` | server/cache.cc:146-155 | For all buffers that are not empty and any leftover, some run whose only failure is one write puts a partial object under the final name, and so does some run whose only failure is one rename |
| `DiskCache.CleanUpExactly` | server/cache.cc:146-155 | After a run without a clean-up under someone else, removing the name after a failed write or rename is harmless in every continuation without another such clean-up if and only if no other process has that file open without having tried its lock |
| `DiskCache.WholeExactly` | server/cache.cc:121-162 | Every run, with failed writes and failed renames as allowed, keeps the final name on a whole object if and only if neither is allowed |
| `ProtocolLockstep.SessionKeeps` | server/connection.cc:311-409 | Every step of client, server or stdio keeps the two in one of the listed relative positions |
| `ProtocolLockstep.PayloadKeeps` | client/translator.c:99-173 | Whatever payload the client reads is the one its position calls for, and its answer follows |
| `ProtocolLockstep.OutputToks` | server/connection.cc:101-155 | Buffering, flushing and sending around the buffer never reorder or lose anything |
| `ProtocolLockstep.FlagReadKeeps` | server/connection.cc:233-254 | The server ends a memory request with the guest's page, or knowing that there is none |
| `ProtocolRuns.RunInv` | server/connection.cc:327-409 | All sessions stay in step over every run, forks included, and descriptors under way lead to distinct waiting servers |
| `ProtocolRuns.NeverOutOfStep` | client/translator.c:19-40 | With mode zero and objects that a header can announce, no run reaches a protocol error in a client or a failed assertion in a server |
| `ProtocolRuns.HeadersTellSizes` | server/connection.cc:80-123 | Whatever is under way, every header announces exactly the bytes that follow it |
| `ProtocolRuns.NothingBufferedAtFork` | server/connection.cc:373-395 | When C_FORK is handled, the request is all there is: sockets, pushback and stdio buffers are empty |
| `ProtocolRuns.ObjectDelivered` | client/translator.c:99-123 | The object a client takes over is the one its server sent last, byte for byte |
| `ProtocolRuns.PageDelivered` | server/connection.cc:233-254 | The page a server gets is the guest's page at the address it asked for |
| `ProtocolRuns.ForkDelivers` | client/translator.c:175-208 | A client that reads a zero reply receives a quiet new server that nobody else has |
| `ProtocolProgress.NoDeadlock` | client/translator.c:125-173 | A client that waits is never stuck: some step of its session is possible |
| `ProtocolProgress.AnswerArrives` | client/translator.c:99-173 | From every moment of every run, steps of its own session alone bring a waiting client to the end of its call, with the object its server has sent, or with whatever object the server decides on if it has not |
| `ProtocolProgress.ArrivesExactly` | server/connection.cc:101-106 | At every moment of every run, what a server at work decides on, fresh or cached, can reach its client if and only if it has at most INT32_MAX bytes; a larger one reaches it in no continuation |
| `ProtocolProgress.PageArrives` | server/connection.cc:233-254 | A server at work can ask for any page at any moment of any run, and steps of its session alone bring it what the guest has there |
| `ProtocolValues.RunTold` | server/connection.cc:327-409 | Over every run, forks included, both processes of every session know what the other has told them |
| `ProtocolValues.AddressDelivered` | server/connection.cc:352-354 | From a request for an address until the client's next request, the server works on, asks memory for and answers that address as a 64-bit word, and the object of the returned call is the one sent for it |
| `ProtocolValues.ConfigsDelivered` | server/connection.cc:327-338 | Both configurations arrive byte for byte, in every process that has one |
| `ProtocolValues.ForkReported` | client/translator.c:175-208 | Until its next request, a client that has read the reply to a fork request knows the error code, or zero for a new server |
| `ProtocolValues.RequestStarts` | client/translator.c:125-135 | A client that is free can make any request, whose bytes are then under way |
| `ProtocolRuns.OtherModeFails` | server/connection.cc:311-338 | With any other server mode there is a run in which the client meets a protocol error |
| `ProtocolRuns.LargeFails` | server/connection.cc:101-106 | With objects of any size there is a run in which the server fails that assertion |
| `ProtocolRuns.LockstepExactlyInModeZero` | server/connection.cc:327-338 | Some run goes out of step if and only if the server mode is not zero or objects may be larger than INT32_MAX |
| `HashTable.Table.Set` | client/rtld.c:754-779 | Insertion as a map operation: refused for zero, for a present key, and if and only if the table is full for an absent one |
| `HashTable.Table.Resolve` | client/rtld.c:1031-1048 | Lookup succeeds exactly for inserted keys and gives the inserted entry |
| `HashTable.FillKeepsPlaced` | client/rtld.c:754-779 | Filling the first free slot keeps every address where its own probe finds it |
| `HashTable.KeysCounted` | client/rtld.c:754-779 | The number of keys is that of taken slots, so full means as many keys as slots |
| `HashTable.FirstInsertionWins` | client/rtld.c:754-779 | After any history, an address is bound to the object of its first insertion |
| `HashTable.NeverChanges` | client/rtld.c:754-779 | No later insertion changes what an address is bound to |
| `TableReaders.RunInv` | client/rtld.c:754-779 | The invariant of one writer and any number of readers holds after every interleaving of single loads and stores |
| `TableReaders.ReadersSeePublished` | client/rtld.c:1031-1048 | A reader only returns the entry of a fully published object |
| `TableReaders.ReadersFindFinished` | client/rtld.c:1031-1048 | A reader finds every key whose insertion finished before its lookup began |
| `TableReaders.PublishedForGood` | client/rtld.c:754-779 | Published objects never change or go away |
| `TableReaders.WriterReports` | client/rtld.c:754-779 | The writer's status and effect are those of the map operation, whatever the readers do |
| `TableReaders.WriterFinishes` | client/rtld.c:754-779 | From every moment of every run, steps of the writer alone finish the insertion with the effect and status of the map operation |
| `TableReaders.ReaderFinishes` | client/rtld.c:1031-1048 | From every moment of every run, steps of a reader alone finish its lookup, with the entry if and only if the address is published |
| `QuickTlb.MaskIsByteOffset` | client/dispatch.c:268-271 | The masked address is sixteen times the index of the entry, for every 64-bit address |
| `QuickTlb.Cpu.ResolveFunc` | client/dispatch.c:130-188 | Resolving gives the right function, exits if and only if there is none, keeps every cache entry in agreement with the table, and enters the address in the cache unless tracing |
| `QuickTlb.Cpu.Dispatch` | client/dispatch.c:193-206 | Going through the cache gives the right function for every nonzero address and leaves it in the cache; what it gives for zero is stated exactly |
| `QuickTlb.AddObject` | client/rtld.c:961-1001 | Registering an object's functions one by one, up to the first that is refused |
| `ObjectLoad.LoadedExactly` | client/rtld.c:961-1001 | For every table and list of symbols: as many are bound as can be, each to its own object and nothing else, and loading succeeds if and only if that is all of them or the next name decodes to zero |
| `ObjectLoad.ResolvedRight` | client/dispatch.c:130-188 | Resolving gives the function that is bound to the address, else that of the symbol the object provides for it, and exits if and only if there is neither |
| `ObjectLoad.CleanObject` | client/dispatch.c:153-158 | An object with different new functions, for which there is room, binds just these, and resolving gives the one for the address |
| `QuickTlb.DispatchOne` | client/dispatch.c:130-206 | One dispatch through one of any number of caches in front of a table gives what the plain map gives and keeps all of them in agreement; in the source a table has one cache |
| `QuickTlb.DispatchAll` | client/dispatch.c:130-206 | For every sequence of dispatches, through one cache as in the source or through several, each outcome is the right one for the table at that moment, the run ends early only at the exit of the process, and a resolved address gives the same function in every later dispatch |
| `QuickTlb.ResolvedOnce` | client/dispatch.c:130-206 | Outcomes that are the plain map's, over any run, never change the function of an address |
| `Reloc.BlendAtAnyWidth` | client/rtld.c:51-61 | Whatever the access width, exactly the bits under the mask change |
| `Reloc.OutsideKept` | client/rtld.c:51-61 | Every bit outside a relocation's field stays |
| `Reloc.BranchReaches` | client/rtld.c:512-521 | A RISC-V branch decodes to the accepted offset if and only if it is even |
| `Reloc.JalReaches` | client/rtld.c:522-531 | The same for jal |
| `Reloc.CallReaches` | client/rtld.c:532-546 | auipc and jalr decode to the offset if and only if it is in the range of a pair |
| `Reloc.CallOutOfRange` | client/rtld.c:532-546 | An offset that fits in 32 bits and is still missed, without any report |
| `Reloc.PairReachesI` | client/rtld.c:547-559 | PCREL_HI20 with PCREL_LO12_I decode to the offset if and only if it is in range |
| `Reloc.PairReachesS` | client/rtld.c:547-567 | PCREL_HI20 with PCREL_LO12_S decode to the offset if and only if it is in range |
| `Reloc.MixedPair` | client/rtld.c:547-567 | Halves made for different offsets reach the first one's target if and only if it is in range and both agree in twelve bits |
| `Reloc.JumpReaches` | client/rtld.c:445-459 | CALL26 and JUMP26 decode to the accepted offset if and only if it is a multiple of four |
| `Reloc.FarJumpReaches` | client/rtld.c:447-459 | Out of range, the branch decodes to the stub made for the target if and only if its distance is a multiple of four |
| `Reloc.FarStubLoads` | client/rtld.c:352-371 | That stub loads exactly the symbol's 64-bit address |
| `Reloc.MovwReaches` | client/rtld.c:486-497 | Four MOVW relocations together load exactly the symbol's address |
| `Reloc.AdrpReaches` | client/rtld.c:460-467 | adrp computes the symbol's page for every accepted distance |
| `Reloc.AdrpAddReaches` | client/rtld.c:460-470 | adrp and the low twelve bits together give the symbol's address |
| `Reloc.Scaled2` | client/rtld.c:474-476 | The scaled field decodes to the low twelve bits if and only if the address is aligned and the bits of the field that are not written were zero |
| `Reloc.Scaled4` | client/rtld.c:477-479 | The same for four-byte accesses |
| `Reloc.Scaled8` | client/rtld.c:480-482 | The same for eight-byte accesses |
| `Reloc.Scaled16` | client/rtld.c:483-485 | The same for sixteen-byte accesses |
| `Reloc.Signed32Reaches` | client/rtld.c:416-430 | A signed 32-bit field, extended, is the accepted value |
| `Reloc.Unsigned32Reaches` | client/rtld.c:431-435 | An unsigned 32-bit field is the accepted value |
| `Reloc.BranchAccepted` | client/rtld.c:512-521 | A branch is accepted if and only if the low 13 bits of its offset, sign-extended, give it back and it is not the largest such value |
| `Reloc.JalAccepted` | client/rtld.c:522-531 | The same for jal and 21 bits |
| `Reloc.JumpAccepted` | client/rtld.c:445-459 | CALL26 and JUMP26 are accepted if and only if the target, or the stub made for it, is within 28 bits and not at the largest distance |
| `Reloc.AdrpAccepted` | client/rtld.c:460-467 | adrp is accepted if and only if the distance in pages fits in 21 bits and is not the largest such value |
| `Reloc.Signed32Accepted` | client/rtld.c:416-430 | The same for signed 32-bit fields |
| `Reloc.Unsigned32Accepted` | client/rtld.c:431-435 | An unsigned 32-bit value is accepted if and only if it fits and is not the largest |
| `RelocPairs.FindUpper` | client/rtld.c:653-678 | The first relocation of an upper half at the offset, or the knowledge that there is none |
| `RelocPairs.RelocateOne` | client/rtld.c:698-747 | What one relocation asks for, including the second resolution of the upper half's symbol |
| `RelocPairs.ProcessRela` | client/rtld.c:681-752 | All relocations in order up to the first failure, each written into the section's instructions before the next is resolved |
| `RelocPairs.OneEdit` | client/rtld.c:698-747 | Each relocation has exactly one outcome |
| `RelocPairs.RefusedExactly` | client/rtld.c:698-747 | A relocation is refused if and only if it lies outside the section, its symbol cannot be resolved, its upper half is missing or unresolved, or its field is out of range |
| `RelocPairs.PlainInCode` | client/rtld.c:709-746 | After the whole list, an instruction with one plain relocation holds the field made for the symbol's address plus the addend at its own address |
| `RelocPairs.OnceWritten` | client/rtld.c:681-752 | Whatever else the list holds, an instruction with one relocation ends up with the field made for it |
| `RelocPairs.SameOffset` | client/rtld.c:721-742 | If the upper half's symbol has an address, both halves are made for the same offset |
| `RelocPairs.PairLeadsToTarget` | client/rtld.c:653-742 | Hence the pair leads to the target if and only if it is in range |
| `RelocPairs.PairInCode` | client/rtld.c:653-752 | The same of the two instructions that the section holds after the whole list, whatever they were before |
| `RelocPairs.OwnStubs` | client/rtld.c:318-327 | If the symbol has no translation, the two halves are made for two different stubs |
| `RelocPairs.LazyPair` | client/rtld.c:653-742 | Such a pair, decoded, leads to the first stub if and only if that is in range and both offsets agree in their low twelve bits |
| `RelocPairs.LazyPairInCode` | client/rtld.c:653-752 | The same of the two instructions that the section holds after the whole list |
| `RelocPairs.LazyPairFails` | client/rtld.c:653-752 | Relocations of one symbol whose stubs lie 0x40 apart, after which the section holds a pair that leads to neither |
| `RelocPairs.MixedDecodes` | client/rtld.c:547-567 | Halves made for different stubs lead to the first if and only if it is in range and the offsets agree modulo 4096 |
| `Patch.PatchIsDirect` | client/rtld.c:1050-1061 | Relocating to a stub and patching later gives bit for bit what relocating directly gives, refusals included |
| `Patch.EnterPatches` | client/rtld.c:1050-1061 | In every run, entering a stub leaves its site with the direct relocation of the object's word to the table's entry if that is accepted and the size supported, decoding to it, and as it was otherwise; no other site changes |
| `Patch.LoadLeads` | client/rtld.c:318-327 | In every run, a loaded site is on the table's entry at once if there is one, else on its own stub; a refused relocation leaves no site |
| `Patch.SitesLead` | client/rtld.c:318-327 | At every moment of every run each call site holds the direct relocation to the table's entry or to its own stub, through the one far stub made for the target where one is needed |
| `Patch.PatchedForGood` | client/dispatch.c:130-173 | A site that is on the table's entry stays on it over every continuation of the run |
| `Patch.CallsOverwrite` | client/rtld.c:402-424 | All call relocations overwrite the same bits whatever the target, and keep all others |
| `Patch.AllDecode` | client/rtld.c:402-567 | For every kind of call, what the relocation writes decodes to the target or to its far stub if and only if the field can express the distance |
| `Patch.LeadingArrives` | client/rtld.c:1050-1061 | A site that holds the relocation to a target, through a given far stub where one is needed, decodes to it under the same condition, and has kept all other bits |
| `Patch.CallsArrive` | client/rtld.c:1050-1061 | At every moment of every run of calls, resolutions and patches, each site holds the relocation to its own stub or to the table's entry, directly or through the far stub made for just that address, and decodes to it if and only if the distance can be expressed; its other bits are the object's |
| `Patch.RvStubJumps` | client/rtld.c:180-195 | The RISC-V stub reaches the resolver if and only if it is in the range of a pair |
| `Patch.RvStubPassesData` | client/rtld.c:180-190 | The stub passes the address sixteen bytes behind its start, where the patch data lies |
| `Patch.A64StubJumps` | client/rtld.c:173-178 | The AArch64 stub's branch decodes to the accepted distance if and only if it is a multiple of four |
| `Patch.A64StubPassesData` | client/rtld.c:173-174 | adr gives the address of the patch data, for every register |
| `Patch.X86StubPassesData` | client/rtld.c:165-169 | The first eight bytes of the x86-64 stub are lea of the patch data, sixteen bytes behind the start, into each of the sixteen registers, and the opcode of the jump |
| `Patch.X86StubJumps` | client/rtld.c:165-172 | The displacement written behind it, decoded, is the distance to the resolver if and only if that fits in 32 bits |
| `Layout.AssignOffsets` | client/rtld.c:912-932 | Offsets, total size and alignment as specified; refused exactly if some section has unsupported flags |
| `Layout.Rebase` | client/rtld.c:938-940 | ALLOC headers move by the base address, all others stay |
| `Layout.CopySections` | client/rtld.c:951-959 | Memory after all PROGBITS sections are copied in order |
| `Layout.OutsideKept` | client/rtld.c:951-959 | Memory that no PROGBITS section covers keeps its contents |
| `Layout.LastWins` | client/rtld.c:951-959 | Where sections overlap, memory holds the bytes of the last one |
| `Layout.Packed` | client/rtld.c:912-932 | Each section starts at the first aligned offset at or behind the end of the one before it, and the total is the end of the last |
| `Layout.MaxAlignTight` | client/rtld.c:912-932 | The alignment asked for is that of some section, or one |
| `Layout.PlacedExactly` | client/rtld.c:912-932 | Sections lie inside the total and apart from each other if and only if every allocated section with alignment zero comes before anything that takes room |
| `Layout.LateZeroBreaks` | client/rtld.c:925-931 | Any allocated section with alignment zero behind something that takes room breaks that |
| `Layout.LayoutCorrect` | client/rtld.c:912-940 | At an aligned base, ALLOC sections are aligned, inside the allocation and pairwise disjoint, in order |
| `Layout.BaseAligned` | client/rtld.c:933-940 | A base aligned as the allocator promises for this request (`Arena.ResultsUsable`) is aligned to every section's alignment |
| `Layout.LoadSections` | client/rtld.c:912-959 | All passes together: refused exactly for unsupported flags or no memory, else placed at the allocated base and copied, with every loaded section that no later unallocated one touches intact and all other memory as it was |
| `Layout.SectionsIntact` | client/rtld.c:912-959 | After the copy a loaded section's bytes are intact at its final address if no unallocated PROGBITS section behind it touches it |
| `Layout.StrayBreaks` | client/rtld.c:951-959 | If one does, there are contents of the same shape for which the loaded section is not intact |
| `Layout.IntactExactly` | client/rtld.c:912-959 | So a section is intact for all contents of the file if and only if no such section touches it |
| `FloatRound.FloorCorrect` | client/math.c:11-39 | For every finite pattern of every format, the greatest integral value not above it |
| `FloatRound.CeilCorrect` | client/math.c:41-69 | The least integral value not below it |
| `FloatRound.RoundCorrect` | client/math.c:71-105 | The nearest integral value, halves away from zero |
| `FloatRound.TruncCorrect` | client/math.c:107-135 | The value without its fractional part |
| `FloatRound.CeilOfNegative` | client/math.c:11-69 | ceil(-v) is -floor(v) bit for bit, and the other way round |
| `FloatRound.SignKept` | client/math.c:11-135 | The sign bit always stays, so zero results have the argument's sign |
| `FloatRound.SpecialKept` | client/math.c:20-22 | Infinities and values that are not numbers come back unchanged |
| `FloatRound.MaskedBits` | client/math.c:17-19 | On the mask of the bits below the binary point, the bitwise and gives the remainder, and clearing the mask the multiple below |
| `FloatRound.CarryStaysFinite` | client/math.c:17-19 | The carry out of the mantissa neither makes an infinity nor reaches the sign bit |
| `RemoteMemory.Remote.GetPage` | server/connection.cc:233-254 | The page from the cache or the client; only a delivered page is kept, and only a missing one is asked for |
| `RemoteMemory.Remote.Get` | server/connection.cc:257-271 | Exactly the bytes from start up to end or to the first unreadable page, with no delivered page asked for again |
| `RemoteMemory.CompleteIff` | server/connection.cc:257-271 | The read is complete if and only if every page with a requested byte can be read |
| `RemoteMemory.ReadUnique` | server/connection.cc:257-271 | There is only one such read |
| `HashKey.Hasher.Translate` | server/rewriteserver.cc:334-355 | The key buffer as specified, and the configuration prefix restored on every way out |
| `HashKey.KeyUnique` | server/rewriteserver.cc:334-355 | Equal buffers mean equal configuration, address and list of relative starts, sizes and code bytes |
| `HashKey.KeyExactly` | server/rewriteserver.cc:334-355 | Two translations have one key if and only if configurations agree, addresses too unless the code is position-independent, and the ranges hold the same code at the same relative places in the same order |
| `HashKey.RangesTold` | server/rewriteserver.cc:334-355 | With the address in the key, the ranges themselves and their code are the same |
| `Octal.EmitDigits` | server/rewriteserver.cc:376-383 | The digit loop and the reversal give the canonical octal digits of the address |
| `Octal.DecodeName` | client/rtld.c:264-278 | The decoder's status and result for every string, overlong and malformed ones included |
| `Octal.DecodedAs` | client/rtld.c:264-278 | For every string: a wrong first character is refused, digits up to the end or a terminator count modulo 2^64, and any other character ends the decoder with success and no value |
| `Octal.RoundTrip` | client/rtld.c:264-278 | Names decode to the value for `Z` and to the value plus skew modulo 2^64 for `S`, with or without a suffix |
| `Octal.CanonicalUnique` | server/callconv.cc:87-107 | Distinct addresses get distinct names |

## Left out

- CreateSptrMap and the field tables: accesses to the register file are taken as already classified into one field or none, as the code assumes.
- CallConvRewrite.ChangeCallConv: takes the code's own assertions as conditions on the input (no dead store, one call or return per block outside the entry when nothing escapes); instruction order inside LLVM's lists and the HHVM return-register workaround are not modelled.
- CallConvRewrite.FoldLoads: gives the set of loads to remove; erasing instructions from LLVM's lists in place is represented by building the rewritten block.
- Arena.RunInv: sizes and addresses do not wrap around, mprotect does not fail, and memory is sequentially consistent.
- TableReaders.RunInv: acquire and release operations are plain steps of a sequentially consistent memory.
- DiskCache.RunInv: one hash value and its two names; an error of open, stat or the record lock (fcntl with F_SETLK) ends the call like a lost race.
- DiskCache.CleanUpExactly: buffers are not empty, as objects are; an empty buffer has no proper part.
- DiskCache.WholeExactly: the same.
- DiskCache.ExactOverall: the same.
- DiskCache.FailureLeaks: the same.
- ProtocolRuns.RunInv: for mode zero and objects of at most INT32_MAX bytes (server/connection.cc:102); the other runs are those of ProtocolRuns.OtherModeFails and ProtocolRuns.LargeFails. System calls do not fail, a faulting write sends no bytes before it fails, and headers are written and read as one unit.
- RemoteMemory.Remote.Get: addresses do not wrap around at the end of the address space.
- QuickTlb.Cpu.Dispatch: the assembly's register saving is not modelled, only its index computation; a dispatch is one step for other caches.
- QuickTlb.DispatchAll: every guest thread has its own state and table in the source (client/emulate.c:236-239), so one cache per table is its case and several are a generalisation; guest addresses are not zero; QuickTlb.Cpu.Dispatch states what happens for zero.
- Reloc.CallReaches: counts the offset before jalr clears the lowest bit of the target.
- RelocPairs.ProcessRela: the section is one word per offset, so two relocations overlap only at the same offset.
- Patch.CallsArrive: covers the relocation kinds of calls and branches; a pair of instructions with separate relocations is not patched as a pair.
- Layout.AssignOffsets: alignments are zero or powers of two; reading the ELF headers and failures of the code-writing primitive are not modelled.
- HashKey.Hasher.Translate: the code bytes of a decoded range are read completely; SHA-1 itself is not part of the model.
- Relocations that add to or subtract from the old contents, compressed RISC-V branches, absolute HI20 and the RISC-V far stub.
- An end-to-end statement that the object translated for an address registers that address: the name carries the full address and the loader adds the same address as skew.
- Syscall emulation, signals, ELF loading, initial stack, tracing, profiling output, code generation and lifting.
