# Verified models of a Steam plugin loader's cores

This project models the algorithmic cores of the plugin loader in Dafny and proves what they promise. Loops and
objects of the source are methods and classes, each proved against a definition on values; protocols between threads
or processes are state machines whose steps are the pieces of code between locks, exchanges and channel operations,
and their theorems hold in every run.

| files | component |
|---|---|
| `Bytes`, `SnareOpcodes`, `SnareDecoder`, `SnareIsa`, `SnareTrampoline`, `SnareProgram`, `SnareRuns`, `SnareHooks`, `SnareProcess` | the inline-hook library, x86-64 part |
| `ShmHeap`, `ShmMap`, `ShmArena`, `ShmCalls`, `ShmAlignment`, `ShmExhaustion` | the shared-memory arena |
| `CdpRequests`, `CdpOutcomes`, `CdpProgress` | requests of the debugging-protocol client |
| `PluginRpc`, `PluginBodies`, `PluginCalls`, `PluginProgress`, `PluginOrder` | calls and notifications between the loader and a plugin's process |
| `Text`, `Semver` | strings, version numbers |
| `ConfigTree` | the configuration tree |
| `Base64`, `Secrets` | encoding and packing of stored secrets |
| `FfiRecorder` | the ring of recorded calls |
| `PipeFraming`, `FrameProtocol`, `FrameWriters` | messages on pipes and sockets |
| `CommandLine` | command lines |
| `WebkitAttach`, `WebkitSessions` | attaching to browser targets |
| `EventIndex`, `Subscriptions`, `SubscriptionLoss` | event listeners and subscriptions |
| `Options` | values that may be absent |

How the layers fit together, for the larger components:

* Hooks. `SnareOpcodes` classifies opcodes by families of instructions, apart from the decoder's tables. `SnareIsa` gives
  instructions as fields with an absolute meaning (target of a transfer, fallback address of a transaction, address of
  a RIP-relative operand). The decoder and the copy loop work on bytes; `CopyStepRelocates` and
  `BuildRelocates` connect them with the fields. `TrampolineRuns` is the statement about execution: it is about the
  bytes the builder returns, near and far, on machines whose instructions store what they like. `SnareProcess`
  makes hooks with the builder and follows memory and threads over any sequence of calls. Instruction formats follow sections 2.1 and 2.2.1.6, and the opcode maps appendix A, of
  volume 2 of the Intel Software Developer's Manual.
* Arena. `ShmHeap` relates one byte array to a set of separate blocks, `ShmMap` and `ShmArena` relate the blocks to
  the map of plugins, patches and transforms, and `ShmCalls` runs the calls on the byte array and decodes it again.
  `ShmAlignment` is about where blocks start, and `ShmExhaustion` says what is decoded when there is no room.
* Requests, calls, attaching and subscriptions. Each has an invariant made of named parts, one lemma per part that
  every step keeps it, and theorems about all runs. Beside the invariants, what each message, call, outcome and
  session is comes from the steps of the run (`CdpOutcomes`, `PluginBodies`, `PluginCalls`, `WebkitSessions`,
  `SubscriptionLoss`), and what the threads can still do from any point is in `CdpProgress` and `PluginProgress`.

Where a promise does not hold of the code, the exact condition is proved and a run or an input shows the failure:

| condition | failure shown by | what fails |
|---|---|---|
| `CopyKeepsMeaningIff` | `LoopCopiedBlindly`, `TransactionCopiedBlindly` | instructions copied without adjusting their distance |
| `JumpBackLostIff`, `RelayLostIff` | `FarPageLosesJumpBack` | pages too far away for the jumps, taken by the Windows scan |
| `BatchAgreesWithSingleIff` | `BatchPatchesRefused` | batch installation without a trampoline |
| `UnsettledAfterShutdown` | `LateRegistrationIsStuck` | requests registered after shutdown |
| `ClosesIff` | `CallbackBlocksShutdown` | shutdown that waits for a callback that waits for an answer |
| `OwnIdIff` | `ForeignAnswer` | message ids that do not fit in an int |
| `PluginOrder.ArrivalOrderIff` | `OvertakingHappens` | notifications that overtake deferred ones |
| `SetThenGetIff` | `NullIsNotWritten` | null written to a missing path |
| `CmpFailsIff` | `TooLargeForItself` | prerelease numbers beyond int |
| `SafeIffAlone` | `InterleavedIsLost` | frames of several writers on one socket |
| `ReturnsIff` | `DestroyedReturns` | destroyed targets that are in the table again |
| `ListenerLostIff` | `OffAllLoses`, `SubscribedAfterShutdown` | listeners lost to shutdown, or to `off_all`, which has no caller in the repository |

Code and comments differ in these places; the model follows the code. The header presents the batch forms as install
and remove with one suspension of threads, but batch installation does not look for a trampoline as the single form
does. Shutdown is commented as failing all pending requests, but a request can be registered afterwards. Callbacks are
commented as free to block on the client, but shutdown joins their pool before it fails the requests they may wait on.
The comment in the child's `call` speaks of notifications that arrive while it waits; a request that arrives then is
logged and dropped.

## Model

| member | source | states |
|---|---|---|
| `SnareDecoder.Disasm` | thirdparty/libsnare.h:554-688 | The decoding pass returns the length and relocation offset that the recursive definition `Decode` gives, or reports an unsupported opcode or a read behind the bytes. `SnareIsa.DecodeLayout`, `TablesAgree` and `RefusesIff` tie that definition to the opcode maps and instruction formats. |
| `SnareDecoder.DisasmOpcode` | thirdparty/libsnare.h:597-619 | Opcode bytes and table entry, as the definition says; every read is inside the bytes. What the entries are is `SnareIsa.TablesAgree`. |
| `SnareDecoder.DisasmOperands` | thirdparty/libsnare.h:621-688 | ModR/M, SIB, displacement and immediate lengths, as the definition says; every read is inside the bytes. |
| `SnareIsa.DecodeLayout` | thirdparty/libsnare.h:554-688 | For every instruction of the opcode maps in `SnareOpcodes`, which know nothing of the decoder, and whatever bytes follow, the decoder finds its length and the field to relocate if and only if it has no SIB byte without base register; otherwise it comes out exactly four bytes short. |
| `SnareIsa.TablesAgree` | thirdparty/libsnare.h:498-537 | Both tables of the decoder are, for every byte, the one-byte and two-byte opcode maps given by families of instructions: which take a ModR/M byte, an immediate of which size, a distance, or are not taken. |
| `SnareIsa.PrefixesAgree` | thirdparty/libsnare.h:562-595 | The bytes that the decoder skips as prefixes are the legacy prefixes and REX prefixes of the manual, and the wide ones are those with bit W. |
| `SnareIsa.RefusesIff` | thirdparty/libsnare.h:597-619 | Behind any prefixes, the decoder refuses an instruction if and only if its opcode is one the maps do not take. |
| `SnareIsa.ModrmFields` | thirdparty/libsnare.h:621-640 | The fields of a ModR/M byte make it up. |
| `SnareIsa.RipAgrees` | thirdparty/libsnare.h:621-660 | The ModR/M bytes taken to be RIP-relative are the eight of the manual. |
| `SnareIsa.DecodeStart` | thirdparty/libsnare.h:554-688 | The same for any bytes that start with the instruction. |
| `SnareIsa.DecodeOpcodeStart` | thirdparty/libsnare.h:597-688 | The part of the decoder behind the prefixes, on an instruction's bytes. |
| `SnareIsa.DecodeOperandsStart` | thirdparty/libsnare.h:621-688 | The part of the decoder behind the opcode, on an instruction's bytes. |
| `SnareTrampoline.CopyStepRelocates` | thirdparty/libsnare.h:735-838 | On a laid-out instruction the byte-level round of the copy loop writes exactly the field-level relocated instruction, and refuses exactly when the new displacement does not fit. |
| `SnareTrampoline.CopyShort` | thirdparty/libsnare.h:755-790 | The expansion of `EB` and `70`-`7F`. |
| `SnareTrampoline.CopyVerbatim` | thirdparty/libsnare.h:822-838 | Everything without a position-dependent field is copied unchanged. |
| `SnareTrampoline.CopyAdjusted` | thirdparty/libsnare.h:822-838 | rel32 and RIP-relative displacements are replaced in place and nothing else changes. |
| `SnareTrampoline.RelocField` | thirdparty/libsnare.h:824-836 | The four bytes at the reported offset are the displacement field, and writing there is replacing that field. |
| `SnareTrampoline.CopyKeepsMeaningIff` | thirdparty/libsnare.h:735-838 | A copied instruction means at the new address what the original meant (same absolute target, fallback address or operand address) if and only if it is no LOOPcc, LOOP or JRCXZ, no XBEGIN, and no `F6`/`F7` with a RIP-relative operand. |
| `SnareTrampoline.BlindCopyMoves` | thirdparty/libsnare.h:735-838 | Those kinds are copied unchanged and then mean something else, at every other address within 2^32. |
| `SnareTrampoline.LoopCopiedBlindly` | thirdparty/libsnare.h:735-838 | The bytes `E2 FE`, a loop on itself, are copied as they are, and the copy loops on itself instead of the source. |
| `SnareTrampoline.TransactionCopiedBlindly` | thirdparty/libsnare.h:735-838 | An XBEGIN is copied as it is, and its fallback address moves with it. |
| `SnareTrampoline.RelocateKeepsMeaning` | thirdparty/libsnare.h:755-838 | Expansion and adjustment keep the meaning at every pair of addresses. |
| `SnareTrampoline.RelocatesIff` | thirdparty/libsnare.h:755-838 | Copying an instruction is refused if and only if it is not one of the kinds copied blindly and its new distance does not fit in 32 bits; the length of the copy. |
| `SnareProgram.BuildRelocates` | thirdparty/libsnare.h:728-860 | For every supported sequence that covers five bytes, the builder refuses exactly when some displacement does not fit, and otherwise writes the relocated instructions and the jump back, with one boundary pair per instruction and one for the end. |
| `SnareProgram.BuildReaches` | thirdparty/libsnare.h:735-838 | The loop's final variables: source bytes consumed, bytes written, boundaries. |
| `SnareProgram.BuildWithinBuffers` | thirdparty/libsnare.h:298-343 | At most 41 of the 59 trampoline bytes and 6 of the 8 boundary slots are used, and no access leaves a buffer. |
| `SnareProgram.RelocateLength` | thirdparty/libsnare.h:755-838 | A copy is at most three times as long as its original. |
| `SnareProgram.CoversCount` | thirdparty/libsnare.h:735 | Whole instructions that cover five bytes are at most five. |
| `SnareProgram.BoundariesKeepMeaning` | thirdparty/libsnare.h:744-838 | Instruction by instruction, the copy at its recorded offset means what the original meant at its own. |
| `SnareProgram.BoundariesIncrease` | thirdparty/libsnare.h:744-749 | Recorded offsets start at zero, strictly increase and end behind the last instruction. |
| `SnareRuns.BuiltLayout` | thirdparty/libsnare.h:728-860 | Whatever the builder returns for a supported sequence, near or far, is the layout of the relocated instructions and of the jump back; a far jump is followed by the eight bytes of its target. |
| `SnareRuns.FarJumpMeaning` | thirdparty/libsnare.h:455-461 | The absolute jump goes to the address stored in the eight bytes behind it, wherever it is placed. |
| `SnareRuns.LoadsAddressIff` | thirdparty/libsnare.h:455-461 | Memory holds an address exactly when its eight bytes are there. |
| `SnareRuns.TrampolineRunsIff` | thirdparty/libsnare.h:728-860 | Whenever the builder succeeds, near or far, on every machine that has jumps: running what it built from any recorded boundary ends in the same state at the same address as running the source from its boundary, if and only if the jump back, when the run reaches it, goes to the end of the source. |
| `SnareRuns.TrampolineRuns` | thirdparty/libsnare.h:728-860 | Running what the builder built is running the source: near whenever the jump back fits in 32 bits, whatever the instructions store; far whenever the instructions of this run, in the states they are reached in, leave the eight address bytes alone. |
| `SnareRuns.TrampolineRunsFrom` | thirdparty/libsnare.h:728-860 | The same from every recorded boundary on: a thread moved there goes on as it would have in the source. |
| `SnareRuns.RunsAlong` | thirdparty/libsnare.h:728-860 | Relocated instructions do what the source does up to its end, in the same states, and then what is behind them; nothing is asked of the machine. |
| `SnareRuns.NearLandsIff` | thirdparty/libsnare.h:849-851 | The near jump goes back to the source if and only if its distance fits in 32 bits. |
| `SnareRuns.FarLandsIff` | thirdparty/libsnare.h:852-854 | The absolute jump goes back to the source if and only if the eight bytes of its target are in memory when it runs. |
| `SnareRuns.SlotIsResident` | thirdparty/libsnare.h:852-854 | They are when the builder's bytes are. |
| `SnareRuns.InRangeReaches` | thirdparty/libsnare.h:383-386 | A page that passes the range test has its jump back in range. |
| `SnareRuns.JumpBackLostIff` | thirdparty/libsnare.h:388-415 | For every page the Windows scan can take: where the jump back really goes, which is behind the copied source unless the page is further away than the bytes added by copying allow, and 2^32 off exactly then. |
| `SnareRuns.FarPageLosesJumpBack` | thirdparty/libsnare.h:388-415 | On a page 2^31 above its source, which the scan can take, the jump back of a one-instruction trampoline misses by 2^32. |
| `SnareHooks.CopyInstruction` | thirdparty/libsnare.h:751-790 | The loop body behind the decoding: prefixes are skipped, short branches expanded with the range test, everything else copied, as the definition says. |
| `SnareHooks.CopyRegular` | thirdparty/libsnare.h:822-838 | The copy in an array with its displacement replaced in place, or the refusal. |
| `SnareHooks.MakeTrampoline` | thirdparty/libsnare.h:728-860 | The loop writing into a trampoline array and two boundary arrays leaves there exactly what `Build` says, returns 0 exactly on refusal, and has recorded the boundaries up to the refused instruction in that case. |
| `SnareHooks.RecordIp` | thirdparty/libsnare.h:744-749 | One boundary pair is stored, cut to eight bits, unless the slots are full. |
| `SnareHooks.ReadDstRoundTrip` | thirdparty/libsnare.h:691-702 | The target of a written jump is read back if and only if the distance fits in 32 bits. |
| `SnareHooks.HookJumpsReach` | thirdparty/libsnare.h:383-386 | With the page in range of the source, the hook jump is read back as written, is the detour when that is in range, and the jump back of every supported trampoline fits. |
| `SnareHooks.RelayLostIff` | thirdparty/libsnare.h:388-415 | For every page the Windows scan can take, the relay jump is read back as written if and only if the page is less than 2^31 - 54 bytes above the source. |
| `SnareHooks.AdjustThreads` | thirdparty/libsnare.h:1099-1127 | The nested loop maps the instruction pointer of every thread whose context can be read by the boundary table, and touches nothing else. |
| `SnareHooks.MapIpAt` | thirdparty/libsnare.h:1099-1127 | An instruction pointer on a boundary goes to the corresponding boundary. |
| `SnareHooks.MapIpElsewhere` | thirdparty/libsnare.h:1099-1127 | An instruction pointer on no boundary stays. |
| `SnareHooks.BoundaryMapsInvert` | thirdparty/libsnare.h:744-847 | For every trampoline that was built, both boundary tables cover every instruction and the end, and moving a thread in and out again brings it back. |
| `SnareProcess.Process.New` | thirdparty/libsnare.h:874-983 | There is a handle exactly when memory was found and the first instructions could be read; the new hook has a trampoline exactly when `Build` succeeds on the bytes at its source, with the bytes and boundaries the trampoline loop left. |
| `SnareProcess.MadeCarries` | thirdparty/libsnare.h:874-983 | A made hook carries what the builder made of the bytes at its source, and has a trampoline if and only if that was built. |
| `SnareProcess.ThreadsReturn` | thirdparty/libsnare.h:1143-1195 | A thread on any instruction boundary of the source is moved to the same instruction of the trampoline by installing, and back by removing. |
| `SnareProcess.Process.Install` | thirdparty/libsnare.h:1143-1170 | Returns -22 without any effect on an installed hook or a hook without trampoline; otherwise the hook is in, its source holds its jump, every other hook and byte is as it was, and threads on a boundary of the source are on the same one of the trampoline. |
| `SnareProcess.Process.Remove` | thirdparty/libsnare.h:1172-1195 | Returns -22 without any effect unless the hook is installed; otherwise the hook is out, its source holds the saved bytes, every other hook and byte is as it was, and threads on a boundary of the trampoline are on the same one of the source. |
| `SnareProcess.Process.Batch` | thirdparty/libsnare.h:1197-1259 | The batch loops skip null handles and hooks already in the wanted state, change the others in order, count them, and move threads hook by hook. |
| `SnareProcess.InstallEffect` | thirdparty/libsnare.h:1143-1170 | What installing does, for every handle: a hook that is out and has a trampoline is put in, and any other call changes nothing. |
| `SnareProcess.RemoveEffect` | thirdparty/libsnare.h:1172-1195 | What removing does, for every handle: a hook that is in is put out with its saved bytes, and any other call changes nothing. |
| `SnareProcess.BatchEffect` | thirdparty/libsnare.h:1197-1259 | What both batch calls do, hook by hook: the hooks named are in or out afterwards and the others as before; with disjoint sources every source that was switched holds its jump or its saved bytes, and every other byte is as it was. |
| `SnareProcess.BatchCounts` | thirdparty/libsnare.h:1197-1259 | A batch call returns the number of hooks it switched. |
| `SnareProcess.BatchMoves` | thirdparty/libsnare.h:1197-1259 | A batch moves a thread on a boundary of a switched hook as that hook does, once. |
| `SnareProcess.MadeJump` | thirdparty/libsnare.h:1131-1141 | The jump of a made hook is a near branch from its source to the relay if the detour is out of range and there is a page, and to the detour otherwise. |
| `SnareProcess.MadeRelay` | thirdparty/libsnare.h:926-935 | The relay is an absolute jump with the detour's address behind it, and there is one exactly in that case. |
| `SnareProcess.JumpLandsIff` | thirdparty/libsnare.h:691-696 | Executing the jump at its source leads there if and only if the distance fits in 32 bits. |
| `SnareProcess.RelayLeadsToDetour` | thirdparty/libsnare.h:455-461 | Executing the relay leads to the detour. |
| `SnareProcess.WriteKeepsPatched` | thirdparty/libsnare.h:1131-1141 | One store keeps every other source intact. |
| `SnareProcess.NewKeepsPatched` | thirdparty/libsnare.h:874-983 | So does making a hook on bytes that no other hook patches. |
| `SnareProcess.PerformKeepsPatched` | thirdparty/libsnare.h:1143-1259 | Every call keeps: each source holds its jump exactly while installed. |
| `SnareProcess.RunsStayPatched` | thirdparty/libsnare.h:874-1259 | After any sequence of making hooks on disjoint sources and of single and batch calls, from a process without hooks: each source equals its jump if installed and its original bytes if not, and every other byte is the original one. |
| `SnareProcess.RemovedRestores` | thirdparty/libsnare.h:1172-1259 | Whatever was called, once no hook is installed the memory is the original memory. |
| `SnareProcess.BatchAgreesWithSingleIff` | thirdparty/libsnare.h:1197-1212 | Batch and single install agree if and only if the hook has a trampoline or is installed: the batch form does not check. |
| `SnareProcess.BatchPatchesRefused` | thirdparty/libsnare.h:1197-1212 | A source that starts with an unsupported opcode gets a hook without trampoline, which the single form refuses and the batch form installs. |
| `Bytes.Le32RoundTrip` | thirdparty/libsnare.h:691-696 | A 32-bit store keeps a value modulo 2^32. |
| `Bytes.LowByteFirst` | thirdparty/libsnare.h:691-696 | The lowest byte is stored first, and behind it the bytes of the rest of the value. |
| `Bytes.Le32SignedRoundTrip` | thirdparty/libsnare.h:691-696 | Reading a stored value back as signed gives it again if and only if it fits. |
| `ShmHeap.Arena.constructor` | src/state/shared_memory.cc:135-160 | A new arena has one block, the header, with the size and 24 bytes used. |
| `ShmHeap.Arena.SAlloc` | src/state/shared_memory.cc:192-204 | Bump allocation in the byte array: the block is new, separate from all others, and only `used` changes; 0 exactly when there is no space. |
| `ShmHeap.Arena.StrDup` | src/state/shared_memory.cc:206-214 | Copies the string and its terminator into a new block; 0 without effect when there is no space. |
| `ShmHeap.Arena.StrEq` | src/state/shared_memory.cc:233-246 | Comparing a stored string with a key decides equality. |
| `ShmHeap.Arena.LoadWord` | src/state/shared_memory.cc:192-354 | Reading four bytes gives the word of the block. |
| `ShmHeap.Arena.StoreWord` | src/state/shared_memory.cc:192-354 | Writing four bytes changes that word of that block and no other block. |
| `ShmHeap.Arena.CopyWords` | src/state/shared_memory.cc:264-266 | `memcpy` between two blocks. |
| `ShmHeap.Arena.ZeroWords` | src/state/shared_memory.cc:225-230 | `memset`: the words not in use are zero, and no other byte changes. |
| `ShmHeap.Arena.CutRange` | src/state/shared_memory.cc:298-303 | `memmove` of the rows behind a removed one. |
| `ShmHeap.AllocStored` | src/state/shared_memory.cc:192-204 | The allocator's effect on the bytes is exactly a new block in the heap of blocks. |
| `ShmHeap.StoredFrame` | src/state/shared_memory.cc:192-354 | Changing one block's bytes leaves every other block as it was. |
| `ShmHeap.StoreStored` | src/state/shared_memory.cc:192-354 | A word store in the bytes is the update of that word in the heap of blocks. |
| `ShmMap.GrowTableKeeps` | src/state/shared_memory.cc:255-275 | Doubling both table arrays keeps the map and all invariants. |
| `ShmMap.AppendKeyAppends` | src/state/shared_memory.cc:277-285 | A new key goes behind all others with no patches, and no other entry changes. |
| `ShmMap.RemoveRowRemoves` | src/state/shared_memory.cc:288-307 | Removing a row removes its entry and changes no other. |
| `ShmMap.GrowListKeeps` | src/state/shared_memory.cc:332-343 | A larger patch array holds the same patches. |
| `ShmMap.AppendPatchAppends` | src/state/shared_memory.cc:345-353 | A new patch goes behind the others of its list; no other list changes. |
| `ShmMap.GrowTransformsKeeps` | src/state/shared_memory.cc:311-322 | A larger transform array holds the same transforms. |
| `ShmMap.AppendTransformAppends` | src/state/shared_memory.cc:324-327 | A new transform goes behind the others of its patch; nothing else changes. |
| `ShmArena.AddKeyRefines` | src/state/shared_memory.cc:248-286 | A known key changes nothing and gives its row; a new one is added behind all others, with every other entry as it was, if and only if there is room. |
| `ShmArena.AddKeyGivesUp` | src/state/shared_memory.cc:255-262 | When the table cannot grow, the map is as it was. |
| `ShmArena.AppendKeyFails` | src/state/shared_memory.cc:277-285 | Without room for the string, the row is counted with its key at offset 0. |
| `ShmArena.AddPatchRefines` | src/state/shared_memory.cc:330-354 | The patch is appended to its list and nothing else changes if and only if there is room; when the array cannot grow nothing changes at all. |
| `ShmArena.AppendPatchFails` | src/state/shared_memory.cc:345-353 | Without room for both strings, the patch is counted with a string at offset 0. |
| `ShmArena.AddTransformRefines` | src/state/shared_memory.cc:309-328 | The transform is appended to its patch and nothing else changes if and only if there is room. |
| `ShmArena.AppendTransformFails` | src/state/shared_memory.cc:324-327 | Without room for both strings, the transform is counted with a string at offset 0. |
| `ShmCalls.BytesDecode` | src/state/shared_memory.cc:192-354 | Decoding the arena's bytes from the header on gives exactly the plugin, patch and transform lists that the blocks stand for, in order. |
| `ShmCalls.CallRefines` | src/state/shared_memory.cc:248-354 | Every call with room for it refines its effect on the insertion-ordered map. |
| `ShmCalls.CallsRefine` | src/state/shared_memory.cc:248-354 | Over any sequence of calls with enough room, blocks stay separate, keys distinct, and the map is what the same calls make of an ordinary one. |
| `ShmCalls.ApplyAsMap` | src/state/shared_memory.cc:248-354 | By key: adding, removing, appending a patch and appending a transform are the corresponding map updates, and touch one key. |
| `ShmCalls.ContentsDistinct` | src/state/shared_memory.cc:248-286 | Keys of the arena are distinct. |
| `ShmAlignment.AllocAligned` | src/state/shared_memory.cc:192-204 | The allocator hands out multiples of eight, as its comment promises for processes of different word size. |
| `ShmAlignment.CallAligned` | src/state/shared_memory.cc:248-354 | Every call, with room for it or not, keeps every block at a multiple of eight. |
| `ShmAlignment.CallsStayAligned` | src/state/shared_memory.cc:192-354 | So does every sequence of calls with room for them. |
| `ShmAlignment.InitAligned` | src/state/shared_memory.cc:216-231 | A new map starts so. |
| `ShmCalls.BytesRefine` | src/state/shared_memory.cc:248-354 | One call as a reader of the bytes sees it. |
| `ShmCalls.HashmapInit` | src/state/shared_memory.cc:216-231 | A new arena becomes an empty map with room for sixteen keys, its arrays behind the header and 280 bytes in use. |
| `ShmCalls.FirstArray` | src/state/shared_memory.cc:222-230 | One of the two arrays of a new table is allocated behind what is in use, cleared, and its offset stored. |
| `ShmCalls.HashmapGet` | src/state/shared_memory.cc:233-246 | The scan returns the row of the key if there is one. |
| `ShmCalls.HashmapAddKey` | src/state/shared_memory.cc:248-286 | On the byte array: the blocks are those of the definition, and with room the decoded map is the old one with the key. |
| `ShmCalls.HashmapRemove` | src/state/shared_memory.cc:288-307 | On the byte array: the decoded map is the old one without the key. |
| `ShmCalls.PatchlistAdd` | src/state/shared_memory.cc:330-354 | On the byte array: with room the decoded map is the old one with the patch. |
| `ShmCalls.PatchAddTransform` | src/state/shared_memory.cc:309-328 | On the byte array: with room the decoded map is the old one with the transform. |
| `ShmCalls.Execute` | src/state/shared_memory.cc:248-354 | One call on the byte array, dispatched to the operations above. |
| `ShmCalls.ExecuteAll` | src/state/shared_memory.cc:248-354 | Any sequence of calls with enough room, run on the byte array: the map decoded from the bytes afterwards is the one decoded before with the same calls applied to an ordinary insertion-ordered map. |
| `ShmExhaustion.CallReads` | src/state/shared_memory.cc:192-354 | Every call, with room for it or not, as a reader of the bytes sees it: arrays that cannot be made leave the map as it was, and every string that cannot be copied reads as the first bytes of the arena's header. |
| `ShmExhaustion.AppliedIff` | src/state/shared_memory.cc:192-354 | A reader sees the effect of a call if and only if its arrays could be made and every string was copied or is what the header's first bytes read as. |
| `ShmExhaustion.HeaderTextIff` | src/state/shared_memory.cc:192-204 | Those bytes read as the empty string if and only if the arena's size is a multiple of 256, as that of the real one is: an empty key without room looks added. |
| `ShmExhaustion.ExecuteAny` | src/state/shared_memory.cc:248-354 | One call on the byte array, with that effect on what is read. |
| `ShmCalls.GrowArrays` | src/state/shared_memory.cc:255-275 | The growing branch of the key table on the byte array. |
| `ShmCalls.GrowOwned` | src/state/shared_memory.cc:311-322 | The growing branch of patch and transform arrays on the byte array. |
| `CdpRequests.StepKeepsInv` | src/engine/cdp_api.cc:106-374 | Every step of every thread keeps the protocol invariant. |
| `CdpRequests.RunsAreSafe` | src/engine/cdp_api.cc:106-374 | In every interleaving of send, response, timeout, send failure and shutdown: each promise is settled at most once, a value, an error or a malformed answer is what a message looked up by the request's id says, and an unsettled request is with its sender, in the table, or with a thread that has yet to exchange its flag. |
| `CdpOutcomes.OutcomesComeFrom` | src/engine/cdp_api.cc:106-374 | In every run, every settlement has its reason among the steps: a value is the result, and an error the error, of a received message with the request's id; a refusal comes from the sender's own exchange after the shutdown flag, a send failure from its failed send, a timeout from the sweeper's exchange, and a shutdown failure from the closing exchange. |
| `CdpProgress.PendingCanBeAnswered` | src/engine/cdp_api.cc:341-374 | In every run, when the worker is between messages, a message with the id of a request in the table settles exactly that request with what the message says. |
| `CdpProgress.PendingCanTimeOut` | src/engine/cdp_api.cc:445-473 | In every run, when the sweeper is between rounds, a request in the table can be timed out by one round, which settles it once and leaves everything else as it was. |
| `CdpRequests.KeepsAtMostOnce` | src/engine/cdp_api.cc:173-235 | At most one settlement per request, over one step. |
| `CdpRequests.KeepsOneWinner` | src/engine/cdp_api.cc:341-374 | At most one thread wins the exchange of a request. |
| `CdpRequests.KeepsCompletedMeans` | src/engine/cdp_api.cc:341-374 | The completed flag is set exactly when the promise is settled or its winner is about to settle it. |
| `CdpRequests.KeepsNoneLost` | src/engine/cdp_api.cc:445-473 | No request is lost between table and threads. |
| `CdpRequests.KeepsOwnAnswers` | src/engine/cdp_api.cc:341-374 | Responses settle only the request they are looked up by, with what the message says, over one step. |
| `CdpRequests.KeepsTakenGone` | src/engine/cdp_api.cc:445-473 | What the worker or the sweeper took out of the table does not return to it. |
| `CdpRequests.SettlersNeverWait` | src/engine/cdp_api.cc:341-374 | A thread that must settle can do so at once, whatever the others do. |
| `CdpRequests.OwnIdIff` | src/engine/cdp_api.cc:341-353 | In every run, a message for which a request was taken carries the request's own id if and only if the id on the wire fits in an int. |
| `CdpRequests.ForeignAnswer` | src/engine/cdp_api.cc:341-374 | A run in which the first request, whose id is 1, is settled with the result of a message with id 2^32 + 1. |
| `CdpRequests.UnsettledAfterShutdown` | src/engine/cdp_api.cc:106-147 | After shutdown has finished and all senders returned, a request is unsettled if and only if it was registered after the table was emptied and then sent. |
| `CdpRequests.LateRegistrationIsStuck` | src/engine/cdp_api.cc:173-235 | Such a run exists, because the flag is read before registering. |
| `CdpRequests.ClosesIff` | src/engine/cdp_api.cc:106-138 | In every run, once worker and sweeper have exited, shutdown can get to the pending requests that it is to fail if and only if no thread of the callback pool waits on an unsettled request. |
| `CdpRequests.CallbackBlocksShutdown` | src/engine/cdp_api.cc:118-128 | A run in which a callback waits for a request that is in the table, and shutdown never gets there. |
| `CdpRequests.StuckForever` | src/engine/thread_pool.cc:81-101 | A pool thread that waits on an unsettled request at that point waits for ever, whatever the other threads do. |
| `CdpRequests.KeepsPoolWaits` | src/engine/cdp_api.cc:118-128 | Pool threads wait on requests that were returned to them, and none waits once the pool is joined, over one step. |
| `PluginRpc.StepKeepsInv` | src/lua_host/rpc.cc:65-256 | Every step of the two processes, failed sends and calls that end in a disconnection included, keeps the invariant. |
| `PluginRpc.RunsKeepInv` | src/lua_host/rpc.cc:65-256 | So does every run. |
| `PluginRpc.CallsAreCorrelated` | src/engine/child_process.cc:184-216 | In every run a call that returned has the outcome of the one handler run for its own id, in both directions, or for the parent the loss of the child or the destruction of its object; a dropped request gets no run, and no id is answered twice. Which steps these outcomes come from is `PluginBodies.CallsReturnResponses`. |
| `PluginBodies.RequestsCarryTheirBodies` | src/engine/child_process.cc:184-204 | In every run, a request that either side takes off the socket carries the body that its own call gave it, and a call is sent at most once. |
| `PluginBodies.NotificationsArriveInOrder` | src/engine/child_process.cc:219-227 | In every run, the bodies of the notifications the child has read are the first ones that the parent sent, in order. |
| `PluginBodies.CallsReturnResponses` | src/engine/child_process.cc:374-461 | In every run, a call that returned has the outcome with which the other side's handler, running for that call, responded, or for the parent one of the two losses, each after its step. |
| `PluginCalls.CallsFollowTheirSteps` | src/engine/child_process.cc:184-216 | In every run there are as many calls as were made; each is unsent, given up or returned if and only if its steps say so; and one not given up is pending, has its response in the reader's hand, or has its outcome. |
| `PluginCalls.NobodyWaitsForTheDead` | src/engine/child_process.cc:448-461 | When the reader's loop ends, and again when the object is destroyed, every call that was sent and still waits can return. |
| `PluginCalls.MessagesAreAccounted` | src/engine/child_process.cc:374-444 | In every run no message is lost: a request sent is on the socket, started or dropped; a started one is answered unless its handler runs or the child died; a response is on the socket or taken off it, after which its call is not pending; and likewise for the child's calls. |
| `PluginCalls.ChildGotIff` | src/lua_host/rpc.cc:65-105 | In every run a call of the child has an outcome if and only if it read the response with its id while it waited, and that outcome. |
| `PluginCalls.TheDeadStop` | src/engine/child_process.cc:374-380 | Once its loop has ended the reader takes no step, and once dead the child takes none. |
| `PluginProgress.ReaderCanDeliver` | src/engine/child_process.cc:374-444 | From every state of every run in which the reader's loop has not ended, the reader alone can empty the socket, and then every response on it has reached the call that was pending for it. |
| `PluginProgress.ChildCanFinish` | src/lua_host/rpc.cc:157-256 | From every state of every run in which the child is in a message of its loop, it can get back to the loop by itself, with every notification it has read dispatched exactly once. |
| `PluginProgress.MessagesAreReadOnce` | src/engine/child_process.cc:374-380 | In every run each direction of the socket holds as many messages as were sent and not read, and the child's notifications in the order in which they were sent. |
| `PluginRpc.OneRunPerRequest` | src/engine/child_process.cc:374-461 | A response is sent and a promise set only for an id that has none yet. |
| `PluginRpc.NotificationsAreConserved` | src/lua_host/rpc.cc:65-105 | Every notification the child has read was dispatched exactly once or still waits, and deferred ones are dispatched in arrival order. |
| `PluginOrder.ArrivalOrderIff` | src/lua_host/rpc.cc:157-256 | All notifications together are dispatched in arrival order if and only if the loop never reads a notification next after a coroutine's call to the parent deferred one, before any other turn of the loop. The condition is on the steps of the run. |
| `PluginOrder.NoCallsKeepOrder` | src/lua_host/rpc.cc:157-256 | In particular they are when no coroutine calls the parent. |
| `PluginOrder.MarksMean` | src/lua_host/rpc.cc:157-256 | Notifications wait in the deferred queue between turns of the loop exactly when such a call deferred one since the last turn. |
| `PluginRpc.OvertakenBreaksOrder` | src/lua_host/rpc.cc:157-256 | Order breaks at exactly the dispatch that passes a deferred notification by. |
| `PluginRpc.OvertakingHappens` | src/lua_host/rpc.cc:157-256 | A run in which a later notification is dispatched before a deferred earlier one. |
| `PluginRpc.KeepsRequests` | src/lua_host/rpc.cc:81-102 | Each request of the parent is unsent, on its way, started or dropped, one of these only. |
| `PluginRpc.KeepsResponses` | src/lua_host/rpc.cc:117-135 | Responses to the parent are results of handler runs, one per run. |
| `PluginRpc.KeepsChildRequests` | src/lua_host/rpc.cc:65-78 | Requests of the child are new to the parent. |
| `PluginRpc.KeepsChildResponses` | src/engine/child_process.cc:404-444 | Responses to the child are results of the parent's handler runs, one per run. |
| `PluginRpc.KeepsPromises` | src/engine/child_process.cc:374-461 | A promise holds the outcome of the run for its call, or the loss of the child. |
| `PluginRpc.KeepsConserved` | src/lua_host/rpc.cc:157-256 | Numbers of notifications are split between direct and deferred dispatch. |
| `Semver.ParseIff` | src/util/semver.cc:117-171 | A text parses to a version if and only if the version is valid by items 2, 9 and 10 of Semantic Versioning 2.0.0, with core numbers up to INT_MAX, and the text is its printed form. |
| `Semver.ParseSound` | src/util/semver.cc:117-171 | One direction: what is parsed is valid and prints back. |
| `Semver.ParseComplete` | src/util/semver.cc:117-171 | Other direction: every valid version's text parses to it. |
| `Semver.ParseIntIff` | src/util/semver.cc:56-75 | A number is accepted if and only if it is the decimal without leading zeros of a value up to INT_MAX. |
| `Text.DecimalValue` | src/util/semver.cc:56-75 | The decimal of a number has that value and no leading zero. |
| `Text.ValueDecimal` | src/util/semver.cc:51-75 | Decimals without leading zeros are unique. |
| `Semver.Validate` | src/util/semver.cc:91-111 | The loop accepts exactly the dot-separated identifiers of the grammar. |
| `Semver.ParseString` | src/util/semver.cc:117-171 | The parser with its searches and loops computes the definition. |
| `Semver.CmpPreRelease` | src/util/semver.cc:173-234 | The comparison loop computes the definition, including the failure on numbers beyond int. |
| `Semver.Cmp` | src/util/semver.cc:236-262 | The comparison of two texts computes the definition. It fails if and only if a text does not parse or `CannotCompare` holds of the versions; otherwise its sign says which is lower. |
| `Semver.CmpIsPrecedence` | src/util/semver.cc:236-262 | Whenever there is a sign, it is the precedence of item 11. |
| `Semver.CmpOrders` | src/util/semver.cc:236-262 | Whenever there is a sign, it is negative if and only if the first version is lower and positive if and only if the second is, where lower is said by first differences: of major, minor and patch; a prerelease below none; then the first differing identifier, numbers by value and below the others, the others in dictionary order, or the shorter list. |
| `Semver.FitsCompares` | src/util/semver.cc:173-234 | Versions whose numeric identifiers fit can always be compared. |
| `Semver.IdentifierIff` | src/util/semver.cc:39-49 | Identifiers are made of ASCII letters, digits and hyphens, by their codes. |
| `Semver.PartFailsIff` | src/util/semver.cc:173-234 | Two parts cannot be compared if and only if one is empty or both are numbers of which one does not fit. |
| `Semver.PrintIs` | src/util/semver.cc:117-171 | The text of a version, part by part. |
| `Text.LexLowerIff` | src/util/semver.cc:173-234 | Comparing element by element decides dictionary order. |
| `Semver.CmpIsPreorder` | src/util/semver.cc:236-262 | Antisymmetric in sign and transitive on all versions whose numeric identifiers fit. |
| `Semver.PrecedenceOpposite` | src/util/semver.cc:236-262 | Precedence is antisymmetric in sign on all versions. |
| `Semver.PrecedenceTransitive` | src/util/semver.cc:236-262 | Precedence is transitive on all versions. |
| `Semver.EqualApartFromBuild` | src/util/semver.cc:236-262 | Whenever there is a sign, it is 0 if and only if the texts are equal apart from build metadata. |
| `Semver.CmpFailsIff` | src/util/semver.cc:173-234 | Two valid texts cannot be compared if and only if the cores are equal and behind equal parts two numbers meet of which one does not fit in int. |
| `Semver.TooLargeForItself` | src/util/semver.cc:173-234 | A version whose prerelease is a number beyond int parses, and cannot be compared even with itself. |
| `Text.SplitLoop` | src/util/semver.cc:77-89 | The splitting loop computes the definition. |
| `Text.SplitJoins` | src/util/semver.cc:77-89 | Joining the parts gives the text back, and no part holds the delimiter. |
| `Text.JoinSplits` | src/util/semver.cc:77-89 | Splitting joined delimiter-free parts gives them back. |
| `ConfigTree.SetThenGetBelow` | src/system/config.cc:75-104 | After setting a value that is not null, every path below reads inside that value. |
| `ConfigTree.SetThenGetIff` | src/system/config.cc:75-104 | The set value is found if and only if it is not null or the path existed: setting null on a missing path writes nothing. |
| `ConfigTree.NullIsNotWritten` | src/system/config.cc:91-98 | Null set at a missing key is not found afterwards. |
| `ConfigTree.SetInto` | src/system/config.cc:82-99 | The walk that makes or replaces objects on the way, compares at the end and stores computes the definition, and says whether it stored. |
| `ConfigTree.SetElsewhere` | src/system/config.cc:75-104 | Paths that are incomparable with the one set read as before, even when scalars on the way are replaced by objects. |
| `ConfigTree.SetMakesObjects` | src/system/config.cc:82-89 | Every proper beginning of the path is an object afterwards. |
| `ConfigTree.SetWrites` | src/system/config.cc:75-104 | Setting as it is read back, and when it throws. |
| `ConfigTree.LastSetWinsIff` | src/system/config.cc:75-104 | Two sets equal the second alone if and only if the second is not null, the first was null, or the path existed. |
| `ConfigTree.MergeInto` | src/system/config.cc:124-140 | The recursive loop over the defaults computes the field-by-field definition, in whatever order fields come. |
| `ConfigTree.MergeIdempotent` | src/system/config.cc:124-140 | Merging the same defaults again changes nothing. |
| `ConfigTree.DefaultsResolve` | src/system/config.cc:124-140 | Every path of the defaults resolves afterwards. |
| `ConfigTree.UserValueSurvivesIff` | src/system/config.cc:124-140 | A user value that is not an object survives at its path if and only if the defaults do not hold an object at exactly that path. |
| `ConfigTree.NothingInvented` | src/system/config.cc:124-140 | Every path afterwards was in the user's tree or in the defaults. |
| `ConfigTree.MergeRootCombines` | src/system/config.cc:195 | Loading, path by path, and when it throws. |
| `ConfigTree.MergedLeaves` | src/system/config.cc:124-140 | A value that is no object is there afterwards if and only if the defaults have no object at its path and it is the user's, or the user has nothing there and it is that of the defaults. |
| `ConfigTree.MergedObjects` | src/system/config.cc:124-140 | Objects afterwards are those of the user's tree and those of the defaults. |
| `ConfigTree.OverlayAfterMerge` | src/system/config.cc:275-282 | Once defaults are merged, reading everything gives the tree itself. |
| `ConfigTree.PositionsAt` | src/system/config.cc:275-282 | Iterating an array root gives every element under its decimal position. |
| `ConfigTree.PositionsOnly` | src/system/config.cc:275-282 | An array root gives no other keys. |
| `ConfigTree.ConfigManager.Open` | src/system/config.cc:284-303 | There is no manager exactly when the defaults are not empty and the loaded root is neither object nor null. Otherwise, at every path: everything in the defaults is there, the objects are those of either tree, and another value is the user's or, where the user has nothing, that of the defaults, unless the defaults have an object there. |
| `ConfigTree.ConfigManager.GetPath` | src/system/config.cc:47-63 | The walk returns what is at the path, and the default exactly for a missing or the empty path. |
| `ConfigTree.ConfigManager.SetPath` | src/system/config.cc:75-104 | The exception exactly below a root that is neither object nor null. Otherwise the value is read back at the path exactly when it is not null or the path existed, everything below reads inside it, the steps on the way are objects, and incomparable paths read as before; and whether listeners are told. |
| `ConfigTree.ConfigManager.MergeDefaults` | src/system/config.cc:124-140 | The same on the manager's own tree, which stays as it was when there is the exception. |
| `ConfigTree.ConfigManager.GetAll` | src/system/config.cc:275-282 | For every kind of root, key by key: the user's fields, or elements under their positions, or the scalar under the empty key, and the defaults under all other keys. |
| `Base64.Base64Encode` | src/system/crypto.cc:60-75 | The encoding loop computes the group-by-group definition. |
| `Base64.Base64Decode` | src/system/crypto.cc:77-97 | The decoding loop with its 32-bit accumulator computes the definition that keeps only unwritten bits. |
| `Base64.AccumulatorLow` | src/system/crypto.cc:86-94 | The bits that the accumulator discards are never used. |
| `Base64.DecodeIsBigEndian` | src/system/crypto.cc:77-97 | For every text at all, the decoded bytes are the big-endian number its digits spell in base 64, without the last bits that fill no byte. |
| `Base64.DecodeEncode` | src/system/crypto.cc:60-97 | Decoding what was encoded gives it back, for every byte sequence. |
| `Base64.EncodeLength` | src/system/crypto.cc:62-64 | The encoded length is four times the number of groups of three. |
| `Base64.EncodeIsCanonical` | src/system/crypto.cc:60-75 | Encodings are padded to groups of four with no stray bits. |
| `Base64.EncodeDecodeIff` | src/system/crypto.cc:60-97 | Encoding what was decoded gives the text back if and only if the text is canonical. |
| `Base64.DecodeSkips` | src/system/crypto.cc:77-97 | A character outside the alphabet that is no padding is skipped wherever it stands. |
| `Base64.InvDigit` | src/system/crypto.cc:39-58 | The two alphabet tables are inverse on digits. |
| `Base64.DigitInv` | src/system/crypto.cc:39-58 | The two alphabet tables are inverse on characters. |
| `Base64.DigitIsAlphabet` | src/system/crypto.cc:39 | The digits are those of table 1 of RFC 4648, by their codes. |
| `Secrets.DecryptEncrypt` | src/system/crypto.cc:177-250 | With a cipher that opens what it seals, decrypting an encrypted text gives it back, for every non-empty text and every nonce, and the blob is recognised as encrypted. |
| `Secrets.BlobLayout` | src/system/crypto.cc:177-207 | The blob is the prefix and an encoding of nonce, tag and ciphertext, in this order and of these lengths. |
| `Secrets.RefusedIff` | src/system/crypto.cc:177-245 | Encryption gives nothing exactly for an empty text or without a nonce; nothing is decrypted without the prefix or with nothing behind it. |
| `Secrets.BlobLength` | src/system/crypto.cc:177-207 | The blob's length depends on the text's length alone. |
| `Secrets.DecryptIff` | src/system/crypto.cc:177-250 | With a cipher that opens exactly what it seals, a blob decrypts to a non-empty text if and only if its canonical spelling is an encryption of that text under some nonce. |
| `Secrets.CanonicalDecrypts` | src/system/crypto.cc:209-245 | A blob and its canonical spelling decrypt alike, whatever the cipher. |
| `Secrets.DecryptSkips` | src/system/crypto.cc:209-245 | Characters outside the alphabet can be put anywhere into a blob without changing what is decrypted. |
| `FfiRecorder.Recorder.constructor` | src/mep/ffi_recorder.cc:36-40 | An empty recorder. |
| `FfiRecorder.Recorder.Record` | src/mep/ffi_recorder.cc:42-52 | The ring represents the last 512 entries of the whole history, which grows by the entry. |
| `FfiRecorder.Recorder.SlotHolds` | src/mep/ffi_recorder.cc:79-84 | The backward scan's index never goes below zero and visits the last 512 entries from the latest on. |
| `FfiRecorder.Recorder.GetRecent` | src/mep/ffi_recorder.cc:72-92 | The answer is, oldest first, the last `max` entries of the plugin among the last 512 of the whole history. |
| `FfiRecorder.RecentIsUnboundedIff` | src/mep/ffi_recorder.cc:72-92 | The answer is that of an unbounded log if and only if the ring still holds `max` entries of the plugin or all there ever were. |
| `FfiRecorder.OtherPluginsKeepAnswers` | src/mep/ffi_recorder.cc:42-92 | Recording another plugin's call changes no answer that is still full. |
| `PipeFraming.PipeReader.constructor` | src/engine/cdp_connector.cc:67-70 | A reader with an empty buffer. |
| `PipeFraming.PipeReader.Extract` | src/engine/cdp_connector.cc:91-101 | The inner loop delivers the non-empty complete records of the buffer in order and keeps the unfinished rest. |
| `PipeFraming.PipeReader.Feed` | src/engine/cdp_connector.cc:88-101 | One chunk more keeps: delivered are exactly the non-empty complete records of the whole stream. |
| `PipeFraming.PipeReader.ReadLoop` | src/engine/cdp_connector.cc:67-103 | For every split of the stream into chunks, up to the first failure, the same holds. |
| `PipeFraming.Resumes` | src/engine/cdp_connector.cc:88-101 | Bytes that follow are cut together with what was unfinished. |
| `PipeFraming.PipeSend` | src/engine/cdp_connector.cc:47-65 | Under any partial writes what goes out is a prefix of the message, and the whole message (its length taken modulo 2^32) exactly on success. |
| `PipeFraming.WireRoundTripIff` | src/engine/cdp_connector.cc:47-103 | The records read are the messages written if and only if no message holds a NUL. |
| `PipeFraming.DeliveredAsSent` | src/engine/cdp_connector.cc:47-103 | NUL-free messages read in any pieces are delivered in order, the empty ones skipped, with nothing left over. |
| `FrameProtocol.Socket.Recv` | src/mep/mep_server.cc:97 | One receive gives the next bytes, at least one while there are any, or fails. |
| `FrameProtocol.Socket.Send` | src/mep/mep_server.cc:112 | One send takes a prefix, or fails. |
| `FrameProtocol.Socket.RecvAll` | src/mep/mep_server.cc:91-104 | The loop gets exactly the next `n` bytes; on a reliable socket if and only if so many come. |
| `FrameProtocol.Socket.SendAll` | src/mep/mep_server.cc:106-119 | What goes out is always a prefix of the data, and all of it on success, which a reliable socket always has. |
| `FrameProtocol.Socket.ReadFrame` | src/mep/mep_server.cc:342-352 | The first frame's payload, refused when empty, longer than 4 MiB or cut off. |
| `FrameProtocol.Socket.WriteFrame` | src/mep/mep_server.cc:354-358 | Length and payload go out, a prefix of them on failure. |
| `FrameProtocol.Socket.ServeOne` | src/mep/mep_server.cc:318-337 | One round of the connection's loop: the next request is taken off the stream and its reply goes out, and there is another round exactly when the reply was written and is not the last. |
| `FrameProtocol.Socket.Serve` | src/mep/mep_server.cc:317-338 | The connection's loop: what goes out is always a beginning of the frames of the replies to the stream's requests, in order, and on a reliable socket of a running server exactly these, up to the first request that makes no sense. |
| `FrameProtocol.FramesRoundTripIff` | src/mep/mep_server.cc:342-358 | Written payloads are read back if and only if every one has 1 to 4 MiB bytes, 4 MiB being 0x400000. |
| `FrameProtocol.FirstOfFrame` | src/mep/mep_server.cc:342-358 | The first frame is read as written if and only if its size is acceptable. |
| `FrameProtocol.CutStreamKeepsWhole` | src/mep/mep_server.cc:342-352 | A cut inside a later frame loses none of the frames before it. |
| `FrameWriters.SafeIffAlone` | src/mep/mep_server.cc:304-358 | For any number of writers, any lengths of frames and any order of sends after which no frame is under way: the peer gets exactly the finished frames whatever the payload bytes are, if and only if no send comes between two sends of another frame. |
| `FrameWriters.AloneDecodes` | src/mep/mep_server.cc:354-358 | When no send does, the peer gets at any time exactly the finished frames, in the order in which they were finished. |
| `FrameWriters.NotAloneOverlaps` | src/mep/mep_server.cc:354-358 | When some send does, some frame is finished while another is begun. |
| `FrameWriters.NotBothReadBack` | src/mep/mep_server.cc:342-358 | Two payloads that differ in the last byte of such a frame cannot both be read back. |
| `FrameWriters.BytesConserved` | src/mep/mep_server.cc:354-358 | In every interleaving the socket holds as many bytes as the finished frames and the begun ones have. |
| `FrameWriters.InterleavedIsLost` | src/mep/mep_server.cc:354-358 | Two writers, header, header, payload, payload: both frames are finished, and the peer gets one payload that nobody wrote. |
| `FrameWriters.PayloadsArePrefix` | src/mep/mep_server.cc:342-352 | What is read off any stream at all is a beginning of it, as acceptable frames. |
| `CommandLine.ParseBuildIff` | src/util/cmdline_parser.cc:78-146 | Parsing the printed command gives it back if and only if no token holds a quote or NUL, no parameter is empty, and an empty executable has no parameters. |
| `CommandLine.ReparseIsStable` | src/util/cmdline_parser.cc:78-146 | For every string, printing its parse and parsing again changes nothing. |
| `CommandLine.ParseIsPrintable` | src/util/cmdline_parser.cc:114-146 | Whatever is parsed is printable. |
| `CommandLine.ScanTokens` | src/util/cmdline_parser.cc:114-135 | Every scanned token is non-empty and free of quotes and NULs. |
| `CommandLine.ScanQuoteToken` | src/util/cmdline_parser.cc:98-135 | A printed token is scanned as the token. |
| `CommandLine.WordIsOneToken` | src/util/cmdline_parser.cc:114-135 | A text whose blanks all stand behind an odd number of quotes is one token, its quotes dropped, or none when nothing is left. |
| `CommandLine.BlankSeparates` | src/util/cmdline_parser.cc:114-135 | At a blank behind an even number of quotes, the tokens are those of both sides. |
| `CommandLine.NulEnds` | src/util/cmdline_parser.cc:114-135 | What stands behind a NUL is not read. |
| `CommandLine.PrintedAlone` | src/util/cmdline_parser.cc:78-112 | A command without parameters is printed as its executable, in quotes under the same condition. |
| `CommandLine.PrintedLast` | src/util/cmdline_parser.cc:78-112 | One more parameter is printed behind a blank, in quotes if and only if it holds a blank or an equals sign. |
| `CommandLine.RemoveRemoves` | src/util/cmdline_parser.cc:68-76 | After removal nothing matches the key and every other parameter is there as often as before. |
| `CommandLine.RemovePicks` | src/util/cmdline_parser.cc:68-76 | The result is the parameters at increasing positions, which are all that do not match. |
| `CommandLine.RemoveKeepsOrder` | src/util/cmdline_parser.cc:68-76 | Parameters that are kept keep their order. |
| `CommandLine.EnsureLaws` | src/util/cmdline_parser.cc:54-66 | Afterwards the first match is the new entry, everything that does not match is unchanged, and one parameter is new exactly when none matched. |
| `CommandLine.EnsurePlaces` | src/util/cmdline_parser.cc:54-66 | Where the entry goes and what it is, in terms of the characters of the parameters. |
| `CommandLine.MatchesIff` | src/util/cmdline_parser.cc:54-76 | Which parameters match a key, character by character. |
| `CommandLine.LastEnsureWins` | src/util/cmdline_parser.cc:54-66 | The last call for a key wins. |
| `CommandLine.Command.constructor` | src/util/cmdline_parser.cc:33-36 | A command is the parse of its line. |
| `CommandLine.Command.ParseLine` | src/util/cmdline_parser.cc:114-135 | The scanning loop computes the definition, a null pointer included. |
| `CommandLine.Command.Flush` | src/util/cmdline_parser.cc:137-146 | The first token becomes the executable, every other a parameter. |
| `CommandLine.Command.EnsureParam` | src/util/cmdline_parser.cc:54-66 | The key, or key, equals sign and value, stands in the place of the first parameter that is the key or starts with it and an equals sign, or in front when there is none; nothing else changes. |
| `CommandLine.Command.RemoveParam` | src/util/cmdline_parser.cc:68-76 | Kept are exactly the parameters that are not the key and do not start with it and an equals sign, in their order. |
| `CommandLine.Command.Print` | src/util/cmdline_parser.cc:78-87 | The loop computes the printed form. |
| `WebkitAttach.StepKeepsInv` | src/engine/plugin_webkit_world_mgr.cc:121-410 | Every step of every handler keeps the invariant. |
| `WebkitAttach.RunsKeepInv` | src/engine/plugin_webkit_world_mgr.cc:121-410 | So does every run. |
| `WebkitAttach.RunsAreSafe` | src/engine/plugin_webkit_world_mgr.cc:121-410 | In every interleaving at most one attach per target waits for its answer, a target is in the in-flight set if and only if the handler that inserted it runs, and a target nobody waits for is not marked as attaching. |
| `WebkitAttach.ClaimNeverFindsAttaching` | src/engine/plugin_webkit_world_mgr.cc:126-136 | A handler that reaches the target table never finds another attach under way there. |
| `WebkitAttach.CanRetry` | src/engine/plugin_webkit_world_mgr.cc:362-410 | In every reachable state before the shutdown, a target neither attached nor served can be tried again by a changed event. |
| `WebkitAttach.SessionsAreBounded` | src/engine/plugin_webkit_world_mgr.cc:121-204 | In every run the sessions given to a target are at most as many as its destructions, plus one while it has a session: a second one needs a destruction in between. |
| `WebkitSessions.SessionsFollowEvents` | src/engine/plugin_webkit_world_mgr.cc:121-204 | In every run a target has exactly the session last answered to a handler that had arrived for it, and none since it was destroyed, told by the events alone. |
| `WebkitSessions.AttachingIff` | src/engine/plugin_webkit_world_mgr.cc:121-204 | In every run a target is marked as attaching if and only if it is in the table and some handler waits for its answer. |
| `WebkitSessions.NoNewAttach` | src/engine/plugin_webkit_world_mgr.cc:325-410 | After shutdown, whoever claims a target was already past its last look at the flag when it was set. |
| `WebkitSessions.CreatedAttaches` | src/engine/plugin_webkit_world_mgr.cc:309-341 | Before shutdown, a created target that is neither attached nor served is attached after two looks at the flag. |
| `WebkitSessions.CreatedAfterShutdown` | src/engine/plugin_webkit_world_mgr.cc:325-341 | A target created after shutdown gets no handler. |
| `WebkitAttach.ReturnsIff` | src/engine/plugin_webkit_world_mgr.cc:121-204 | From any point of any run where a target is not in the table, and until it is destroyed again, it is in the table if and only if meanwhile a handler that had arrived for it claimed it or got its answer. |
| `WebkitAttach.StaysOut` | src/engine/plugin_webkit_world_mgr.cc:121-204 | A target destroyed while nobody waits for its answer stays out until a handler claims it again. |
| `WebkitAttach.DestroyedReturns` | src/engine/plugin_webkit_world_mgr.cc:186-189 | A run in which a target destroyed during its attach is in the table with a session afterwards. |
| `WebkitAttach.KeepsInFlightExactly` | src/engine/plugin_webkit_world_mgr.cc:325-341 | Membership in the in-flight set, over one step. |
| `WebkitAttach.KeepsOneInside` | src/engine/plugin_webkit_world_mgr.cc:325-341 | One handler per target behind the in-flight set, over one step. |
| `WebkitAttach.KeepsAttachingIsWaited` | src/engine/plugin_webkit_world_mgr.cc:145-203 | The attaching mark, over one step. |
| `WebkitAttach.KeepsWaitingIsFresh` | src/engine/plugin_webkit_world_mgr.cc:186-189 | Nobody waits to attach a target that has a session, over one step. |
| `EventIndex.MapsAreInverse` | src/engine/cdp_api.cc:243-297 | Token to event and event to listeners are inverse to each other, and no listener list is empty. |
| `EventIndex.CdpEvents.constructor` | src/engine/cdp_api.cc:39-92 | An index without listeners. |
| `EventIndex.CdpEvents.On` | src/engine/cdp_api.cc:243-255 | The registration is appended, and the token is new; after shutdown nothing is registered. |
| `EventIndex.CdpEvents.Off` | src/engine/cdp_api.cc:260-281 | Exactly the registration with the token is removed. |
| `EventIndex.CdpEvents.OffAll` | src/engine/cdp_api.cc:287-297 | Exactly the registrations of the event are removed. |
| `EventIndex.CdpEvents.BeginShutdown` | src/engine/cdp_api.cc:106-111 | The flag is set; the first call is told so. |
| `EventIndex.CdpEvents.Clear` | src/engine/cdp_api.cc:139-144 | Every registration is removed, in both maps. |
| `EventIndex.OnRepresents` | src/engine/cdp_api.cc:251-253 | Both maps after a registration stand for the list with the registration behind all others. |
| `EventIndex.OffLists` | src/engine/cdp_api.cc:270-280 | The event map after a removal, an emptied list dropped. |
| `EventIndex.OffPoints` | src/engine/cdp_api.cc:263-268 | The token map after a removal. |
| `EventIndex.OffAllLists` | src/engine/cdp_api.cc:290-296 | The event map after removing an event. |
| `EventIndex.OffAllPoints` | src/engine/cdp_api.cc:293-295 | The token map after removing an event. |
| `Subscriptions.StepKeepsInv` | src/engine/ffi_binder.cc:248-285 | Every step of the binder, of the client's other users and of shutdown keeps the invariant. |
| `Subscriptions.RunsKeepInv` | src/engine/ffi_binder.cc:248-285 | So does every run. |
| `SubscriptionLoss.BinderHoldsExactly` | src/engine/ffi_binder.cc:248-285 | In every run, whenever the binder's lock is free, it holds one token for exactly the events with subscribers, no two events share one, no listener is leaked, and the listener is in the client if and only if the events of the run have not lost it. |
| `SubscriptionLoss.ListenerLostIff` | src/engine/ffi_binder.cc:248-285 | The loss, on the events of the run alone: since its registration somebody called `off_all` for the event or shutdown emptied the index, or the first subscription came after the shutdown flag. |
| `SubscriptionLoss.RunsTell` | src/engine/ffi_binder.cc:248-285 | Subscribers, tokens and losses of every reachable state are those that the events tell. |
| `SubscriptionLoss.OthersPendingIff` | src/engine/cdp_api.cc:243-255 | In every run the registrations of other users that are under way are exactly those asked for before the shutdown flag that have not taken place. |
| `Subscriptions.NothingLostUntilShutdown` | src/engine/ffi_binder.cc:248-285 | Until shutdown begins, and while nobody removes all listeners of an event, none is lost: every event with subscribers has its live token. |
| `Subscriptions.OffAllLoses` | src/engine/cdp_api.cc:287-297 | A run in which `off_all`, which the repository itself does not call, takes a listener from under the binder, whose plugin stays subscribed. |
| `Subscriptions.SubscribedAfterShutdown` | src/engine/cdp_api.cc:245-249 | A first subscription after shutdown began holds a token without a listener. |
| `Subscriptions.FfiBinder.constructor` | src/engine/ffi_binder.cc:39-45 | A binder without subscriptions, its own three listeners registered with new tokens. |
| `Subscriptions.FfiBinder.Subscribe` | src/engine/ffi_binder.cc:256-270 | The plugin is added; the first one registers one listener, and listeners stay complete before shutdown. |
| `Subscriptions.FfiBinder.Unsubscribe` | src/engine/ffi_binder.cc:271-284 | The plugin is removed; the last one takes the listener out of the client, and no other. |
| `Subscriptions.FfiBinder.Close` | src/engine/ffi_binder.cc:47-60 | The destructor takes exactly the binder's listeners, its own three included, out of the client. |

## Left out

- SnareIsa.DecodeLayout: VEX and EVEX encodings and the other opcodes that the maps mark as not taken are refused by the decoder and have no layout; which opcodes take which operands is stated for 64-bit mode only.
- SnareRuns.TrampolineRuns: instructions that overwrite the trampoline's own instructions, branches into the overwritten bytes, instructions that reveal their own position in what they store (the return address of CALL and INT n, the next address that SYSCALL keeps in a register), and wrap-around of 64-bit addresses are not modelled.
- SnareTrampoline.CopyStepRelocates: near branches with an operand-size prefix, which AMD processors and the decoder take to be two bytes shorter and Intel processors do not, and SIB bytes without base register are outside `Decodable`; the builder's result on them is the byte-level definition only.
- SnareHooks.HookJumpsReach: the page is in range; `JumpBackLostIff` and `RelayLostIff` say what happens to pages that the Windows allocation path takes without that test.
- SnareProcess.Process.New: memory protection, the search for a page and instruction-cache flushes are a parameter or absent; freeing hooks is not modelled.
- SnareProcess.Process.Install: the handle is one that `New` gave, as the source takes for granted.
- SnareTrampoline.CopyKeepsMeaningIff: the new address is another one, within 2^32 of the old.
- ARM64, 32-bit x86, PLT, IAT and Mach-O parts of the hook library: other platforms' formats.
- ShmHeap.Arena.constructor: mapping, naming and unlinking of shared memory are operating-system calls; the arena is far smaller than 2^32 bytes and strings are shorter than a constant bound, so that 32-bit sums do not wrap.
- ShmCalls.HashmapInit: requires room for the first two arrays, which the source does not check.
- ShmCalls.PatchlistAdd: lists and patches are named by their positions; a pointer kept across a call that moves the array is not modelled.
- ShmArena.AppendKeyFails: after a string did not fit, the arena is outside the invariant; `ShmExhaustion` says what is read then, and further calls on it are not described.
- Concurrent readers of the arena in other processes: the arena has no synchronisation.
- CdpRequests.RunsAreSafe: the incoming queue and its bound, a request counter beyond int, exceptions of the transport other than a failed send, and what callbacks do but wait on requests.
- PluginRpc.RunsKeepInv: the INIT handshake, watched descriptors, process spawning and the lock around sends (a send is one step); the text of the disconnection error leaves out the plugin's name; callers that outlive the process object.
- Semver.Cmp: exceptions are one `Invalid` result, without their messages.
- ConfigTree.ConfigManager.SetPath: the walk through the tree in place is modelled on values, so pointers into the tree are not captured.
- ConfigTree.ConfigManager.Open: reading and writing the file; defaults are an object.
- Listeners, disk files and lock order of the configuration.
- Secrets.DecryptEncrypt: the cipher, the key derivation and lengths beyond int are not modelled; the Windows variant has no nonce and tag of its own.
- Secrets.DecryptIff: that nothing opens but what was sealed is an assumption on the cipher, not a claim about its security.
- FfiRecorder.Recorder.Record: listeners, and the wrap-around of the 64-bit position; console and exception captures share the algorithm and are not repeated.
- PipeFraming.PipeSend: a call that never returns is the `Blocked` result.
- FrameProtocol.Socket.Serve: decoding of the payload and dispatch are a function of the request and its number, and pushes of other threads are left to `FrameWriters`.
- FrameProtocol.Socket.WriteFrame: alone on its socket; `FrameWriters` has the interleavings.
- CommandLine.ParseBuildIff: the Windows variant only; the POSIX quoter escapes characters that the parser does not unescape.
- CommandLine: `executable()`.
- WebkitAttach.RunsAreSafe: URL filters, and the script identifiers stored after attaching.
- EventIndex.CdpEvents.On: token numbers beyond int; callbacks are numbers.
- SubscriptionLoss.BinderHoldsExactly: plugin execution contexts and the delivery of events to them.
- `lifecycle.cc`, `crash_event_bus.cc`, `sdk_ready_bus.cc`: start-up order and two lists of callbacks. Of `thread_pool.cc` only the join in shutdown is modelled, in `CdpRequests`.
- Updaters, HTTP, installers, theme and plugin scanning, CSS and colour handling, bootstraps, crash dumps, the Lua machine and JavaScript generation: input and output, or foreign code.
