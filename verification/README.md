# Verified models of the debugger's stateful parts

Dafny 4.11 models of the parts of the debugger that keep state or carry arithmetic of their own, with proofs of
what those parts are for. `dafny verify dfyconfig.toml` checks everything.

- **Exception agent** (`Veh*.dfy`). The breakpoint tables of the injected agent as a state machine: `VehTables`,
  `VehHardware` and `VehMemory` hold the tables, debug registers and page protections, `VehEngine` the steps (a
  control request, the handler up to the pipe exchange, the handler after the reply, the agent's end). `VehImage`, `VehRearm`,
  `VehStepping` and `VehGuards` prove the invariants over runs with any number of threads, `VehRuns` states them from
  the first state on. `VehRequests` says what the requests achieve, `VehVerdicts` when the debugger is asked and what
  becomes of the exception. `VehAgent` is the agent itself: arrays and globals updated in place, each method proved to
  make the state machine's step.
- **Control packets** (`Bits`, `IoctlCodec`, `IoctlVectors`, `IoctlDriver`). The packet format, its bytes told one by
  one, and both ends of it as in-place algorithms on byte arrays.
- **Driver events and enumerations** (`EventQueue`, `EventRing`, `Enumeration`, `DriverEvents`). The circular event
  buffer and the bridge's deque refine one bounded queue; the client's growing-buffer loop runs against any driver that
  keeps state; reading events is followed from the client's packet through decoder and handler back to the client.
- **Debug session** (`DebugSession`, `DebugHistory`). Handlers that check under a lock, release it, act and check
  again, interleaved by any number of callers; whose request the stored session comes from.
- **Budget ledger** (`BudgetLedger`). Reserve, settle and journal, with exact arithmetic over the reals.
- **Framing** (`Numerals`, `Frames`, `Framing`, `FramingReader`). Content-Length frames, chunked streams, and waiting
  for a response among notifications.
- **Bridge codecs** (`JsonText`, `BridgeCrypto`, `BridgeCodecs`). Hex, JSON strings, the keyed stream and sealed
  envelopes. HMAC-SHA256 is an arbitrary function from key and text to 32 bytes that may fail.
- **Line editor** (`LineEditing`, `LineEditorConsole`). Keys, history and incremental drawing against a model of one
  terminal line.

`Order` holds minimum and maximum, `TextLines` the splitting of text into lines.

Where the source does not keep a property it seems to promise, the model follows the source: one lemma gives the exact
condition for all inputs, another an input on the failing side.

| what fails | when, exactly | an input |
|---|---|---|
| the fall-through after a failed pipe exchange plants 0xCC over entries that are gone | `VehImage.ReplyKeepsImage` | `VehImage.TemporaryStopCorrupts` |
| of two entries with one id the later one is lost | `VehRearm.ConsumeKeepsNone` | `VehRearm.SharedIdLoses` |
| STEP at a temporary, hardware or memory breakpoint finds nothing to mark | `VehStepping.StepReported` | `VehStepping.TemporaryStepLost`, `VehStepping.HardwareStepLost`, `VehStepping.MemoryStepLost` |
| a global and a thread-specific hardware breakpoint claim one slot | `VehHardware.RegistersFaithful` | `VehHardware.SharedSlotExample` |
| the decoder re-reads the payload size after moving the payload over it | `IoctlCodec.LengthIsRight` | `IoctlCodec.LengthLost` |
| so the client's event request is refused | `DriverEvents.RequestDrained` | `DriverEvents.ClientNeverReads` |
| an empty list on a later attempt leaves the earlier entries in place, and a third attempt succeeds even when truncated | `Enumeration.ChangingList` | `Enumeration.StaleEntries`, `Enumeration.Truncated` |
| a settlement above its reservation whose write fails is forgotten on restart | `BudgetLedger.FailingSettle` | `BudgetLedger.OverrunForgotten` |
| a declared length that wraps the end of a frame to zero is extracted for ever | `FramingReader.EndsExactly` | `Framing.StuckFrame` |
| envelopes overflow their buffer | `BridgeCrypto.EncryptOverflows` | `BridgeCrypto.FiftyNineBytes` |
| control characters in the \u form are not read back | `JsonText.StringRoundTrip` | `JsonText.ControlLost` |

A journal record of more than ten digits is printed rounded (`BudgetLedger.RestartCounts`,
`BudgetLedger.RoundingUndercounts`), and the agent's end leaves planted bytes behind (`VehImage.ShutdownLeaves`).

## Model

| member | source | states |
|---|---|---|
| VehRuns.SoftwareReachable | src/VehAgent/VehAgent.cpp:41-47 | From the empty tables on, for every run of requests, memory writes, exceptions and replies by any threads up to and past the agent's end: if fall-through replies and writes are safe, the program image holds and removing everything gives back the program as the writes left it; if ids are unique, each hit finds a free pending slot and writes are harmless, no enabled breakpoint is lost |
| VehImage.RunKeepsImage | src/VehAgent/VehAgent.cpp:706-727 | Every run with safe replies and safe writes keeps, for the program as the writes change it: enabled addresses distinct, each stored byte the program's, memory at a planted address 0xCC or that byte, every other byte the program's |
| VehImage.WriteKeepsImage | src/VehAgent/VehAgent.cpp:1458-1482 | A memory write keeps the image of the program it changes if and only if at planted addresses it writes the byte that is remembered there |
| VehImage.ShutdownLeaves | src/VehAgent/VehAgent.cpp:1766-1788 | The agent's end leaves the program behind if and only if no enabled entry is planted over a different byte; what stays planted is passed on to the process when hit |
| VehImage.ReplyKeepsImage | src/VehAgent/VehAgent.cpp:1277-1308 | A reply keeps the image if and only if it does not fall through over an address that no enabled entry has (and where the program itself has no 0xCC) |
| VehImage.TemporaryStopCorrupts | src/VehAgent/VehAgent.cpp:1108-1110 | For every temporary breakpoint: hit it and let the pipe fail, and a 0xCC stays in the program that no entry accounts for |
| VehImage.RemoveAllRestores | src/VehAgent/VehAgent.cpp:908-920 | From any state with the image intact, removing every entry gives back the program |
| VehImage.SetKeepsImage | src/VehAgent/VehAgent.cpp:864-906 | Setting keeps the image in every case: address 0, already planted, table full, unwritable page, success |
| VehImage.RemoveKeepsImage | src/VehAgent/VehAgent.cpp:908-920 | Removing by id or, failing that, by address keeps the image |
| VehImage.BreakpointKeepsImage | src/VehAgent/VehAgent.cpp:1098-1117 | A hit, temporary or not, known or not, keeps the image |
| VehImage.ExceptionKeepsImage | src/VehAgent/VehAgent.cpp:1046-1206 | Every exception keeps the image |
| VehRearm.RunLosesNone | src/VehAgent/VehAgent.cpp:684-727 | With a fresh id for each new breakpoint, a free pending slot at each hit and harmless writes, through every interleaving of threads, removals, re-adding under the same id and failed pipes, an enabled breakpoint has 0xCC in memory or a pending entry naming its id and address |
| VehRearm.WriteKeepsNone | src/VehAgent/VehAgent.cpp:1458-1482 | A memory write loses no breakpoint if and only if over each it writes 0xCC or a pending entry names it |
| VehRearm.HitKeepsNone | src/VehAgent/VehAgent.cpp:1098-1117 | A hit on a permanent breakpoint loses it exactly when no pending slot is free, its byte is not 0xCC and no earlier hit awaits it |
| VehRearm.ConsumeKeepsNone | src/VehAgent/VehAgent.cpp:706-727 | Without assuming unique ids: freeing a pending slot loses a breakpoint exactly when the slot names one that the search by id does not find first and nothing else keeps |
| VehRearm.SharedIdLoses | src/VehAgent/VehAgent.cpp:451-458 | For every pair of entries with one id: hit the later one, resume, single-step, and it stays lifted with nobody awaiting it |
| VehRearm.ReplyOrderly | src/VehAgent/VehAgent.cpp:1220-1308 | Every reply keeps ids and addresses unique and loses no breakpoint |
| VehStepping.StepPastBreakpoint | src/VehAgent/VehAgent.cpp:1220-1276 | Hit a permanent breakpoint with a slot free and nothing pending for the thread, others run, STEP or EXECUTION answers, others run: the thread continues at the breakpoint's address unless the reply sets another, with the trap flag unless an EXECUTION reply clears it; while the agent runs, its next single step is reported with STEP_COMPLETE after STEP and swallowed after EXECUTION, and a breakpoint still in the table is planted again |
| VehStepping.StepPastOtherStop | src/VehAgent/VehAgent.cpp:1243-1276 | At a stop that is not a breakpoint, with nothing pending for the thread, STEP makes its next single step reported if and only if a pending slot was free, whatever the others do meanwhile |
| VehStepping.StepReported | src/VehAgent/VehAgent.cpp:1243-1276 | For every waiting thread: after STEP, and whatever the others do, its next single step is reported with STEP_COMPLETE if and only if the agent still runs and either the step finishes this thread's re-arm and the stop after it is this thread's, or no re-arm is this thread's and its first pending entry is marked, named the breakpoint, or was taken from a free slot by this reply |
| VehStepping.StepLost | src/VehAgent/VehAgent.cpp:1264-1270 | A STEP reply to a breakpoint stop without a pending entry or re-arm of the thread is lost: the single step is not reported as complete, and under the breakpoint-only policy it is passed on to the process |
| VehStepping.TemporaryStepLost | src/VehAgent/VehAgent.cpp:1108-1115 | Every hit on a temporary breakpoint leads to such a stop |
| VehStepping.HardwareStepLost | src/VehAgent/VehAgent.cpp:1118-1126 | So does every hit on a hardware breakpoint |
| VehStepping.MemoryStepLost | src/VehAgent/VehAgent.cpp:1143-1150 | A STEP at a memory breakpoint is lost when another thread faults on a recorded page before the step, because the re-arm is then the other thread's |
| VehStepping.StepConsumes | src/VehAgent/VehAgent.cpp:1073-1093 | A single step with one pending entry is reported or swallowed by that entry's mark, clears it, and plants the breakpoint it names again |
| VehStepping.RunLeaves | src/VehAgent/VehAgent.cpp:684-727 | Nothing other threads or requests do changes a thread's pending entry, its stop, its context record or, unless a request sets this thread's context, its trap flag; nor does a re-arm become this thread's |
| VehMemory.WalkRecords | src/VehAgent/VehAgent.cpp:994-1034 | The walk records disjoint regions in page order with their protection stripped of the guard, guards exactly the recorded pages, and misses no guardable page of the range unless 128 regions are reached |
| VehMemory.SetThenRestore | src/VehAgent/VehAgent.cpp:636-646 | Set then restore gives back the old protections if and only if no recorded page carried a guard before |
| VehMemory.RestoreAt | src/VehAgent/VehAgent.cpp:636-646 | A restore gives each page of an ordered record its recorded protection and leaves every other page alone |
| VehGuards.RunKeepsGuards | src/VehAgent/VehAgent.cpp:1127-1152 | In every reachable state all recorded pages of enabled breakpoints are guarded or a re-arm is pending, for any number of faulting threads and past the agent's end, as long as records stay disjoint and no memory write runs from an unguarded page into a recorded one |
| VehGuards.WriteKeepsGuards | src/VehAgent/VehAgent.cpp:1464-1481 | A memory write keeps all guards if and only if its first page is guarded or no other page of its range is recorded: every page of the range gets the first page's protection back |
| VehGuards.RemoveKeepsGuards | src/VehAgent/VehAgent.cpp:1036-1044 | Removing a breakpoint leaves the others guarded if and only if it shares no recorded page with them |
| VehGuards.RearmGuards | src/VehAgent/VehAgent.cpp:648-658 | A re-arm guards every recorded page of every enabled breakpoint, overlapping or not |
| VehGuards.SetKeepsGuards | src/VehAgent/VehAgent.cpp:976-1034 | Setting a breakpoint keeps all guards, overlapping or not |
| VehRuns.GuardsReachable | src/VehAgent/VehAgent.cpp:41-47 | The guard invariant from the first state on, under the same conditions on new records and writes |
| VehHardware.RegistersFaithful | src/VehAgent/VehAgent.cpp:522-546 | The computed DR0-DR3 and DR7 decode (section 17.2.4 of the Intel SDM volume 3) to exactly the applicable entries, with no other bit set, if and only if applicable entries sharing a slot ask for the same thing |
| VehHardware.OnlyGlobalClashes | src/VehAgent/VehAgent.cpp:578-587 | For tables built by set and remove the registers are right if and only if no global entry clashes with one of the thread's own |
| VehHardware.OwnersStayUnique | src/VehAgent/VehAgent.cpp:922-974 | Set and remove never give one slot of one owner twice |
| VehHardware.SharedSlotExample | src/VehAgent/VehAgent.cpp:578-587 | Two accepted requests, one global and one for thread 7, after which thread 7's registers no longer match the table |
| VehHardware.ComputeExact | src/VehAgent/VehAgent.cpp:503-555 | After any prefix of the table each slot's address, enable, condition and length bits are those of its entry, and all clear for an unused slot |
| VehHardware.DecodeMeaning | src/VehAgent/VehAgent.cpp:480-501 | The access and length bits written for an entry decode to its access type and its length 1, 2, 4 or 8 |
| VehRuns.RegistersReachable | src/VehAgent/VehAgent.cpp:922-963 | In every reachable state a thread's registers are right exactly when no global entry clashes with its own |
| VehRequests.SetPlants | src/VehAgent/VehAgent.cpp:864-906 | In every state of a running agent: a set with an address that is not 0, not planted and in memory, on a writable page and with a free entry, puts 0xCC there and exactly one more enabled entry into the table, with that id, flag, address and the byte that was there; in every other case the state is unchanged |
| VehRequests.SetThenHit | src/VehAgent/VehAgent.cpp:1098-1117 | Set, then a thread runs into it: it asks the debugger with that id and address, continues at the address with the program's byte back, and the entry stays exactly when it is permanent, with the trap flag then |
| VehRequests.TableHolds | src/VehAgent/VehAgent.cpp:864-906 | From the first state: of any set requests for different addresses of the program the first 256 are planted, with 0xCC in memory at exactly these addresses, and the others change nothing |
| VehRequests.FirstTables | src/VehAgent/VehAgent.cpp:41-47 | The agent starts with 256 software, 16 hardware and 64 memory breakpoints and 64 pending steps, all free |
| VehRequests.RemoveLifts | src/VehAgent/VehAgent.cpp:908-920 | A removal writes back the remembered byte and clears the first enabled entry with the id or, when no entry has it, with a non-zero address; naming none it changes nothing |
| VehRequests.SetTakesSlot | src/VehAgent/VehAgent.cpp:922-963 | A hardware request enters the table if and only if address and length are not 0, the slot is below 4 and free for its owner, an entry is free and some thread's registers could be written; otherwise the enabled entries are those from before |
| VehRequests.RemoveFreesSlot | src/VehAgent/VehAgent.cpp:965-974 | Exactly the first enabled entry with the id is cleared |
| VehRequests.SetWatches | src/VehAgent/VehAgent.cpp:976-1034 | A memory request with address, size and access, a free entry and a page to guard adds one entry whose record holds whole runs of equal pages starting in the range, every guardable page of the range up to 128 regions; exactly the recorded pages become guarded; otherwise nothing changes |
| VehRequests.RemoveUnwatches | src/VehAgent/VehAgent.cpp:636-646 | The first enabled entry with the id is cleared and each page it recorded gets the recorded protection; other pages and entries stay |
| VehRequests.RemoveNothing | src/VehAgent/VehAgent.cpp:1036-1044 | An id that no enabled memory entry has removes nothing |
| VehRequests.RearmsExactly | src/VehAgent/VehAgent.cpp:648-658 | For disjoint records re-arming gives every recorded page exactly the protection recorded for it, with the guard, and touches no other page |
| VehRequests.WriteTakes | src/VehAgent/VehAgent.cpp:1458-1482 | A write of 1 to 256 bytes in memory and on pages that could be opened puts exactly these bytes there and gives the pages of the range the first one's protection; any other changes nothing |
| VehRequests.ContextTakes | src/VehAgent/VehAgent.cpp:1521-1547 | A context request gives a thread outside the handler the trap flag it carries, and no other thread |
| VehRequests.EndRestores | src/VehAgent/VehAgent.cpp:1766-1788 | At the end, for disjoint records, each recorded page has the protection remembered for it and every other its own, both tables are empty, and nothing else has changed |
| VehVerdicts.OtherVerdict | src/VehAgent/VehAgent.cpp:1186-1206 | An agent that has ended passes everything on; an exception no breakpoint explains reaches the debugger if and only if the policies matched it, it is a debug string, or the policy is not breakpoint-only |
| VehVerdicts.TrapVerdict | src/VehAgent/VehAgent.cpp:1098-1117 | A breakpoint trap is reported with id and address of the first enabled entry one byte below the instruction pointer, or as unexplained |
| VehVerdicts.StepVerdict | src/VehAgent/VehAgent.cpp:1071-1126 | A single step that finishes a re-arm or a pending step is swallowed unless the debugger asked for it; any other is reported, with the first enabled hardware entry whose slot DR6 names, DR6 then cleared |
| VehVerdicts.FaultVerdict | src/VehAgent/VehAgent.cpp:1127-1152 | A guard fault is reported with the first entry whose range (its end wrapping at 2^64) and access bits claim it, kind 1 being a write, 8 an execution and anything else a read; swallowed on a page only recorded; else unexplained; the first two make the thread re-arm, and the page hit has lost its guard |
| VehVerdicts.ReplyVerdict | src/VehAgent/VehAgent.cpp:1207-1326 | For every stop and disposition: passed on if and only if the debugger neither resumes nor steps, no breakpoint explains the stop and the policy does not continue; else resumed |
| VehVerdicts.SearchReplants | src/VehAgent/VehAgent.cpp:1277-1308 | At a software breakpoint a Search, or a broken pipe, plants 0xCC at the stop's address and frees the thread's first pending step |
| VehVerdicts.ExceptionEnds | src/VehAgent/VehAgent.cpp:1186-1326 | From an unexplained exception to its end, whatever other threads do in between: the debugger is asked exactly when the policies notice it, and its Search, or a broken pipe, passes it on exactly when they do not continue it |
| VehVerdicts.SetThenFault | src/VehAgent/VehAgent.cpp:976-1034 | Set a memory breakpoint, then the first access it claims and no other does is reported with its id and the address |
| VehAgent.Agent.constructor | src/VehAgent/VehAgent.cpp:41-47 | The empty tables of the documented sizes are the first state of every run |
| VehAgent.Agent.FindBreakpointByAddress | src/VehAgent/VehAgent.cpp:442-449 | The first enabled entry at the address, or none |
| VehAgent.Agent.FindBreakpointById | src/VehAgent/VehAgent.cpp:451-458 | The first enabled entry with the id, or none |
| VehAgent.Agent.SetSoftwareBreakpoint | src/VehAgent/VehAgent.cpp:864-906 | Table and target memory become the state machine's next state, in place on the tables |
| VehAgent.Agent.RemoveSoftwareBreakpoint | src/VehAgent/VehAgent.cpp:908-920 | Table and target memory become the state machine's next state, in place on the tables |
| VehAgent.Agent.AddPendingStep | src/VehAgent/VehAgent.cpp:684-694 | First free slot taken; nothing changes when there is none |
| VehAgent.Agent.MarkPendingStepStop | src/VehAgent/VehAgent.cpp:696-704 | Only the first entry of the thread and id is marked |
| VehAgent.Agent.ConsumePendingStep | src/VehAgent/VehAgent.cpp:706-727 | Slot freed, breakpoint planted again when the table still has it at that address, and the mark returned |
| VehAgent.Agent.ComputeRegisters | src/VehAgent/VehAgent.cpp:503-555 | The bit loop computes the registers proved faithful above |
| VehAgent.Agent.SetHardwareBreakpoint | src/VehAgent/VehAgent.cpp:922-963 | The table becomes the state machine's next state, in place on the tables; an entry that cannot be applied is withdrawn |
| VehAgent.Agent.RemoveHardwareBreakpoint | src/VehAgent/VehAgent.cpp:965-974 | The table becomes the state machine's next state, in place on the tables |
| VehAgent.Agent.FindHardwareBreakpointByDr6 | src/VehAgent/VehAgent.cpp:598-606 | The first enabled entry whose slot bit is set in DR6, or none |
| VehAgent.Agent.RearmMemoryBreakpoints | src/VehAgent/VehAgent.cpp:648-658 | Page protections become those of a re-arm of every enabled entry |
| VehAgent.Agent.SetMemoryBreakpoint | src/VehAgent/VehAgent.cpp:976-1034 | The page loop records and guards what the walk specifies |
| VehAgent.Agent.RemoveMemoryBreakpoint | src/VehAgent/VehAgent.cpp:1036-1044 | Table and page protections become the state machine's next state, in place on the tables |
| VehAgent.Agent.RestoreMemoryBreakpoint | src/VehAgent/VehAgent.cpp:636-646 | The region loop restores what the specification restores |
| VehAgent.Agent.FindMemoryBreakpointByFault | src/VehAgent/VehAgent.cpp:669-682 | The first enabled entry whose range holds the fault and whose access matches, or none |
| VehAgent.Agent.IsGuardedFaultAddress | src/VehAgent/VehAgent.cpp:620-634 | True exactly when an enabled entry recorded the page |
| VehAgent.Agent.Ask | src/VehAgent/VehAgent.cpp:1186-1206 | The stop is recorded and the debugger asked, or the exception is passed on, as the policy decides |
| VehAgent.Agent.HandleBreakpoint | src/VehAgent/VehAgent.cpp:1098-1117 | Tables, memory, trap flag and instruction pointer become the state machine's next state, in place on the tables |
| VehAgent.Agent.HandleSingleStep | src/VehAgent/VehAgent.cpp:1073-1126 | Guard re-arm first, then pending step, then hardware with DR6 cleared: the state machine's next state, in place on the tables |
| VehAgent.Agent.HandleGuardFault | src/VehAgent/VehAgent.cpp:1127-1152 | Re-arm request, trap flag and report become the state machine's next state, in place on the tables |
| VehAgent.Agent.HandleException | src/VehAgent/VehAgent.cpp:1046-1206 | The handler up to the pipe exchange, with its early exit once the agent has ended, is the exception step of the state machine |
| VehAgent.Agent.HandleReply | src/VehAgent/VehAgent.cpp:1207-1326 | The handler after the pipe exchange, with the registers the reply sets, is the reply step of the state machine |
| VehAgent.Agent.ApplyContext | src/VehAgent/VehAgent.cpp:291-315 | Exactly the registers the reply selects change in the context record |
| VehAgent.Agent.WriteMemory | src/VehAgent/VehAgent.cpp:1458-1482 | Nothing changes for a size of 0 or above 256 or pages that cannot be opened; else exactly the range is written and its pages get the first one's protection |
| VehAgent.Agent.SetContext | src/VehAgent/VehAgent.cpp:1521-1563 | Changes the trap flag of a thread that is not waiting in the handler |
| VehAgent.Agent.End | src/VehAgent/VehAgent.cpp:1766-1788 | Every memory breakpoint is restored and cleared, every hardware breakpoint cleared, software breakpoints stay |
| IoctlCodec.AcceptsExactlyPackets | driver/WinDbgLiteMemDrv/WinDbgLiteMemDrv.c:2349-2382 | For every buffer, code and payload: the decoder succeeds and leaves the payload at the front if and only if the buffer starts with the packet the client builds for that payload |
| IoctlCodec.RecordedLength | driver/WinDbgLiteMemDrv/WinDbgLiteMemDrv.c:2379-2380 | Every client packet decodes to its payload; the length recorded with it is the word the move has left in the size's place: payload bytes 12 to 15 as far as they reach, then bytes of the size |
| IoctlCodec.LengthIsRight | driver/WinDbgLiteMemDrv/WinDbgLiteMemDrv.c:2379-2380 | From 16 bytes on that word is the payload's own bytes 12 to 15; it is the size if and only if the payload has at most 12 bytes or its bytes from the twelfth on spell the size |
| IoctlCodec.LengthLost | driver/WinDbgLiteMemDrv/WinDbgLiteMemDrv.c:2379-2380 | Thirteen zero bytes decode well and are recorded as none |
| IoctlCodec.DecodeAnswers | driver/WinDbgLiteMemDrv/WinDbgLiteMemDrv.c:2349-2382 | For every buffer: the status, by length, fixed header words, header checksum, announced size and payload checksum in this order, and what is left in the buffer |
| IoctlCodec.PayloadChangeRejected | driver/WinDbgLiteMemDrv/WinDbgLiteMemDrv.c:2374-2377 | Changing any one byte of an accepted packet's encrypted payload gives STATUS_DATA_ERROR and wipes exactly the payload |
| IoctlCodec.HeaderChangeRejected | driver/WinDbgLiteMemDrv/WinDbgLiteMemDrv.c:2359-2368 | Changing exactly one header word of an accepted packet gives STATUS_INVALID_PARAMETER and leaves the buffer alone |
| IoctlCodec.OneWordApart | src/Common/WinDbgLiteMemIoctl.h:381-390 | Of two headers differing in one word at most one carries a right checksum and fixed fields |
| IoctlCodec.FnvOneByte | src/Common/WinDbgLiteMemIoctl.h:370-379 | The payload checksum differs for any two payloads that differ in one byte, from any running hash |
| IoctlCodec.FnvVectors | src/Common/WinDbgLiteMemIoctl.h:370-379 | The checksum of nothing and of "a" are the published FNV-1a values (draft-eastlake-fnv) |
| IoctlCodec.PrimeInverse | src/Common/WinDbgLiteMemIoctl.h:370-379 | Multiplying by the FNV prime modulo 2^32 can be undone |
| IoctlCodec.MixOneWord | src/Common/WinDbgLiteMemIoctl.h:381-390 | The rotate-xor mix differs for any two word lists that differ in one word |
| IoctlCodec.CryptOneByte | src/Common/WinDbgLiteMemIoctl.h:392-400 | A change of one byte before the stream changes that byte behind it and no other |
| IoctlVectors.SealedByte | src/Common/WinDbgLiteMemIoctl.h:392-400 | For every packet: encrypted byte i is the plain byte xored with the four bytes of the running key after i + 1 steps of key * 1664525 + 1013904223, from the protocol key, the code and the size times 0x45D9F3B |
| IoctlVectors.OneZero | src/Common/WinDbgLiteMemIoctl.h:392-400 | One zero byte under 0x2220A0 goes out as 0x98 |
| IoctlVectors.FourZeros | src/Common/WinDbgLiteMemIoctl.h:392-400 | Four zero bytes under 0x2220A0 go out as 90 4E 8B D5 |
| IoctlVectors.ZeroPacket | src/Common/WinApiDynamic.cpp:58-83 | All 29 bytes of the packet for one zero byte, magic, sizes and both checksums included |
| IoctlCodec.PacketStart | src/Common/WinApiDynamic.cpp:58-83 | A buffer starts with the client's packet if and only if its header parses to the packet's header and its payload decrypts to the payload |
| IoctlCodec.HeaderRoundTrip | src/Common/WinDbgLiteMemIoctl.h:356-364 | A buffer parses to a header if and only if it starts with that header's 28 bytes |
| Bits.Rol5Injective | src/Common/WinDbgLiteMemIoctl.h:366-368 | The rotation by five loses nothing |
| IoctlDriver.CryptPayload | src/Common/WinDbgLiteMemIoctl.h:392-400 | In place, the stated bytes become their stream encryption and every other byte stays |
| IoctlDriver.ChecksumOf | src/Common/WinDbgLiteMemIoctl.h:370-379 | The loop computes the checksum of the stated bytes |
| IoctlDriver.MoveToFront | driver/WinDbgLiteMemDrv/WinDbgLiteMemDrv.c:2379-2379 | The overlapping move brings the bytes to the front and changes nothing behind them |
| IoctlDriver.DecodeIoctlInput | driver/WinDbgLiteMemDrv/WinDbgLiteMemDrv.c:2349-2382 | Status, whole buffer and recorded length are those of the decoder specification, null buffer and every error exit included |
| IoctlDriver.BuildSecureDriverInput | src/Common/WinApiDynamic.cpp:58-83 | Fails exactly for a missing payload or one above 2^32 - 29 bytes, else fills the vector with the specified packet |
| EventQueue.RunConserves | driver/WinDbgLiteMemDrv/WinDbgLiteMemDrv.c:744-759 | Over any run of queueing and draining, what was put in is what left (overwritten, delivered or skipped) in order followed by what still waits |
| EventQueue.KeepsNewest | driver/WinDbgLiteMemDrv/WinDbgLiteMemDrv.c:744-759 | Between drains the queue holds exactly the newest 256 events |
| EventQueue.DrainsShortestPrefix | driver/WinDbgLiteMemDrv/WinDbgLiteMemDrv.c:873-891 | A drain takes the shortest prefix holding the wanted number of matches, or the whole queue when there are fewer |
| EventQueue.FatesMeaning | driver/WinDbgLiteMemDrv/WinDbgLiteMemDrv.c:873-891 | The events a drain delivers are exactly the matches of the prefix it takes, in order |
| EventQueue.DeliversOwn | driver/WinDbgLiteMemDrv/WinDbgLiteMemDrv.c:873-891 | Of what a drain takes off it delivers exactly the events of the process asked for, each as often as it was there, or all when none is asked for |
| EventQueue.FullDrain | driver/WinDbgLiteMemDrv/WinDbgLiteMemDrv.c:873-891 | An unfiltered drain with room for the whole queue hands all of it over |
| EventRing.Ring.QueueDriverEvent | driver/WinDbgLiteMemDrv/WinDbgLiteMemDrv.c:744-759 | The circular buffer with head and count refines the bounded queue, wrap and overwrite included |
| EventRing.Ring.QueryDriverEvents | driver/WinDbgLiteMemDrv/WinDbgLiteMemDrv.c:848-893 | Queue and reply become those of the handler on the queue, each refusal included |
| EventRing.ReplyFits | driver/WinDbgLiteMemDrv/WinDbgLiteMemDrv.c:863-891 | A reply of 8 bytes and 560 for each event fits the output buffer and the request's limit, stops short of the queue's end only at one of the two, and holds exactly the events asked for that left the queue |
| EventRing.QueryRefused | driver/WinDbgLiteMemDrv/WinDbgLiteMemDrv.c:848-862 | Refused, with the queue left alone, if and only if the recorded input is below 16 bytes, the output below 8, or there is no buffer |
| EventRing.Ring.Drain | driver/WinDbgLiteMemDrv/WinDbgLiteMemDrv.c:873-891 | The loop takes the specified prefix off the ring |
| EventRing.Pushed | driver/WinDbgLiteMemDrv/WinDbgLiteMemDrv.c:744-759 | Writing one slot and moving head or count is a push on the window of waiting events, full or not |
| EventRing.Deque.QueueEvent | src/WinDbgLiteCli/McpBridgePlugin/McpBridgePlugin.cpp:650-660 | The bridge's deque makes the same pushes as the driver's ring |
| EventRing.TextsPushed | src/WinDbgLiteCli/McpBridgePlugin/McpBridgePlugin.cpp:650-660 | The deque of event texts is the driver's queue of events turned into texts |
| EventRing.Deque.DrainEventsJson | src/WinDbgLiteCli/McpBridgePlugin/McpBridgePlugin.cpp:662-677 | The answer holds all texts, oldest first, with commas between them, and nothing is left |
| Enumeration.UnchangedList | src/Common/WinApiDynamic.cpp:110-201 | Against a list that does not change the loop returns TRUE if and only if header and list fit in 16 MB, after one attempt or two, with the whole list in order |
| Enumeration.ChangingList | src/Common/WinApiDynamic.cpp:160-180 | Against a list that changes: a success holds the list of its last attempt exactly when that list is not empty (or it was the first attempt) and, on the third attempt, fits |
| Enumeration.StaleEntries | src/Common/WinApiDynamic.cpp:160-180 | Forty thousand entries that are gone at the second attempt are handed over in part, as a success |
| Enumeration.Truncated | src/Common/WinApiDynamic.cpp:174-180 | A list that outgrows the third buffer is handed over truncated, as a success |
| Enumeration.OneAttempt | driver/WinDbgLiteMemDrv/WinDbgLiteMemDrv.c:896-957 | One attempt against the handler ends the loop exactly when the whole list fits the buffer, no attempt is left or the buffer cannot grow |
| Enumeration.OneAnswer | src/Common/WinApiDynamic.cpp:132-197 | What any answer of any driver leads to: errors passed on, three of them closing the handle, short answers refused, entries cut to the count and left standing when there are none, and the three ways the loop goes on or ends |
| Enumeration.ListAnswers | driver/WinDbgLiteMemDrv/WinDbgLiteMemDrv.c:896-957 | A list handler counts the whole list and hands over the longest front of it that fits behind the header |
| Enumeration.NotStarted | src/Common/WinApiDynamic.cpp:112-130 | No vector, driver switched off, no handle: the error told and nothing done |
| Enumeration.QueryDriverEnumerationResult | src/Common/WinApiDynamic.cpp:105-201 | The refusals and the retry loop compute the specified outcome against any driver that keeps state |
| Enumeration.EnumerateUnchanged | src/Common/WinApiDynamic.cpp:105-201 | The method itself against an unchanging list: TRUE exactly when header and list fit in 16 MB, at most two attempts, the whole list |
| Enumeration.EnumerateChanging | src/Common/WinApiDynamic.cpp:105-201 | The method itself against a changing list: what a success holds after one, two and three attempts |
| DriverEvents.RequestDrained | driver/WinDbgLiteMemDrv/WinDbgLiteMemDrv.c:848-893 | Client packet, decoder and event handler together: a 16-byte request is drained if and only if the word at its byte 12 is at least 16; otherwise the queue is unchanged and the buffer is reported too small |
| DriverEvents.ReadOnce | src/Common/WinApiDynamic.cpp:160-180 | With the client's loop on top: one attempt hands over exactly the matches that left the queue, or fails with nothing handed over and nothing taken |
| DriverEvents.RefusedPacket | driver/WinDbgLiteMemDrv/WinDbgLiteMemDrv.c:3882-3890 | A packet the decoder refuses is answered with its status and takes no event |
| DriverEvents.ClientNeverReads | src/Common/WinApiDynamic.cpp:2266-2279 | The client's own request, whose last words are zero, is always refused: no event is ever read or lost |
| DriverEvents.DeviceControl | driver/WinDbgLiteMemDrv/WinDbgLiteMemDrv.c:3882-3890 | The dispatcher on the buffer and the ring, in place, computes the specified answer and queue |
| DriverEvents.QueryDriverEvents | src/Common/WinApiDynamic.cpp:2266-2279 | No vector or a limit of zero is an invalid parameter; else the call fails and leaves the queue alone |
| DebugSession.RunKeeps | driver/WinDbgLiteMemDrv/WinDbgLiteMemDrv.c:1999-2106 | Under every interleaving by any number of callers: open debug objects are the installed one plus those of attaches in flight, one owner each; every object ever created is open or was closed exactly once; the process id is set exactly when a handle is installed |
| DebugSession.ReachableOwned | driver/WinDbgLiteMemDrv/WinDbgLiteMemDrv.c:1168-1170 | That ownership in every state reached from the driver's first one |
| DebugSession.StepKeeps | driver/WinDbgLiteMemDrv/WinDbgLiteMemDrv.c:2027-2061 | Every step of every caller keeps that ownership, lost races and kernel failures included |
| DebugSession.NothingLeaks | driver/WinDbgLiteMemDrv/WinDbgLiteMemDrv.c:3859-3871 | With no attach in flight only the installed object is open, and close or unload leaves none |
| DebugSession.StopEndsOwnSession | driver/WinDbgLiteMemDrv/WinDbgLiteMemDrv.c:2084-2102 | A stop closes a session if and only if the one it looked up is still installed, and that is its own process's |
| DebugSession.AttachEnds | driver/WinDbgLiteMemDrv/WinDbgLiteMemDrv.c:2035-2059 | An attach in flight ends by installing its own object or by closing it |
| DebugHistory.StoredIsAsked | driver/WinDbgLiteMemDrv/WinDbgLiteMemDrv.c:2057-2058 | However callers interleave from the first state on, the stored process id is the one in the attach request of the caller that created the installed object |
| DebugHistory.SuccessStores | driver/WinDbgLiteMemDrv/WinDbgLiteMemDrv.c:2051-2063 | An attach that returns success leaves its own request's process id and its own object stored |
| DebugHistory.AttachSucceeds | driver/WinDbgLiteMemDrv/WinDbgLiteMemDrv.c:2034-2063 | Where no session is stored, an undisturbed attach of any process but 0 by an idle caller succeeds, with a new object open and stored for that process |
| DebugHistory.RequestAnswered | driver/WinDbgLiteMemDrv/WinDbgLiteMemDrv.c:2015-2032 | What an idle caller's attach and stop are told at once, for every request and state |
| DebugHistory.AttachThenStop | driver/WinDbgLiteMemDrv/WinDbgLiteMemDrv.c:2084-2105 | After an undisturbed attach of p, a stop of q gets through if and only if q is p; another attach finds the device busy; the finished stop leaves nothing stored or open |
| DebugHistory.LosersAreTold | driver/WinDbgLiteMemDrv/WinDbgLiteMemDrv.c:2046-2056 | A refused kernel call and a lost race each end in closing the own object, with a reason of their own |
| DebugHistory.OneWinner | driver/WinDbgLiteMemDrv/WinDbgLiteMemDrv.c:2051-2056 | Of two attaches that both got past the first check the first to install has the session, the other is told the device is busy and its object is closed |
| DebugSession.Driver.BeginAttach | driver/WinDbgLiteMemDrv/WinDbgLiteMemDrv.c:2008-2032 | First lock section of an attach, with its refusals |
| DebugSession.Driver.CreateDebugObject | driver/WinDbgLiteMemDrv/WinDbgLiteMemDrv.c:2034-2038 | A fresh object, owned by this attach, or a failure |
| DebugSession.Driver.DebugActiveProcess | driver/WinDbgLiteMemDrv/WinDbgLiteMemDrv.c:2040-2049 | A kernel failure marks the object for closing |
| DebugSession.Driver.InstallSession | driver/WinDbgLiteMemDrv/WinDbgLiteMemDrv.c:2051-2059 | Second lock section: install unless another session is there |
| DebugSession.Driver.GiveUp | driver/WinDbgLiteMemDrv/WinDbgLiteMemDrv.c:2046-2056 | The loser closes its own object and reports why |
| DebugSession.Driver.BeginStop | driver/WinDbgLiteMemDrv/WinDbgLiteMemDrv.c:2066-2090 | First lock section of a stop |
| DebugSession.Driver.EndStop | driver/WinDbgLiteMemDrv/WinDbgLiteMemDrv.c:2098-2106 | Second lock section of a stop |
| DebugSession.Driver.CloseDebugSessionLocked | driver/WinDbgLiteMemDrv/WinDbgLiteMemDrv.c:1999-2005 | The installed object is closed once and forgotten |
| DebugSession.Driver.CloseDevice | driver/WinDbgLiteMemDrv/WinDbgLiteMemDrv.c:3859-3871 | Closing the device ends the session |
| BudgetLedger.RunConserves | src/WinDbgLiteCli/agent/source/AgentBudget.h:48-65 | Until a journal write fails, used tokens and cost equal the start plus the charges of settled reservations plus the full amount of the others, and the journal agrees |
| BudgetLedger.RecoveryNeverUndercounts | src/WinDbgLiteCli/agent/source/AgentBudget.h:20-34 | At every point of every run, through any pattern of failing and succeeding writes, the last accepted record counts at least what is owed, provided settlements whose write fails (or that come after) report at most their reservation |
| BudgetLedger.FailingSettle | src/WinDbgLiteCli/agent/source/AgentBudget.h:57-65 | That proviso is exact: when a settlement's write is the first to fail, the journal undercounts precisely if usage exceeds the reservation |
| BudgetLedger.OverrunForgotten | src/WinDbgLiteCli/agent/source/AgentBudget.h:57-65 | Such a run: 150 tokens reserved, 180 used, the settlement's write refused, and the journal counts 150 of the 180 owed |
| BudgetLedger.RestartCounts | src/WinDbgLiteCli/agent/source/AgentBudget.h:15-34 | A process restarted from the last accepted text, each number printed as a nearest one of ten digits, starts if and only if the printed record is readable in its currency and its own write succeeds; it then counts at least what was owed wherever the recorded amounts have at most ten digits |
| BudgetLedger.RoundingUndercounts | src/WinDbgLiteCli/agent/source/AgentBudget.h:15-19 | Eleven digits are too many: 12345678901 tokens can only be printed as 12345678900 |
| BudgetLedger.TokensPrintClose | src/WinDbgLiteCli/agent/source/AgentBudget.h:15-19 | Token counts below 10^12 lose less than 100 tokens in print |
| BudgetLedger.FreshCovered | src/WinDbgLiteCli/agent/source/AgentBudget.h:24-34 | A ledger started without an old record, its first write accepted, meets the premises of conservation and recovery |
| BudgetLedger.FailureLasts | src/WinDbgLiteCli/agent/source/AgentBudget.h:48-55 | After one failed write no reservation is granted and the used amounts stand still |
| BudgetLedger.SettleAmounts | src/WinDbgLiteCli/agent/source/AgentBudget.h:57-62 | With an accepted write unknown usage leaves the tokens alone and known usage takes the reservation's place; the cost changes if and only if there is a cost limit, it is known and in the ledger's currency; with a refused write nothing is corrected |
| BudgetLedger.SettleAnswers | src/WinDbgLiteCli/agent/source/AgentBudget.h:63-64 | True if and only if the journal is sound and both limits hold, the cost's up to 1e-9 |
| BudgetLedger.ReserveAnswers | src/WinDbgLiteCli/agent/source/AgentBudget.h:35-56 | Each verdict if and only if: prices missing under a cost limit, earlier failure, not one output token within both limits, write refused, granted |
| BudgetLedger.OutputIsLargest | src/WinDbgLiteCli/agent/source/AgentBudget.h:38-46 | n tokens are within the output granted if and only if they are within what was asked for (4096 if nothing was), both limits hold with them, and a priced output under a cost limit is at most 65536 |
| BudgetLedger.ReserveAmounts | src/WinDbgLiteCli/agent/source/AgentBudget.h:48-55 | A granted request adds exactly its input, its output and, under a cost limit, their price, to what is used and journalled; one not written is counted all the same; any other changes nothing |
| BudgetLedger.RunCounts | src/WinDbgLiteCli/agent/source/AgentBudget.h:35-65 | Until a write fails, used tokens and cost are what the run started with plus what each operation says, read off requests and usages |
| BudgetLedger.StartAccepts | src/WinDbgLiteCli/agent/source/AgentBudget.h:24-34 | A start succeeds if and only if writes are sound and the old record is missing or complete, whole and in range and in the ledger's currency; what it takes over, failing starts included |
| BudgetLedger.GrantWithinLimits | src/WinDbgLiteCli/agent/source/AgentBudget.h:35-56 | A granted reservation keeps every limit, with 1 <= output <= requested (4096 if none requested), through truncation and floor |
| BudgetLedger.GrantIsLargest | src/WinDbgLiteCli/agent/source/AgentBudget.h:38-47 | A cut output is the largest the limits allow, apart from the cap of 65536 on priced outputs |
| BudgetLedger.LimitsKept | src/WinDbgLiteCli/agent/source/AgentBudget.h:57-65 | The limits hold at every point of a run whose settlements report at most what was reserved |
| BudgetLedger.ModestSettlement | src/WinDbgLiteCli/agent/source/AgentBudget.h:57-65 | A settlement within its reservation is reported good exactly when the journal is sound |
| BudgetLedger.AgentBudgetLedger.Initialize | src/WinDbgLiteCli/agent/source/AgentBudget.h:24-34 | Version, tokens, cost and currency are taken over in the source's order until one is missing or not acceptable; what was taken over before stays |
| BudgetLedger.AgentBudgetLedger.Reserve | src/WinDbgLiteCli/agent/source/AgentBudget.h:35-56 | Ledger, verdict, output and reservation are the specified ones; nothing is handed out on a refusal |
| BudgetLedger.AgentBudgetLedger.Settle | src/WinDbgLiteCli/agent/source/AgentBudget.h:57-65 | The ledger becomes the specified one and the result says whether journal and limits are sound |
| BudgetLedger.AgentBudgetLedger.PersistNow | src/WinDbgLiteCli/agent/source/AgentBudget.h:20-20 | The writer is asked even after a failure, which never goes away |
| Framing.FramesSurviveChunking | plugins/McpPlugin.cpp:389-399 | For any messages (bodies may hold CRLFCRLF) and any cutting of their frames into chunks, the reader gets exactly the messages in order and ends with an empty buffer |
| Framing.ChunkingIndependent | plugins/McpPlugin.cpp:389-399 | For any byte stream whose announced lengths do not wrap, the messages and the remainder do not depend on the chunks |
| Framing.DrainSplit | plugins/McpPlugin.cpp:275-324 | Draining a prefix and then the remainder with the rest of the stream is draining the stream |
| Framing.Progress | plugins/McpPlugin.cpp:316-324 | Extraction leaves the buffer as it was if and only if the announced end wraps to zero modulo 2^64; without wrapping it shortens the buffer |
| Framing.StuckFrame | plugins/McpPlugin.cpp:303-324 | A header with length -23 is such a frame: the same empty message comes out again and again |
| Frames.ExtractExtends | plugins/McpPlugin.cpp:275-324 | Extraction of (m, r) from b gives (m, r + x) from b + x if and only if x is empty or the announced body is wholly in b |
| Frames.FrameRoundTrip | plugins/McpPlugin.cpp:257-273 | Printing a message and extracting it gives it back and leaves what follows |
| Frames.PartialFrame | plugins/McpPlugin.cpp:275-318 | Any proper prefix of a frame extracts nothing |
| Frames.NamedLength | plugins/McpPlugin.cpp:286-310 | A header line declares its length whatever the case of the name and however wide the gap before the digits |
| Frames.NumberRead | plugins/McpPlugin.cpp:299-306 | A decimal number below 2^64 is read with or without a plus, negated modulo 2^64 with a minus, and not read when larger; what follows its digits does not matter |
| Frames.OtherLine | plugins/McpPlugin.cpp:287-310 | A line that names no length is passed over |
| FramingReader.AwaitIsSearch | plugins/McpPlugin.cpp:389-413 | For any stream whose announced lengths do not wrap, the response found, and what is left, are those of searching the whole stream at once, however the bytes arrive and whenever the wait ends |
| FramingReader.UntilMeaning | plugins/McpPlugin.cpp:392-399 | The search picks the first message that is a response and leaves exactly the messages behind it |
| FramingReader.EndsExactly | plugins/McpPlugin.cpp:393-399 | The extraction loop ends if and only if it never reaches a message that is no response and whose announced end wraps to zero; otherwise no number of rounds is enough |
| FramingReader.Reader.TryExtractFramedMessage | plugins/McpPlugin.cpp:275-324 | Message and remaining buffer are the specified ones; a refused extraction leaves the buffer alone |
| FramingReader.Reader.ParseLength | plugins/McpPlugin.cpp:281-310 | The line loop finds the length of the first line that names one |
| FramingReader.Reader.WaitForResponse | plugins/McpPlugin.cpp:389-413 | Where each extraction loop ends, the two loops compute the specified wait |
| FramingReader.Reader.TakeResponse | plugins/McpPlugin.cpp:392-399 | Required to end and nothing else, the extraction loop finds the first response or runs the buffer dry |
| BridgeCrypto.XorCryptInvolution | src/WinDbgLiteCli/McpBridgePlugin/McpBridgePlugin.cpp:206-232 | XorCrypt with one key and nonce undoes itself, and keeps the length, if and only if every block the message needs can be computed |
| BridgeCrypto.XorBytewise | src/WinDbgLiteCli/McpBridgePlugin/McpBridgePlugin.cpp:206-232 | Each byte is combined with byte i mod 32 of the HMAC of stream, nonce and block number i / 32, which wraps at 2^32 |
| BridgeCrypto.EnvelopeRoundTrip | src/WinDbgLiteCli/McpBridgePlugin/McpBridgePlugin.cpp:263-293 | Whatever EncryptPayload seals, DecryptPayload accepts and gives back, through hex, field search and tag |
| BridgeCrypto.OpensExactly | src/WinDbgLiteCli/McpBridgePlugin/McpBridgePlugin.cpp:263-293 | For every envelope: opened if and only if the three fields are there, data and tag are hex, the HMAC of packet, nonce and data equals the decoded tag, and the blocks can be computed; and what it gives |
| BridgeCrypto.TagDecides | src/WinDbgLiteCli/McpBridgePlugin/McpBridgePlugin.cpp:285-289 | An envelope of any nonce, data and tag is opened if and only if the tag is right and the blocks are there |
| BridgeCrypto.OtherTagRefused | src/WinDbgLiteCli/McpBridgePlugin/McpBridgePlugin.cpp:285-289 | A sealed envelope with its tag replaced by any other 32 bytes is refused |
| BridgeCrypto.SealedText | src/WinDbgLiteCli/McpBridgePlugin/McpBridgePlugin.cpp:253-260 | The sealed text: version, nonce, data under the stream, and the HMAC of packet, nonce and data, in this order |
| BridgeCrypto.BlocksMeaning | src/WinDbgLiteCli/McpBridgePlugin/McpBridgePlugin.cpp:206-232 | The blocks a message needs are one for every 32 bytes or part of them, each the HMAC of stream, nonce and its number |
| BridgeCrypto.EncryptSucceeds | src/WinDbgLiteCli/McpBridgePlugin/McpBridgePlugin.cpp:234-261 | Sealing succeeds if and only if there is a secret and a nonce, blocks and tag can be computed, and the message has at most 58 bytes (256-byte buffer) |
| BridgeCrypto.EncryptOverflows | src/WinDbgLiteCli/McpBridgePlugin/McpBridgePlugin.cpp:234-261 | Everything else being in order, exactly the messages above 58 bytes overflow the buffer |
| BridgeCrypto.FiftyNineBytes | src/WinDbgLiteCli/McpBridgePlugin/McpBridgePlugin.cpp:253-259 | With an HMAC that always works, every 59-byte message overflows |
| JsonText.StringRoundTrip | src/WinDbgLiteCli/McpBridgePlugin/McpBridgePlugin.cpp:372-411 | Extracting the string of a one-pair object printed with JsonEscape gives it back if and only if no control character needs the \u form; that form comes back as plain text (section 7 of RFC 8259) |
| JsonText.ControlLost | src/WinDbgLiteCli/McpBridgePlugin/McpBridgePlugin.cpp:349-355 | Byte 1 under any key comes back as the characters u0001 |
| JsonText.UnescapeChar | src/WinDbgLiteCli/McpBridgePlugin/McpBridgePlugin.cpp:334-359 | Every printed character reads back as itself, except the \u form |
| JsonText.FieldRead | src/WinDbgLiteCli/McpBridgePlugin/McpBridgePlugin.cpp:372-411 | The string read is the one behind the first quote after the first colon after the key |
| JsonText.Unclosed | src/WinDbgLiteCli/McpBridgePlugin/McpBridgePlugin.cpp:385-411 | A string without a closing quote is not read |
| JsonText.NoColon | src/WinDbgLiteCli/McpBridgePlugin/McpBridgePlugin.cpp:372-384 | Without a colon after the key there is no field |
| JsonText.HexRoundTrip | src/WinDbgLiteCli/McpBridgePlugin/McpBridgePlugin.cpp:85-116 | Decoding undoes encoding for all bytes |
| JsonText.HexText | src/WinDbgLiteCli/McpBridgePlugin/McpBridgePlugin.cpp:85-94 | Each byte is printed as two lower-case digits, the high one first |
| JsonText.HexAccepts | src/WinDbgLiteCli/McpBridgePlugin/McpBridgePlugin.cpp:96-116 | The decoder accepts exactly even-length text of hex digits of either case |
| JsonText.HexReencodes | src/WinDbgLiteCli/McpBridgePlugin/McpBridgePlugin.cpp:96-116 | Encoding what was decoded gives the text in lower case |
| BridgeCodecs.HexEncode | src/WinDbgLiteCli/McpBridgePlugin/McpBridgePlugin.cpp:85-94 | The loop computes the specified text |
| BridgeCodecs.HexDecode | src/WinDbgLiteCli/McpBridgePlugin/McpBridgePlugin.cpp:96-116 | The loop accepts and decodes as specified |
| BridgeCodecs.ConstantTimeEqual | src/WinDbgLiteCli/McpBridgePlugin/McpBridgePlugin.cpp:161-172 | The or-accumulating loop is equality of contents |
| BridgeCodecs.XorCrypt | src/WinDbgLiteCli/McpBridgePlugin/McpBridgePlugin.cpp:206-232 | The block loop with offset and counter computes the specified stream, and nothing when a block fails |
| BridgeCodecs.JsonEscape | src/WinDbgLiteCli/McpBridgePlugin/McpBridgePlugin.cpp:334-359 | The loop prints as specified |
| BridgeCodecs.ExtractString | src/WinDbgLiteCli/McpBridgePlugin/McpBridgePlugin.cpp:372-411 | The searches and the reading loop extract as specified, missing key and unclosed string included |
| BridgeCodecs.EncryptPayload | src/WinDbgLiteCli/McpBridgePlugin/McpBridgePlugin.cpp:234-261 | Refusals, overflow and envelope as specified |
| BridgeCodecs.DecryptPayload | src/WinDbgLiteCli/McpBridgePlugin/McpBridgePlugin.cpp:263-293 | Accepts and decrypts as specified |
| LineEditing.AlwaysShows | src/WinDbgLiteCli/LineEditor.cpp:100-208 | After every key sequence the screen line is prompt plus buffer with the caret at prompt length plus cursor |
| LineEditing.DrawShows | src/WinDbgLiteCli/LineEditor.cpp:120-208 | Each key's short drawing gives what a full redraw would |
| LineEditing.RenderShows | src/WinDbgLiteCli/LineEditor.cpp:52-60 | A full redraw shows prompt and buffer with the caret at the cursor, whatever was on the line |
| LineEditing.PressKeeps | src/WinDbgLiteCli/LineEditor.cpp:120-208 | Cursor within the buffer and history position within the history, always |
| LineEditing.EditsAroundCaret | src/WinDbgLiteCli/LineEditor.cpp:128-208 | Every editing key acts only on the text just before or behind the caret |
| LineEditing.DraftReturns | src/WinDbgLiteCli/LineEditor.cpp:167-191 | However one walks the history, the draft is there again whenever the walk is back at its end |
| LineEditing.UpThenDown | src/WinDbgLiteCli/LineEditor.cpp:167-191 | k Up keys show the kth newest entry and as many Down keys bring back the draft, for every k |
| LineEditing.WalkEndsAtEnd | src/WinDbgLiteCli/LineEditor.cpp:167-191 | Any walk through the history leaves the caret at the end of the text shown, or everything as it was |
| LineEditing.CancelStartsOver | src/WinDbgLiteCli/LineEditor.cpp:104-119 | After a cancel the line is empty, k Ups show the kth newest entry with the caret at its end, and k Downs lead back to the empty line |
| LineEditing.EditsKeepPlace | src/WinDbgLiteCli/LineEditor.cpp:128-208 | Editing keys change neither the draft nor the place in the history |
| LineEditing.ReadMeaning | src/WinDbgLiteCli/LineEditor.cpp:100-127 | The line handed over is the buffer after all keys before the first that ends it; only Enter hands one over |
| LineEditing.HistoryKeepsNewest | src/WinDbgLiteCli/LineEditor.cpp:216-228 | The history is the newest thousand lines with empty ones and immediate repetitions dropped, or as many as were loaded when that was more |
| LineEditing.SaveThenLoad | src/WinDbgLiteCli/LineEditor.cpp:230-291 | Saving a history and loading it again gives it back if and only if no line is empty, holds a line feed or ends in a carriage return |
| LineEditorConsole.LineEditor.HandleKey | src/WinDbgLiteCli/LineEditor.cpp:120-208 | Buffer, cursor, draft, history position and screen become the specified ones |
| LineEditorConsole.LineEditor.ReadLine | src/WinDbgLiteCli/LineEditor.cpp:62-214 | The key loop ends as specified, the screen shows the line at that moment, and whatever ends it the console gets its mode back; without an input handle nothing happens |
| LineEditorConsole.LineEditor.AddHistory | src/WinDbgLiteCli/LineEditor.cpp:216-228 | The history becomes the specified one |
| LineEditorConsole.LineEditor.LoadHistory | src/WinDbgLiteCli/LineEditor.cpp:230-268 | The non-empty lines of the file are added, however many |
| LineEditorConsole.LineEditor.HistoryText | src/WinDbgLiteCli/LineEditor.cpp:270-291 | The text written is every line and a line feed |

## Left out

- Races inside one phase of the exception handler: a phase, a control request and the agent's end are atomic steps
  here, although the tables are shared without a lock; threads interleave between phases.
- The agent on 32-bit targets, and programs that write to their own planted addresses.
- Exception policies and output-debug-string detection: their verdict on a code is a parameter of each exception.
- Failures of memory and protection writes whose result the source ignores, and writes that fault half-way; the outcome
  of applying debug registers to the other threads is a parameter. DR6 is the set of slots whose bit is set.
- VehAgent.Agent.SetContext: registers of a running thread other than the trap flag are not part of the state, and what
  is set for a thread inside the handler is taken not to reach the record it resumes with.
- The thread-notification ring of the agent: it publishes its index before the slot and works only below 256
  outstanding events.
- VehMemory.WalkRecords: pages beyond the modelled address range answer no query, and the end of a range wraps at
  2^64 as in the source.
- Driver handlers that use one buffer for request and result, and every handler that only forwards to the kernel.
- DebugSession.RunKeeps: kernel handles are never given out twice; opening and closing the process handle within one
  kernel call is part of that step, and waiting for and continuing debug events is not modelled.
- EventRing.Ring.QueueDriverEvent: an event is its process id and its other fields as one value; copying names and
  image paths into entries is not modelled.
- Enumeration.QueryDriverEnumerationResult: how the driver handle is opened is a parameter; sizes are those of a 64-bit
  client.
- BudgetLedger.RestartCounts: the JSON text around the numbers and floating-point rounding in the sums are not
  modelled. Limits are taken to be below 2^31 so that the cast to int is defined.
- FramingReader.Reader.WaitForResponse: time is a list of read outcomes, and recognising a response is a predicate.
  Writing frames of 4 GB and more fails in the source and is not modelled.
- BridgeCrypto.EncryptSucceeds: an overflowing sprintf_s is an outcome of its own; what the run-time library does then
  is not modelled. Random numbers are a parameter.
- LineEditing.AlwaysShows: characters are one cell wide and the line does not wrap.
- Text conversion between UTF-8 and UTF-16, regular expressions, networking, pseudo-C output, Python plumbing and the
  forwarding wrappers around the operating system: no state worth proving.
