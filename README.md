# CAPE monitor core, modelled in Dafny

This project models the core of CAPE's in-process monitor (capemon) and proves properties of that model. It covers four parts:

- **Hardware-breakpoint debugger** (`CAPE/Debugger.c`). There is one table of four breakpoint slots per thread, and the list of tables is kept in list order. The model covers:
  - the codec that writes and clears Dr0-Dr3 and the Dr7 fields in a CONTEXT;
  - the manager operations that set and clear breakpoints on one thread, on every thread, by register, by address range and through an exception handler's CONTEXT;
  - the EFlags helpers;
  - the vectored exception filter `CAPEExceptionFilter`.
- **Injection registries** (`CAPE/Injection.c`). The model covers:
  - the list of processes the monitor tracks and the list of section views;
  - the target-name extraction of `CreateProcessHandler`;
  - the write filter of `WriteMemoryHandler`;
  - the `PROCESS:` pipe message;
  - the dump walk at termination.
- **YARA option rewriting** (`CAPE/YaraHarness.c`). The model covers:
  - `ParseOptionLine`, which rewrites `key=$name±n` into `key=0x<address>`;
  - the walk of `YaraCallback` over the string metas named `cape_options` and their comma-separated options;
  - the scan-length clamp;
  - the RIP-relative lock-address decoding of the internal rule.
- **Output formatting** (`CAPE/Output.c`). The model covers:
  - the gating of `OutputString`, and `ErrorOutput`;
  - the per-dump-type metadata string of `CapeOutputFile` and its pipe message;
  - the debugger log of `DebuggerOutput`: its `no_logs` and StopTrace gating, the opening of the log file, and the sanitisation of each line to printable ASCII.

## Modelling choices

Code that changes state in place is modelled with classes:
- `BreakpointManager.Debugger` holds the thread tables and the live threads' debug registers.
- `DebugRegisters.Context` is a CONTEXT.
- `Injection.Registry` holds the two lists.
- `Output.DebuggerLog` holds the log handle and the `DebuggerLine` buffer.

Each of their methods is proved against a function of the state before the call, for example `SetThread`, `ClearThread`, `CreateOutcome`, `Classify`, `Unlink`, `OpenStep` or `Sanitized`. The properties are then lemmas about those functions. Linked lists are `seq` fields that the methods reassign. The `DebuggerLine` buffer and each `cape_options` meta string, which the source rewrites in place, are `array<char>`.

Calls into the operating system become inputs:
- The `Os` value says which threads can be opened, whose context can be read or written, and whether malloc of a breakpoint-list node succeeds. Thread handles are represented by the id of the thread they open.
- The `Observation` value holds what the exception filter learns from outside: tracked region, ntdll, guard-page handler and its answer, whether the instruction is `rdtscp`, its length, and the time-stamp counter.
- Allocation results, dump results, `GetAccessibleSize` and `ReverseScanForNonZero` are parameters.
- For the debugger log, the `Answers` value holds the log-open results, `GetLastError`, `FormatMessage`, the results path and `ctime`.

The model follows the x64 build (`_WIN64`). Integers are unbounded, and the fixed widths are written out where they matter:
- DWORD values are below 2^32 and pointers below 2^64.
- `%d` of a DWORD reads it as a signed 32-bit value.
- `Target + delta` wraps modulo 2^64.
- The range end `Base + Size` is computed modulo 2^64.

Two behaviours of the code are easy to miss, and the model keeps both:
- `ContextClearBreakpoint` keeps the slot's callback: the line that would clear it is commented out at CAPE/Debugger.c:1172.
- `ClearBreakpointsInRange` calls `ClearBreakpoint(Register)` at CAPE/Debugger.c:1304, so a register armed inside the range on any table is cleared on every table.

One member uses the corrected behaviour of a finding instead of the code: `InternalYaraCallback` decodes the lock address with the sign-extended displacement (see "## Findings" and "## Left out").

## Model

| member | source | states |
|---|---|---|
| DebugRegisters.LengthBits | CAPE/Debugger.c:718-722 | LEN is 0 for an execute breakpoint, and otherwise LengthMask[Size] truncated to the 2-bit field |
| DebugRegisters.Arm | CAPE/Debugger.c:729-756 | arming register n sets Dr{n}, L{n}, RWE{n} and LEN{n}; it leaves the other three registers, Dr6, LE and GE unchanged |
| DebugRegisters.Disarm | CAPE/Debugger.c:1114-1150 | clearing register n zeroes Dr{n}, L{n}, RWE{n} and LEN{n}; nothing else changes |
| DebugRegisters.DisarmIfValid | CAPE/Debugger.c:1530-1558 | ClearDebugRegister's if-chain changes nothing for a register outside 0..3 |
| DebugRegisters.DisarmUndoesArm | CAPE/Debugger.c:729-756 | clearing a register after arming it leaves the same registers as clearing it alone |
| DebugRegisters.ArmCommutes | CAPE/Debugger.c:729-756 | arming two different registers gives the same registers in either order |
| DebugRegisters.CheckDebugRegister | CAPE/Debugger.c:1580-1603 | the result is 1 exactly when the register is in 0..3 and its L bit is set, and 0 otherwise |
| DebugRegisters.CheckAfterArmAndDisarm | CAPE/Debugger.c:1580-1603 | a register reads as enabled after arming, as disabled after clearing, and the others read as before |
| DebugRegisters.LowestHit | CAPE/Debugger.c:415-417 | the hit register is the lowest of Dr6 bits 0-3 that is set, or 4 when none is |
| DebugRegisters.ApplyFlag | CAPE/Debugger.c:1315-1432 | set, clear and flip change exactly one flag's EFlags bit as the operation says, and no other bit |
| DebugRegisters.ApplyFlagKeepsOthers | CAPE/Debugger.c:1315-1432 | updating one of CF, ZF, SF, TF, RF leaves every other of these flags as it was |
| DebugRegisters.ApplyFlagTwice | CAPE/Debugger.c:1315-1432 | flipping twice restores EFlags; setting or clearing twice equals doing it once |
| DebugRegisters.UpdateFlag | CAPE/Debugger.c:1315-1485 | FALSE for a NULL CONTEXT; otherwise only EFlags changes, by ApplyFlag |
| Breakpoints.FindTable | CAPE/Debugger.c:74-92 | lookup gives the first table whose handle opens the thread, or none |
| Breakpoints.FindTableByHandles | CAPE/Debugger.c:74-92 | the lookup depends only on the tables' handles |
| Breakpoints.FindTableFirst | CAPE/Debugger.c:74-92 | the walk answers with the first table whose handle opens the thread, and with no earlier one |
| Breakpoints.FindInWellFormed | CAPE/Debugger.c:74-92 | in a well-formed registry, every table is found by its own thread id |
| Breakpoints.Seeded | CAPE/Debugger.c:124-137 | an empty list is seeded with a head table for the main thread; a non-empty list is kept |
| Breakpoints.ReuseIndex | CAPE/Debugger.c:141-154 | the walk stops at the first table carrying the thread id, and no earlier table carries it |
| Breakpoints.Adopt | CAPE/Debugger.c:175-206 | the table taken over carries the thread id and a handle to that thread, with its four slots |
| Breakpoints.AcquireShape | CAPE/Debugger.c:1934-1945 | lookup-or-create keeps every other table and only adds tables at the end |
| Breakpoints.CreatedIsFound | CAPE/Debugger.c:116-207 | after CreateThreadBreakpoints succeeds, a lookup of the thread finds the table it returned |
| Breakpoints.AcquiredIsFound | CAPE/Debugger.c:1934-1945 | the lookup-else-create step returns the table that a later lookup finds |
| Breakpoints.AcquireKeepsIds | CAPE/Debugger.c:116-207 | for a thread some table already carries, lookup-or-create keeps the list length and every thread id |
| Breakpoints.CreateInWellFormed | CAPE/Debugger.c:116-207 | in a well-formed registry, creation for a new thread appends one table and keeps the registry well formed; a thread that already has a table, or a failed allocation, is refused |
| Breakpoints.CreateWithoutMemory | CAPE/Debugger.c:124-168 | when malloc fails, no node is added: an empty list stays empty, and only a table already carrying the id can be taken over |
| Breakpoints.NextFree | CAPE/Debugger.c:331-340 | the lowest slot whose address is NULL, or none |
| Breakpoints.FirstFreeInWellFormed | CAPE/Debugger.c:275-308 | in a well-formed registry, GetNextAvailableBreakpoint answers from the thread's own table |
| Breakpoints.FirstFreeNoMatch | CAPE/Debugger.c:275-308 | a thread without a table gets no register |
| Breakpoints.NextFreeAfterFill | CAPE/Debugger.c:1751-1776 | after the chosen slot is filled, the next search finds a later slot or none, so repeated requests take distinct registers |
| Breakpoints.UnarmedNeverInRange | CAPE/Debugger.c:1199-1249 | a NULL slot never lies in a range with a non-NULL base |
| Breakpoints.ZeroSlots | CAPE/Debugger.c:1034-1092 | the clear-all operations leave all four slots of a table empty |
| BreakpointManager.ArmedLiveArms | CAPE/Debugger.c:807-911 | the thread's live registers change exactly when SetDebugRegister accepts; then the register holds the request and everything else is unchanged |
| BreakpointManager.SetThread | CAPE/Debugger.c:1916-1995 | SetThreadBreakpoint keeps the registry valid, only adds tables, and keeps the set of live threads |
| BreakpointManager.ClearThread | CAPE/Debugger.c:2118-2165 | ClearThreadBreakpoint keeps the registry valid and the set of live threads |
| BreakpointManager.SetThreadInWellFormed | CAPE/Debugger.c:1916-1995 | on a thread that has a table, SetThreadBreakpoint fills that table's slot and arms that thread only |
| BreakpointManager.SetThreadRecords | CAPE/Debugger.c:1916-1995 | after a successful SetThreadBreakpoint, the thread's table holds the request and a lookup finds it |
| BreakpointManager.ClearThreadEmpties | CAPE/Debugger.c:2118-2165 | a slot cleared by ClearThreadBreakpoint holds no breakpoint but keeps its register number and handle |
| BreakpointManager.ClearThreadKeepsIds | CAPE/Debugger.c:2118-2165 | ClearThreadBreakpoint on a thread some table carries keeps the list length and every thread id |
| BreakpointManager.ClearThreadInWellFormed | CAPE/Debugger.c:2118-2165 | on a thread that has a table, ClearThreadBreakpoint works on that table and that thread only |
| BreakpointManager.FirstStuck | CAPE/Debugger.c:1041-1087 | ClearAllBreakpoints stops at the first table with no thread id or no handle, or whose context cannot be read or written |
| BreakpointManager.StuckAt | CAPE/Debugger.c:1041-1087 | clearing earlier tables does not unstick or stick a later one: the walk stops exactly at FirstStuck |
| BreakpointManager.ContextSetRegister | CAPE/Debugger.c:672-790 | a rejected request changes nothing; otherwise the CONTEXT has the register armed and the tables are unchanged |
| BreakpointManager.ContextSetThread | CAPE/Debugger.c:1641-1686 | ContextSetThreadBreakpointEx keeps the list length and every table's handle |
| BreakpointManager.ContextSetThreadReportsFailedWrite | CAPE/Debugger.c:1662-1685 | when the register write fails, the call still reports TRUE and records nothing in the tables or the threads |
| BreakpointManager.ContextSetThreadRecords | CAPE/Debugger.c:1641-1686 | set-then-look-up: a writable CONTEXT leaves the request in the thread's slot and armed in its live registers and in the CONTEXT |
| BreakpointManager.ContextClearSlot | CAPE/Debugger.c:1095-1175 | ContextClearBreakpoint keeps the list length and every table's handle |
| BreakpointManager.ContextClearUndoesSet | CAPE/Debugger.c:1095-1175 | set-then-clear through one CONTEXT disarms the register as if never set, frees the slot and keeps its callback |
| BreakpointManager.CurrentMatch | CAPE/Debugger.c:1795-1830 | the lowest register whose slot matches the CONTEXT's address and type, or 4 |
| BreakpointManager.ClearableHit | CAPE/Debugger.c:1856-1872 | the lowest register whose Dr6 bit is set and whose slot carries that register number, or 4 |
| BreakpointManager.InheritedUpTo | CAPE/Debugger.c:226-248 | the new thread's table carries the head table's armed slots with the new thread's handle |
| BreakpointManager.InheritedStart | CAPE/Debugger.c:210-252 | before any copy, the new table is the one creation appended |
| BreakpointManager.InitialiseFresh | CAPE/Debugger.c:2238-2290 | initialising a fresh debugger leaves a well-formed registry holding the main thread alone, or no list when the head cannot be allocated |
| BreakpointManager.Debugger.GetThreadBreakpoints | CAPE/Debugger.c:74-92 | the list walk returns FindTable's answer |
| BreakpointManager.Debugger.CreateThreadBreakpoints | CAPE/Debugger.c:116-207 | the registry becomes CreateOutcome's: reuse or append; refused when the head or the new node cannot be allocated, when a handle to the thread is met first, or when the thread cannot be opened |
| BreakpointManager.Debugger.AcquireTable | CAPE/Debugger.c:1934-1945 | lookup, and creation only when the lookup fails |
| BreakpointManager.Debugger.SetDebugRegister | CAPE/Debugger.c:807-911 | the result is SetAccepts (type ≤ 3 and not 2, register 0..3, size 0..8, context readable and writable); the live registers become ArmedLive |
| BreakpointManager.Debugger.ClearDebugRegister | CAPE/Debugger.c:1488-1577 | the result is ClearAccepts (type 2 is let through); the live registers become DisarmedLive |
| BreakpointManager.Debugger.SetThreadBreakpoint | CAPE/Debugger.c:1916-1995 | the registry becomes SetThread's: the slot is written before the register, and the register write's result is ignored |
| BreakpointManager.Debugger.ClearThreadBreakpoint | CAPE/Debugger.c:2118-2165 | the registry becomes ClearThread's: the registers are cleared first, and the slot only on success |
| BreakpointManager.Debugger.SetBreakpoint | CAPE/Debugger.c:1998-2029 | FALSE exactly on an empty list; on a well-formed registry every table holds the request and every thread is armed as SetDebugRegister allows |
| BreakpointManager.Debugger.SetEveryTable | CAPE/Debugger.c:2006-2026 | the loop keeps SetProgress: the tables walked hold the request and their threads are armed; the rest is untouched |
| BreakpointManager.Debugger.SetBreakpointOnTable | CAPE/Debugger.c:2010-2024 | one table of the walk extends SetProgress by one |
| BreakpointManager.Debugger.ClearBreakpoint | CAPE/Debugger.c:2168-2199 | FALSE exactly on an empty list; every table has the slot wiped (zeroed before ClearThreadBreakpoint), and each thread has the register cleared |
| BreakpointManager.Debugger.ClearEveryTable | CAPE/Debugger.c:2176-2196 | the loop keeps ClearProgress |
| BreakpointManager.Debugger.ClearBreakpointOnTable | CAPE/Debugger.c:2180-2195 | one table of the walk extends ClearProgress by one |
| BreakpointManager.Debugger.ClearBreakpointsInRange | CAPE/Debugger.c:1275-1312 | FALSE exactly for a NULL base or a zero size, with nothing changed; otherwise every table has exactly the registers in RangeHits wiped, each table's thread has the registers those slots name cleared when its context can be read and written (RangeCleared), every other thread is untouched and `enabled` is kept |
| BreakpointManager.Debugger.ClearRangeInTable | CAPE/Debugger.c:1287-1306 | after the four slots of table i, the registers found so far are wiped in every table and cleared on every table's thread |
| BreakpointManager.Debugger.ClearRegisterInRange | CAPE/Debugger.c:1292-1302 | one slot in range adds its register to the wiped and cleared set, through ClearBreakpoint |
| BreakpointManager.RangeClearedStep | CAPE/Debugger.c:2176-2196 | one ClearBreakpoint on a register adds it to the registers cleared on every table's thread |
| BreakpointManager.RangeDisarmedStep | CAPE/Debugger.c:2118-2165 | ClearDebugRegister on the register a slot names disarms it on top of the registers already cleared |
| DebugRegisters.DisarmAllStep | CAPE/Debugger.c:1488-1577 | clearing one more register is Disarm after the others, and a number outside 0..3 changes nothing |
| BreakpointManager.Debugger.ContextClearBreakpointsInRange | CAPE/Debugger.c:1178-1272 | FALSE exactly for a NULL base or a zero size; otherwise exactly the in-range slots are emptied and exactly their registers cleared in the CONTEXT |
| BreakpointManager.Debugger.ClearAllBreakpoints | CAPE/Debugger.c:1034-1092 | tables before and at the first stuck one are zeroed; the threads passed have every debug register zero; TRUE exactly when none is stuck |
| BreakpointManager.Debugger.ClearTable | CAPE/Debugger.c:1041-1087 | one iteration: stuck exactly per Stuck; the slots are zeroed before the context calls |
| BreakpointManager.Debugger.ContextClearAllBreakpoints | CAPE/Debugger.c:979-1031 | FALSE without a table; otherwise the slots and CONTEXT registers are zeroed, and the result is whether the CONTEXT write succeeded |
| BreakpointManager.Debugger.ContextSetDebugRegisterEx | CAPE/Debugger.c:672-790 | the CONTEXT and the live registers become ContextSetRegister's; the result is FALSE exactly for a rejected request or a failed write |
| BreakpointManager.Debugger.ContextSetThreadBreakpointEx | CAPE/Debugger.c:1641-1686 | the state becomes ContextSetThread's |
| BreakpointManager.Debugger.ContextClearBreakpoint | CAPE/Debugger.c:1095-1175 | FALSE for a NULL CONTEXT; otherwise the state becomes ContextClearSlot's, and the callback is kept |
| BreakpointManager.Debugger.ContextGetNextAvailableBreakpoint | CAPE/Debugger.c:311-341 | after lookup-or-create, the lowest free slot of the thread's table, or none |
| BreakpointManager.Debugger.ContextSetNextAvailableBreakpoint | CAPE/Debugger.c:1705-1777 | FALSE for a NULL address or no table; TRUE and no change when an identical breakpoint exists; FALSE when full; otherwise it sets the lowest free register |
| BreakpointManager.Debugger.ContextUpdateCurrentBreakpoint | CAPE/Debugger.c:1780-1838 | FALSE without a table or a matching slot; otherwise it re-sets CurrentMatch's register |
| BreakpointManager.Debugger.ContextClearCurrentBreakpoint | CAPE/Debugger.c:1841-1877 | FALSE without a table or a clearable hit; otherwise ContextClearBreakpoint on ClearableHit's register |
| BreakpointManager.Debugger.GetNextAvailableBreakpoint | CAPE/Debugger.c:275-308 | returns FirstFreeForThread over every table whose handle opens the thread |
| BreakpointManager.Debugger.SetNextAvailableBreakpoint | CAPE/Debugger.c:2202-2235 | after lookup-or-create, SetThreadBreakpoint on the thread's next free register, or FALSE when none is free |
| BreakpointManager.Debugger.InitNewThreadBreakpoints | CAPE/Debugger.c:210-252 | FALSE on an empty list; on a well-formed registry the new table carries the head's armed slots, stopping at the first failed copy |
| BreakpointManager.Debugger.InheritRegister | CAPE/Debugger.c:226-248 | one register of the copy extends InheritedUpTo by one |
| BreakpointManager.Debugger.InitialiseDebugger | CAPE/Debugger.c:2238-2290 | records the main thread; fails without a handle, a table or the dispatcher; on success it is initialised, enabled, and has no single-step handler; the debugger is enabled as soon as the table is created, even when the dispatcher is then missing |
| BreakpointManager.Debugger.SetSingleStepMode | CAPE/Debugger.c:1435-1457 | FALSE for a NULL CONTEXT; otherwise it sets TF, sets LE and GE under branch tracing, and installs the handler |
| ExceptionFilter.ResumesOnlyOwnExceptions | CAPE/Debugger.c:393-669 | the filter resumes execution only on a debugger single step or guard page, or an rdtscp fault |
| ExceptionFilter.SingleStepVerdict | CAPE/Debugger.c:401-547 | CONTINUE_SEARCH exactly for: no table, no hit and no handler, or a NULL callback; otherwise exactly one piece of foreign code runs, and a callback only for the lowest hit |
| ExceptionFilter.GuardPageVerdict | CAPE/Debugger.c:550-599 | passed on exactly when the unpacker is off, parameters are missing, or the installed handler declines |
| ExceptionFilter.HitSlot | CAPE/Debugger.c:534-545 | a hit count of 0 leaves the slot armed; otherwise it is decremented and, at 0, cleared through the CONTEXT |
| ExceptionFilter.Hits | CAPE/Debugger.c:534-545 | a run of hits on one slot keeps the registry valid, its length and every handle |
| ExceptionFilter.HitLowersCount | CAPE/Debugger.c:534-545 | a hit on a slot whose count is above 1 only lowers the count |
| ExceptionFilter.CountdownKeepsArmed | CAPE/Debugger.c:534-545 | before its count runs out, a breakpoint with count n stays armed with its count lowered by the hits so far |
| ExceptionFilter.ClearedWhenCountRunsOut | CAPE/Debugger.c:534-545 | after n hits, a breakpoint with count n > 0 is free and its register disarmed in the CONTEXT |
| ExceptionFilter.ZeroCountStaysArmed | CAPE/Debugger.c:534-545 | a breakpoint with count 0 is never cleared by hits |
| ExceptionFilter.SplitTimestamp | CAPE/Debugger.c:614-617 | EAX and EDX hold the low and high 32 bits of the time stamp |
| ExceptionFilter.FilterSingleStep | CAPE/Debugger.c:401-547 | the verdict and event are Classify's; on a callback the state is HitSlot's, and otherwise nothing changes |
| ExceptionFilter.Filter | CAPE/Debugger.c:393-669 | the verdict and event are Classify's; rdtscp emulation splits the timestamp and advances the IP; no other exception changes state |
| Injection.Registry.GetInjectionInfo | CAPE/Injection.c:41-58 | the first entry with the pid, or none; the list is not modified |
| Injection.Registry.GetInjectionInfoFromHandle | CAPE/Injection.c:61-78 | the first entry with the process handle, or none |
| Injection.First | CAPE/Injection.c:41-78 | the list walk answers with the first match after the start, with no earlier one, or with none when nothing matches |
| Injection.Registry.CreateInjectionInfo | CAPE/Injection.c:81-135 | the existing entry with the list unchanged; otherwise one zeroed entry for the pid appended at the tail; none if allocation fails |
| Injection.Registry.DropInjectionInfo | CAPE/Injection.c:138-179 | TRUE exactly when an entry has the handle; the list becomes Unlink of the first such entry, otherwise it is unchanged |
| Injection.Registry.DropSectionView | CAPE/Injection.c:301-347 | TRUE exactly when the node is in the list (matched by identity); the list becomes Unlink of it |
| Injection.UnlinkInner | CAPE/Injection.c:153-162 | unlinking a non-head entry removes exactly that entry and keeps the order of the others |
| Injection.UnlinkAppended | CAPE/Injection.c:153-162 | unlinking the entry appended last gives back the list as it was |
| Injection.FirstAppend | CAPE/Injection.c:41-58 | a search of a list with one element appended finds an earlier match first, and otherwise the new element |
| Injection.CreatedIsFound | CAPE/Injection.c:81-135 | a new pid is found, after creation, at the new tail entry |
| Injection.CreateThenDrop | CAPE/Injection.c:81-179 | creating an entry, giving it a fresh handle and dropping that handle restores the registry |
| Injection.CheckDontMonitorList | CAPE/Injection.c:626-643 | FALSE unless file_of_interest and suspend_logging are set; then TRUE exactly for c:\windows\splwow64.exe in any case |
| Injection.CopyBounded | CAPE/Injection.c:676-682 | wcsncpy_s copies the first count characters when they fit in MAX_PATH, and gives an empty string otherwise |
| Injection.TargetName | CAPE/Injection.c:670-684 | the application name if given; else the text inside the leading quotes; else up to and including the first space; else the whole line |
| Injection.TargetNameQuoted | CAPE/Injection.c:675-676 | a quoted program name is taken without its quotes and contains none |
| Injection.TargetNameFirstWord | CAPE/Injection.c:679-680 | an unquoted command line gives its first word with the space after it |
| Injection.Registry.CreateProcessHandler | CAPE/Injection.c:645-695 | a known pid changes nothing; a new pid gets one entry with handle, initial thread, image base and the don't-monitor verdict on TargetName; a failed allocation is the undefined NULL read of line 657 |
| Injection.NonPEWrite | CAPE/Injection.c:962-986 | writes of at most 0x10 bytes are ignored; a buffer strictly inside an already dumped image is skipped; others are dumped |
| Injection.PEDumpedOnce | CAPE/Injection.c:929-958 | a PE image is dumped at most once per entry |
| Injection.SectionOfDumpedImageSkipped | CAPE/Injection.c:962-971 | after a PE dump, a later non-PE write strictly inside that image is not dumped |
| Injection.Track | CAPE/Injection.c:885-923 | the entry is the pid's existing one, or one created for another process when allocation succeeds |
| Injection.Registry.WriteMemoryHandler | CAPE/Injection.c:877-988 | a zero-byte write does nothing; otherwise the entry per Track, a PE image per PEWrite, and any other write per NonPEWrite |
| Injection.Message | CAPE/Injection.c:1115-1137 | no message for its own pid, a DontMonitor entry, or single-process mode; otherwise PROCESS:0:pid,tid, with tid 0 replaced by the initial thread id |
| Injection.ProcessLineInjective | CAPE/Injection.c:1137 | the PROCESS line determines the pid and thread id it was made from |
| Injection.DwordAsDInjective | CAPE/Injection.c:1137 | %d of a DWORD determines the DWORD |
| Injection.Registry.ProcessMessage | CAPE/Injection.c:1115-1137 | returns Message's answer |
| Injection.StopAt | CAPE/Injection.c:1094 | the walk stops at the first entry lacking a handle, an image base or a pid |
| Injection.Dumped | CAPE/Injection.c:1094-1112 | the walked prefix has each hollowed, undumped entry marked with its dump result; the rest is unchanged |
| Injection.DumpedAt | CAPE/Injection.c:1094-1112 | each walked entry is changed only by its own dump |
| Injection.SecondPassAttemptsNothing | CAPE/Injection.c:1090-1113 | when every dump succeeds, a second walk over the same entries attempts nothing |
| Injection.Registry.TerminateHandler | CAPE/Injection.c:1090-1113 | the entries become Dumped up to StopAt; the attempted pids are the pending entries' pids, in order |
| YaraHarness.StrToULDecimal | CAPE/YaraHarness.c:65 | strtoul reads back the decimal rendering of any DWORD |
| YaraHarness.Delta | CAPE/YaraHarness.c:62-71 | +n after the first '+'; otherwise −n after the first '-'; otherwise 0 |
| YaraHarness.NameLength | CAPE/YaraHarness.c:72-75 | the name part ends at the sign, or at the end of the value |
| YaraHarness.Moved | CAPE/YaraHarness.c:83 | Target + delta, wrapping modulo 2^64 |
| YaraHarness.Parts | CAPE/YaraHarness.c:54-75 | None exactly when the line has no '$' or no '='; otherwise key, name part and delta |
| YaraHarness.ParseFromParts | CAPE/YaraHarness.c:49-86 | a line that splits into key, name and delta, with the name a prefix of the identifier, is rewritten to key=0x<target+delta> |
| YaraHarness.OptionWithValue | CAPE/YaraHarness.c:49-86 | key=value is rewritten to the target moved by the value's delta whenever the value's name is a prefix of the identifier |
| YaraHarness.PlusValue | CAPE/YaraHarness.c:62-75 | in name+digits the name ends at the '+' and the delta is the digits' value |
| YaraHarness.MinusValue | CAPE/YaraHarness.c:62-75 | in name-digits, with no '+', the name ends at the '-' and the delta is minus the digits' value |
| YaraHarness.ParseOptionLine | CAPE/YaraHarness.c:49-86 | FALSE for a NULL argument, a missing '$' or '=', or a name that is not a prefix of the identifier; otherwise the rewrite of the key to the moved target |
| YaraHarness.NewLine | CAPE/YaraHarness.c:82-83 | the rewritten line is key, "=0x" and 16 hex digits of the address |
| YaraHarness.NewLineReadsBack | CAPE/YaraHarness.c:83 | the rewritten line starts with key and "=0x", and its hex digits read back as the address |
| YaraHarness.SplitOption | CAPE/YaraHarness.c:56-62 | a key=value line with a '$' and no '=' in the key splits back into that key and value |
| YaraHarness.PlusOptionRewrites | CAPE/YaraHarness.c:49-86 | key=name+digits is rewritten to the target moved forward by the number the digits give |
| YaraHarness.MinusOptionRewrites | CAPE/YaraHarness.c:49-86 | key=name-digits, with no '+', is rewritten to the target moved back by that number |
| YaraHarness.SegmentsHaveNoComma | CAPE/YaraHarness.c:114-149 | no option visited contains a comma |
| YaraHarness.JoinSegments | CAPE/YaraHarness.c:114-149 | joining the visited options with commas gives back the meta string, unless it ends in a comma |
| YaraHarness.RewrittenLines | CAPE/YaraHarness.c:119-135 | an option is rewritten for some match exactly when it produces rewritten lines |
| YaraHarness.AnyParsesCalls | CAPE/YaraHarness.c:113-149 | some rewrite succeeds exactly when the parser is called more often than there are options |
| YaraHarness.CallsEndWithOptions | CAPE/YaraHarness.c:113-149 | every option is passed to parse_config_line, in order, after the rewritten lines it produced |
| YaraHarness.FindComma | CAPE/YaraHarness.c:116 | the index of the next comma, or the end |
| YaraHarness.RewriteOption | CAPE/YaraHarness.c:119-135 | one option's rewritten lines, and whether any rewrite succeeded |
| YaraHarness.VisitOption | CAPE/YaraHarness.c:116-148 | one option is cut at its comma, rewritten, compared with "dump", and the comma is put back |
| YaraHarness.WalkOptions | CAPE/YaraHarness.c:112-149 | the calls are Calls of the options; the flags are AnyParses and AnyDump; the string is unchanged |
| YaraHarness.YaraCallback | CAPE/YaraHarness.c:88-166 | non-matching and import messages continue with no effect; any other message but a match is an error; a match walks every string meta named cape_options, in order, skips the other metas and leaves every meta string as it was; the calls are those of all their options in turn, and SetInitialBreakpoints and DumpRegion run at most once each, when some option of some such meta asks for them |
| YaraHarness.MetaWalkCalls | CAPE/YaraHarness.c:108-150 | the calls over several cape_options metas are the calls over the earlier metas, then those over the last |
| YaraHarness.MetaParsesIsOr | CAPE/YaraHarness.c:108-155 | SetInitialBreakpoints is due over several cape_options metas exactly when it is due for one of them |
| YaraHarness.MetaDumpIsOr | CAPE/YaraHarness.c:108-160 | DumpRegion is due over several cape_options metas exactly when one of them asks for it |
| YaraHarness.ScanLength | CAPE/YaraHarness.c:243-286 | nothing when inactive or when the size, accessible size or trimmed size is 0; otherwise a nonzero length at most the clamped size |
| YaraHarness.InternalScanLengthAsWritten | CAPE/YaraHarness.c:288-331 | InternalYaraScan hands the scanner the whole accessible size |
| YaraHarness.InternalScanOverreaches | CAPE/YaraHarness.c:303-318 | a 16-byte request in a 4 KiB region is scanned over 4 KiB |
| YaraHarness.ReadEncoded | CAPE/YaraHarness.c:195 | a little-endian DWORD reads back as the value written |
| YaraHarness.LockAddressDecodesLea | CAPE/YaraHarness.c:194-195 | the sign-extending decoder recovers any lea rcx,[rip+disp32] target within 2 GiB |
| YaraHarness.SignExtends | CAPE/YaraHarness.c:195 | a displacement within 2 GiB stored as 32-bit two's complement reads back signed as itself |
| YaraHarness.LockAddressAsWrittenMissesBackwardTarget | CAPE/YaraHarness.c:194-195 | the unsigned read misses a target 0x100 bytes back by 4 GiB |
| YaraHarness.InternalYaraCallback | CAPE/YaraHarness.c:168-206 | a match sets the lock from the last match of one of the two patterns, else keeps it; other messages as in YaraCallback; the lock is decoded by the corrected LockAddress |
| Basics.PointerTextRoundTrip | CAPE/YaraHarness.c:83 | %p gives 16 hex digits that read back as the pointer |
| Basics.DecimalRoundTrip | CAPE/Output.c:297 | the %d rendering of the pid and parent pid in the FILE_DUMP notice reads back as the number |
| Basics.HexRoundTrip | CAPE/Output.c:311-314 | a hex rendering of a number that fits the width reads back as the number |
| Basics.SignedDecimalInjective | CAPE/Injection.c:1137 | distinct integers print differently under %d |
| Output.OutputString | CAPE/Output.c:44-61 | nothing exactly when logging is disabled; otherwise one message, to the debugger exactly in standalone mode |
| Output.OutputStringText | CAPE/Output.c:44-61 | the message is a prefix of the text (after "DEBUG:" to the pipe), cut at MAX_PATH−1 |
| Output.ErrorOutput | CAPE/Output.c:75-111 | one message, even with logging disabled: the error line with its code in decimal and hex, cut only at the MAX_PATH buffers (min(line, MAX_PATH−1) characters, or behind "DEBUG:" down the pipe) |
| Output.CapeFields | CAPE/Output.c:301-334 | 3 to 5 fields: the type, then the path twice; the type changes only to TYPE_STRING |
| Output.CapePath | CAPE/Output.c:307-309 | a non-NULL process path is kept |
| Output.CapeOutputFile | CAPE/Output.c:261-354 | no metadata for no CAPE metadata; pid and ppid are kept; a metadata string ends with a notice to the pipe, or to the debugger in standalone mode |
| Output.ProcDumpMetadata | CAPE/Output.c:265-300 | PROCDUMP metadata is type;?process;?module;?, with module = process unless a DLL of interest is set, and nothing when that DLL's file is NULL |
| Output.CapeDumpPaths | CAPE/Output.c:301-309 | a NULL process path becomes "Unknown path", and the module path equals the process path |
| Output.UnpackedDumpAddress | CAPE/Output.c:311-314 | UNPACKED types add a 4th field, "0x" and hex that reads back as the address |
| Output.InjectionDumpTarget | CAPE/Output.c:316-325 | INJECTION types add target process and pid only when the target is set; otherwise 3 fields and a warning |
| Output.TypeStringDump | CAPE/Output.c:327-334 | another type with a non-empty type string becomes TYPE_STRING with the string as 4th field |
| Output.FieldsOfJoin | CAPE/Output.c:287-334 | the fields read back from the ;?-joined metadata when none holds a '?' |
| Output.PiecesOfJoin | CAPE/Output.c:342-347 | the pieces read back from the '|'-joined message |
| Output.CapeNoticeFields | CAPE/Output.c:342-347 | the pipe message is FILE_CAPE:<file>\|pid\|ppid\|metadata |
| Output.ProcNoticeFields | CAPE/Output.c:294-299 | a process dump sends one message; down the pipe it is FILE_DUMP:<file>\|pid\|ppid\|metadata |
| Output.DumpNotice | CAPE/Output.c:288-298 | the notice goes to the pipe unless standalone; it is a prefix of the full text, bounded by the buffer |
| Output.LineBuffer | CAPE/Output.c:419-420 | the line as printed into DebuggerLine after the memset: MAX_PATH long, NUL-terminated, its text the truncated line (the header at 406-408 is printed the same way) |
| Output.Sanitized | CAPE/Output.c:419-427 | the length is kept; the NUL is kept; every character before it is in [0x0a, 0x7E]; in-range characters are unchanged |
| Output.SanitizedIdempotent | CAPE/Output.c:419-427 | sanitising twice equals sanitising once |
| Output.Logged | CAPE/Output.c:419-431 | every line written is at most MAX_PATH−1 printable characters |
| Output.LoggedUnchanged | CAPE/Output.c:419-431 | a short printable line is written unchanged |
| Output.OpenStep | CAPE/Output.c:391-412 | the handle becomes Opened or Invalid, and the header is written only when the file opens |
| Output.WriteStep | CAPE/Output.c:419-431 | only an open log gets a line, the sanitised one |
| Output.StepAppends | CAPE/Output.c:358-433 | a call only appends to the log: at most two lines, and at most one once the handle is decided |
| Output.SilentAboveOne | CAPE/Output.c:366-367 | with no_logs > 1 a run of calls changes nothing |
| Output.RedirectedToOutputString | CAPE/Output.c:368-373 | with no_logs == 1 a run only forwards each line to OutputString |
| Output.ForwardedSends | CAPE/Output.c:368-373 | forwarding keeps the log and adds exactly the concatenated OutputString messages |
| Output.StopTraceWritesNothing | CAPE/Output.c:413-417 | while StopTrace is set, nothing is written to the log and the handle does not change |
| Output.InvalidLogLosesLines | CAPE/Output.c:391-412 | once the log failed to open, every later line is lost |
| Output.LinesAfterHeaderPrintable | CAPE/Output.c:358-433 | once the log is open, every line written is printable and within MAX_PATH−1 |
| Output.DebuggerLog.Print | CAPE/Output.c:419-420 | DebuggerLine holds LineBuffer of the text |
| Output.DebuggerLog.Sanitize | CAPE/Output.c:419-427 | the loop rewrites DebuggerLine into Sanitized of its old contents |
| Output.DebuggerLog.OpenLog | CAPE/Output.c:391-412 | the state becomes OpenStep's; the result is whether the file opened |
| Output.DebuggerLog.WriteLine | CAPE/Output.c:419-431 | the state becomes WriteStep's, and DebuggerLine holds the sanitised line |
| Output.DebuggerLog.DebuggerOutput | CAPE/Output.c:358-433 | the state becomes DebuggerStep's, and DebuggerLine holds what was printed |
| Output.DebuggerLog.LogLine | CAPE/Output.c:385-431 | the state becomes LogStep's |
| Output.DebuggerLog.FirstLine | CAPE/Output.c:391-431 | the state becomes FirstStep's: open, then write the line without its leading newlines |

## Left out

- Thread-context plumbing is replaced by the `Os` oracle and the live-register map. This covers GetThreadContext, SetThreadContext, OpenThread, DuplicateHandle, GetThreadId, VirtualProtect and GetProcAddress.
- Nothing is claimed about concurrency: the source takes no locks, and the model is sequential.
- The bodies of breakpoint callbacks, the single-step handler and the guard-page handler are foreign code. Their runs are recorded as events, and the guard-page handler's answer is an input. `ExceptionFilter.Filter` does not model what a callback does to the registry.
- The 32-bit build is not modelled: the WoW64 patching, the RWE mismatch handling of the filter, and the `0F 01 F9` byte comparison. The x64 build decides rdtscp through its decoder, which is an input here.
- The instruction decoders, `__rdtsc` and the NOP patching of rdtscp are not modelled. The patch is recorded as an event.
- The logging-only functions are not modelled: ShowStack, CheckDebugRegisters, ContextCheckDebugRegisters, OutputThreadBreakpoints and DebugOutputThreadBreakpoints.
- `ContextSetBreakpoint` is not modelled. Its loop does not advance when a table's thread id is 0 or is the current thread.
- The thin wrappers ContextSetDebugRegister, ContextSetThreadBreakpoint, ContextSetThreadBreakpoints(Ex) and SetThreadBreakpoints are not modelled separately.
- `BreakpointManager.Debugger.ContextClearBreakpointsInRange`: after its loop, the x64 build reads through a NULL list pointer. The model returns TRUE at that point.
- `BreakpointManager.Debugger.CreateThreadBreakpoints`: when no handle to the thread can be obtained, the source frees a node that is still linked. The model reports failure and leaves the list as it was before that step.
- `BreakpointManager.Debugger.SetBreakpoint`, `ClearBreakpoint`, `ClearBreakpointsInRange`, `InitNewThreadBreakpoints`: the whole-registry results are stated only for a well-formed registry, in which each table holds a handle to its own thread and there is one table per thread. For other registries, only the list length and the thread ids are stated.
- `BreakpointManager.Debugger.InitialiseDebugger`: the child-process bookkeeping and the dispatcher address are inputs, not modelled.
- GetSectionView, AddSectionView and the section-view dump handlers are not modelled. Their name matching reads uninitialised memory, and only node identity is modelled.
- The OpenProcess, MapSectionView, Duplication and ResumeThread handlers are not modelled, and neither are the dump routines, which are oracle parameters.
- `Injection.Registry.CreateProcessHandler`: when the entry cannot be allocated, the failure message at CAPE/Injection.c:657 reads `ImageBase` through the NULL entry. The model returns `UndefinedNullRead` and leaves the list unchanged; it does not say what happens after the NULL read. The conversion of the target name into CapeMetaData->TargetProcess is not modelled.
- `Injection.CopyBounded`: on overflow, wcsncpy_s empties the buffer and then calls the invalid-parameter handler, which by default ends the process. The empty result assumes a handler that returns.
- `Injection.TargetName`:
  - the `_snwprintf` truncation of a long application name is not modelled;
  - a quoted command line without a closing quote (a NULL pointer in the length computation) is modelled as running to the end.
- `Injection.Registry.WriteMemoryHandler`: with no entry and no allocation, the source reads through a NULL pointer. The model returns a distinct `UndefinedNullEntry` action and changes nothing.
- The YARA library is not modelled: a rule match is given as the sequence of (identifier, offset) pairs its iterators visit, and rule loading is not covered. GetAccessibleSize and ReverseScanForNonZero are parameters.
- `YaraHarness.InternalYaraCallback`: it decodes the lock address with the corrected, sign-extended `LockAddress`, not with the unsigned add at CAPE/YaraHarness.c:195. The as-written decoding is `LockAddressAsWritten` (see "## Findings").
- `YaraHarness.NewLine`: an overflow of the NewLine buffer by a very long key is not modelled.
- `YaraHarness.StrToUL`: leading white space and a sign are not accepted.
- The CAPE_V1 branch of CapeOutputFile is not modelled.
- `Output.CapeOutputFile`:
  - an overflow of the 1090-byte metadata buffer is not modelled;
  - the conversion of file_of_interest from wide characters is taken as given.
- The printf-style formatting of the Output functions is given as the formatted text, plus the number of leading newlines.
- The following are parameters: GetResultsPath and PathAppend (the log path), ctime (the time text), and GetLastError and FormatMessage.
- `Output.ErrorOutput`: when FormatMessage fails, the source prints the uninitialised local `lpMsgBuf` (CAPE/Output.c:79), whose text is undefined. The model prints the text "(null)" in that case.
- The dump-type codes come from a header that is not part of this model, so they are the `DumpCodes` parameter.
- The pipe, OutputDebugString and the log file are modelled as separate sequences. Their interleaving is not kept.
- `Output.FieldsOfJoin`, `Output.CapeNoticeFields`, `Output.ProcNoticeFields`: read-back holds only for paths without '?' or '|'.

## Findings

| source | as written | input that shows it | evidently intended | confidence | as-written member | corrected member |
|---|---|---|---|---|---|---|
| CAPE/YaraHarness.c:194-195 | the 32-bit RIP-relative displacement is read as an unsigned DWORD and added to the pointer | a `lea rcx, [rip-0x100]` (displacement 0xFFFFFF00): the result lies 4 GiB past the intended lock | the displacement sign-extended, as the processor computes it | not executed | YaraHarness.LockAddressAsWrittenMissesBackwardTarget | YaraHarness.LockAddressDecodesLea |
| CAPE/YaraHarness.c:318 | InternalYaraScan passes AccessibleSize instead of the clamped, trimmed Size to the scanner | Size 16 in a 4096-byte accessible region with nothing to trim: 4096 bytes are scanned | the clamped and trimmed Size, as YaraScan passes at line 273 | not executed | YaraHarness.InternalScanOverreaches | YaraHarness.ScanLength |
