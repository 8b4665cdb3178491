# Breakpoints, non-local jumps and a few loops

Dafny models, with proofs, of the core of four small systems programs: the
instruction-level debugger `hw4/sdb.cpp`, the `setjmp`/`longjmp` pair and signal sets of
the C library in `hw3`, the open-file lister `hw1/hw1.cpp`, and the memory-map index of
`hw4/ptools.cpp`. `dafny verify dfyconfig.toml` checks everything.

## The debugger

The debugger keeps a live process patched with `0xCC` bytes, a table of the bytes it has
overwritten, a one-slot record of the breakpoint to step over next, and a disassembly of
the text section made when the process started. The claim of such a tool is that the
program does not notice. That claim is split as follows.

- `Memory`, `Processor`: byte memory, the little-endian words ptrace moves, the mask
  `(code & ~0xff) | b` on 64-bit vectors, and a processor given as an arbitrary step
  function of which only locality is assumed: an instruction, or the system call it makes,
  depends on registers, mapping, the bytes in its footprint and the input the kernel holds
  for the process; it may store, map, unmap and consume input. `PatchedRun` is the
  simulation: a patched run stops exactly where the unpatched run first visits a patched
  address.
- `Tracing`, `Sdb`: the classes `Tracee` and `Debugger`, with the fields and the control
  flow of the original. Each method is proved to refine a function of module
  `NativeSession`, which says what the command does in terms of *unpatched* memory. The
  ghost field `native` is that memory; `Valid` says that the process is `native` with
  traps written over it at exactly the table's addresses, that every saved byte is the
  native one, that the addresses are distinct, that breakpoints exist only while a
  process runs, and that a filled slot is an entry of the table. Every command sequence
  keeps it (`Debugger.Execute`).
- `Transparency`, `HitList`, `Lifetime`: theorems about sessions. `cont` stops at the
  first visit; a whole session leaves the program as native steps plus the requested
  register edits would; repeated `cont` reports the trace of rip filtered to breakpoint
  addresses; deleting everything in any order restores memory; `disasm` shows the
  unpatched text. `DebuggerRuns` says the same of the bytes, registers and reports of the
  patched child itself.
- `CommandEffects`: what each command does to every part of a session, told without the
  functions of `NativeSession`, and exactly when the debugger ends.
- `ToyProcessor`: a processor with loads, stores, jumps, mappings, input, a trap and exit that satisfies
  the locality assumption, and concrete programs on it.

What is assumed of the surroundings is collected in the predicate `Tame`: the program
does not read or write patched bytes as data nor unmap the eight bytes at a breakpoint, its
run to the next halt is finite (`waitpid` returns), a new process does not map address 0 and finds the slot empty, and
the text section does not end in the last 15 bytes of the address space, from where the
sweep could wrap around and start over. The kernel maps nothing at address 0.

Where the code falls short of transparency, the code is modelled as it is and the exact
condition is proved:

- `si` at an inserted breakpoint executes the trap, not the instruction (`SiIsNative`,
  `SiAfterHit`).
- The re-patch after a step over uses the word read before the step, so a store of that
  instruction into its own eight bytes is lost (`StepOverIsNative`, `StepOverLosesStore`).
- A breakpoint that is not an instruction start of the sweep is not rewound or reported,
  and no signal number is checked, so another stop one byte past a breakpoint looks like
  a hit (`LandIsIdeal`, `BreakpointMissed`, `SignalTakenForHit`).
- An instruction that exits while it is stepped over takes the debugger with it
  (`HitsAreVisits`, `ExitWhileSteppingOver`).
- The slot survives the process, and so does the disassembly (`SlotAfterExit`,
  `SlotSurvivesExit`, `StartNeedsEmptySlot`; `ListingIsRight`, `StaleListing`).
- `dump` shows the patched bytes (`DumpIsNative`), and `getregs` prints the word at
  offset 4, which is rbp, under the name RBX (`GetRegsShowsRegisters`).

## The other modules

`StackMemory`, `SetJump`: the two routines as straight-line code on a class of registers
with byte memory. They are related to their caller's view by `SetjmpDone` and
`LongjmpDone`, of which the non-local round trip is a consequence. `hw3/README.md:4-5`
promises that the signal mask is saved and restored; the code passes null sets and size 32
to a call that accepts size 8 only, and stores 0, so no mask is preserved
(`MaskIsNotSaved`). Section 7.13.2.1 of ISO/IEC 9899:2011 asks `setjmp` to return 1 when
`longjmp` is given 0; the code returns 0 (`ReturnsStandardValue`). `JumpLoop` is the whole
run of `hw3/jmp1.c` for any number of functions, which may write to any memory but the
buffer and the counter, such as `errno`.

`Tokenizer`, `RangeIndex`, `SignalBits`, `SignalSet` and `Lsof` hold the smaller loops,
each proved against a specification that is then characterised on its own.

## Model

| member | source | states |
|---|---|---|
| `Memory.MaskChangesOneByte` | hw4/sdb.cpp:185 | the mask replaces the lowest byte of a 64-bit word and leaves the other seven, bit for bit |
| `Memory.PatchOneByte` | hw4/sdb.cpp:306-307 | peek, mask and poke at one address change exactly the byte at that address, whatever the seven after it hold |
| `Memory.PatchFromStaleWord` | hw4/sdb.cpp:233-245 | poking a word read from an older memory puts seven older bytes back and the given byte at the address |
| `Memory.BytesOfPeek` | hw4/sdb.cpp:200-207 | reading a peeked word through a byte pointer gives the bytes of memory in address order; byte 0 is the one at the address |
| `Processor.FirstVisit` | hw4/sdb.cpp:251-253 | a run halts with `h` within `n` steps if and only if `h` is how the uninterrupted execution ends at its first stop address, signal or exit, after at most `n` steps |
| `Processor.OutcomeIsFirstEnd` | hw4/sdb.cpp:251-253 | the same for what is waited for without bound |
| `Processor.PatchedStep` | hw4/sdb.cpp:540-551 | an instruction that does not touch the patched bytes does the same with and without the patches |
| `Processor.PatchedRun` | hw4/sdb.cpp:251-255 | simulation: the patched process stops by trap one byte past the first visit of the unpatched run to a patched address, otherwise as that run does, with the same registers and the patched image of its memory |
| `Processor.PatchedOutcome` | hw4/sdb.cpp:251-255 | the same for runs of any length to their halt |
| `Processor.RunKeepsSavedBytes` | hw4/sdb.cpp:234 | a run that leaves patched bytes alone leaves the native bytes beneath them as saved and the breakpoints mapped, whatever else it maps and unmaps |
| `Processor.TrapAtBreakpoint` | hw4/sdb.cpp:549 | stepping the patched process at a breakpoint takes the trap, whatever the instruction |
| `Processor.StepKeepsReady` | hw4/sdb.cpp:549 | the same of one instruction |
| `Patches.InsertCovers` | hw4/sdb.cpp:169-185 | writing a trap at a new address saves its native byte and patches that address only, even if other patches lie in the same word |
| `Patches.EraseCovers` | hw4/sdb.cpp:306-310 | writing the saved byte back removes that patch only and keeps every other entry good, although indexes shift |
| `Patches.EraseIs` | hw4/sdb.cpp:310 | `erase` keeps entries before the index in place and moves those after it down by one |
| `Patches.ErasedOnly` | hw4/sdb.cpp:310 | every entry with another address stays in the table |
| `Patches.SavedBytesStay` | hw4/sdb.cpp:261-275 | after a run that left them alone the saved bytes are still the native ones |
| `Patches.RePatchedMemory` | hw4/sdb.cpp:233-246 | the poke after the step, made from the stale word, yields the native result with the window put back and all patches in place |
| `Patches.StepOverPatched` | hw4/sdb.cpp:230-248 | restore, single-step and re-patch execute the native instruction at rip under all other patches, and leave the fully patched image of its result, up to stores into the window |
| `NativeSession.StepOverKeepsReady` | hw4/sdb.cpp:232-246 | the step over changes no native byte under a breakpoint and leaves all of them mapped |
| `Tracing.Tracee.PatchByte` | hw4/sdb.cpp:306-308 | changes one byte of the process, or fails and changes nothing if the child is gone or the word is not mapped |
| `Tracing.Tracee.SingleStep` | hw4/sdb.cpp:241-242 | the child executes one instruction of its patched memory, or is gone afterwards |
| `Tracing.Tracee.Continue` | hw4/sdb.cpp:251-253 | the child is left where its execution first traps, is signalled or exits, and the status says which |
| `Sdb.StepPast` | hw4/sdb.cpp:232-246 | the five requests leave the patched image of the native step; they fail exactly if the address is unmapped (then nothing has changed) or the child exits |
| `Sdb.CopyWord` | hw4/sdb.cpp:126 | replaces eight bytes of the buffer and no other |
| `Sdb.Debugger.constructor` | hw4/sdb.h:39-47 | the debugger starts without program, process, breakpoints or slot |
| `Sdb.Debugger.IsBreakpoint` | hw4/sdb.cpp:173-177 | the scan finds an entry exactly if the address is a breakpoint |
| `Sdb.Debugger.SetBp` | hw4/sdb.cpp:154-187 | while running every new address is put behind the older entries, with the byte that was there, and 0xcc is in memory at it and nothing else changed; the debugger ends exactly if it cannot be read; a known address, or no running program, changes nothing |
| `Sdb.Debugger.DelBp` | hw4/sdb.cpp:295-317 | the entry at a valid index goes, later ones move down by one, the saved byte is back in memory and nothing else changed there, and the slot is emptied exactly if it named that address; a dead child ends the debugger; other indexes change nothing |
| `Sdb.Debugger.StepOverBreakpoint` | hw4/sdb.cpp:230-249 | with rip at the slot the program does its native instruction, up to stores into its window, and the slot is emptied; a child that exits in it ends the debugger |
| `Sdb.Debugger.ReportBreakpoint` | hw4/sdb.cpp:257-282 | rip is moved back, the slot filled and a hit recorded exactly if the address before rip is a breakpoint and starts a cached instruction; otherwise nothing changes |
| `Sdb.Debugger.WaitForHalt` | hw4/sdb.cpp:251-255 | after PTRACE_CONT the native program is where its own uninterrupted run first meets a breakpoint, a signal or exit |
| `Sdb.Debugger.ForgetProcess` | hw4/sdb.cpp:290-291 | process, path and breakpoints are dropped; slot and disassembly survive |
| `Sdb.Debugger.Resume` | hw4/sdb.cpp:251-293 | the session lands on the halt of the native run |
| `Sdb.Debugger.Cont` | hw4/sdb.cpp:215-293 | `cont` on the patched process is `ContSpec` on the native one: step over the slot if rip is there, then run to the first breakpoint, signal or exit |
| `Sdb.Debugger.Si` | hw4/sdb.cpp:540-551 | one native instruction if rip is at no breakpoint, else rip moves one byte on and nothing runs |
| `Sdb.Debugger.SetReg` | hw4/sdb.cpp:513-538 | the named register of the native program gets the value modulo 2^64; an unknown name or a stopped state changes nothing |
| `Sdb.Debugger.PrintReg` | hw4/sdb.cpp:366-389 | the value shown is that register of the native program, or nothing for an unknown name |
| `Sdb.Debugger.PrintAllRegs` | hw4/sdb.cpp:391-411 | the eighteen values are those of the native program, the one named RBX being the word at offset 4 |
| `Sdb.Debugger.DumpWord` | hw4/sdb.cpp:199-207 | the eight bytes shown are those of patched memory in address order, or 0xff where the word cannot be read |
| `Sdb.Debugger.DumpWords` | hw4/sdb.cpp:189-213 | ten consecutive words, addresses wrapping at 2^64 |
| `Sdb.Debugger.FetchText` | hw4/sdb.cpp:115-127 | the buffer holds memory up to the first unreadable word, then zeros; in the last 64 bytes of the address space, where the bound of the loop wraps around, it holds zeros |
| `Sdb.Debugger.Disassemble` | hw4/sdb.cpp:113-152 | at most the one instruction at the address is added to the cache; -1 exactly if there is none |
| `Sdb.Debugger.GetOrigCode` | hw4/sdb.cpp:69-96 | terminates for every decoder and adds exactly the linear sweep of the text section, whose end is computed modulo 2^64 |
| `Sdb.Debugger.DisasmFrom` | hw4/sdb.cpp:319-359 | prints up to ten cache entries from the first one with the given address on, and nothing if there is none |
| `Sdb.Debugger.Load` | hw4/sdb.cpp:449-461 | only without a program: it is remembered, nothing runs, `Valid` is kept |
| `Sdb.Debugger.Start` | hw4/sdb.cpp:553-588 | only with a loaded program: an unpatched process runs and the cache holds its text |
| `Sdb.Debugger.Run` | hw4/sdb.cpp:463-479 | natively the effect of `start` and `cont`, of `cont`, or none, by state |
| `Sdb.Debugger.Dispatch` | hw4/sdb.cpp:635-733 | every command refines its native meaning and keeps `Valid` |
| `Sdb.Debugger.Execute` | hw4/sdb.cpp:624-737 | every command sequence refines its native meaning; at its end the process is native memory with traps at exactly the breakpoint addresses |
| `NativeSession.LandFromTrap` | hw4/sdb.cpp:261-277 | deciding by the address before rip loses nothing on a true breakpoint |
| `NativeSession.OutcomeKeepsSavedBytes` | hw4/sdb.cpp:261-275 | at the halt the native bytes under the breakpoints are the same and still mapped, and a halt at a breakpoint is at one of the table's |
| `NativeSession.BreakKeepsInv` | hw4/sdb.cpp:173-182 | addresses stay distinct and mapped |
| `NativeSession.DeleteKeepsInv` | hw4/sdb.cpp:299-310 | the slot still names an entry or is empty after `erase` |
| `NativeSession.ContKeepsInv` | hw4/sdb.cpp:215-293 | `cont` keeps the session invariant, through step over, hit, signal and exit |
| `NativeSession.SiKeepsInv` | hw4/sdb.cpp:540-551 | `si` keeps it, and off a breakpoint keeps the native bytes under the patches |
| `NativeSession.ExecKeepsInv` | hw4/sdb.cpp:635-733 | every command keeps it |
| `NativeSession.SessionKeepsInv` | hw4/sdb.cpp:624-737 | in every reachable state breakpoints are distinct, mapped and present only while running, and a filled slot is one of them |
| `NativeSession.QuitIsFinal` | hw4/sdb.cpp:26-30 | after `errquit` no command has an effect |
| `CommandEffects.LookingChangesNothing` | hw4/sdb.cpp:654-695 | `disasm`, `dump`, `list`, and `get` and `getregs` of a live child change nothing |
| `CommandEffects.NeedsRunning` | hw4/sdb.cpp:156-160 | without a running program `break`, `delete`, `cont`, `si`, `set`, `get` and `getregs` change nothing |
| `CommandEffects.NeedsItsState` | hw4/sdb.cpp:451-478 | `load`, `start` and `run` in a state that is not theirs change nothing |
| `CommandEffects.LoadEffect` | hw4/sdb.cpp:457-460 | the program loaded is remembered with its path, entry and size; nothing else changes |
| `CommandEffects.StartEffect` | hw4/sdb.cpp:576-586 | the child is exactly the image that exec made; nothing but state, child and cache changes |
| `CommandEffects.BreakEffect` | hw4/sdb.cpp:169-186 | exactly the new addresses enter the table, at its end, the others keeping their places; the debugger ends exactly if a new one cannot be read; nothing else changes |
| `CommandEffects.DeleteEffect` | hw4/sdb.cpp:297-316 | position by position: what is left of the table, when the slot is emptied, and when the debugger ends |
| `CommandEffects.DeletedIsGone` | hw4/sdb.cpp:310 | afterwards the table has exactly the other addresses |
| `CommandEffects.OffsetsFollowStruct` | hw4/sdb.h:56-73 | every name stands for the word of that name in the register structure |
| `CommandEffects.NamedInStruct` | hw4/sdb.h:56-73 | and no other name has an offset |
| `CommandEffects.GetShowsWord` | hw4/sdb.cpp:378-388 | `get` shows the word of that name |
| `CommandEffects.SetEffect` | hw4/sdb.cpp:532-537 | `set` writes the word of that name; the other 26, memory and debugger stay |
| `CommandEffects.SetUnknown` | hw4/sdb.cpp:525-530 | `set` with any other name changes nothing |
| `CommandEffects.SiEffect` | hw4/sdb.cpp:549-550 | one native instruction, trap or signal, or exit, off a breakpoint; one byte on at a breakpoint; nothing else changes |
| `CommandEffects.ContEffect` | hw4/sdb.cpp:226-292 | child, slot, hits, table and state after `cont`, each from how the native run first ends: reported, missed, signalled, taken for a hit, or exited |
| `CommandEffects.QuitsExactly` | hw4/sdb.cpp:26-30 | a command ends the debugger if and only if it needs a child that is gone, or breaks at a new address that cannot be read, or continues at the slot with the slot empty or the instruction there exiting |
| `CommandEffects.DeadChildKeeps` | hw4/sdb.cpp:227-228 | with a child that is gone nothing else changes, but that `break` has added its address and `delete` emptied the slot |
| `Transparency.LandIsIdeal` | hw4/sdb.cpp:255-283 | the stop is treated as an ideal debugger would if and only if the breakpoint reached starts a cached instruction and no signal looks like a hit |
| `Transparency.StepOverIsNative` | hw4/sdb.cpp:232-246 | the step over is the native step if and only if no store of the instruction changes a byte of its eight-byte window |
| `Transparency.SiIsNative` | hw4/sdb.cpp:540-551 | `si` runs one native instruction if and only if rip is at no breakpoint or the instruction there is a one-byte no-op |
| `Transparency.SiAfterHit` | hw4/sdb.cpp:273-278 | `si` right after a reported hit runs no instruction and leaves rip one byte on |
| `Transparency.ContStopsAtFirstVisit` | hw4/sdb.cpp:226-293 | `cont` lands on the first breakpoint address, signal or exit of the uninterrupted native run, counted from rip, or from behind the instruction at rip when rip is at the slot |
| `Transparency.TicksReplay` | hw4/sdb.cpp:251-253 | `n` uninterrupted steps are a replay without edits |
| `Transparency.ReplayAppend` | hw4/sdb.cpp:624-737 | replays compose, and so do their edits |
| `Transparency.ReachesHalt` | hw4/sdb.cpp:251-253 | the machine at a halt, or the one about to exit, comes from the start by native steps alone |
| `Transparency.ContTransparent` | hw4/sdb.cpp:215-293 | a clean `cont` leaves the program somewhere native steps alone lead; if it leaves no live child, native steps lead to an exit |
| `Transparency.CommandTransparent` | hw4/sdb.cpp:635-733 | every clean command amounts to native steps and its own register edit |
| `Transparency.SessionTransparent` | hw4/sdb.cpp:624-737 | after any clean session registers and unpatched memory are those of an undebugged machine after native steps and exactly the session's register edits, in order |
| `Transparency.CommandExits` | hw4/sdb.cpp:635-733 | a clean command that leaves no live child found a program that native steps alone take to its exit |
| `Transparency.SessionExits` | hw4/sdb.cpp:624-737 | a clean session whose last command leaves no live child ends only where the undebugged machine, given the same register edits, exits |
| `HitList.NextVisit` | hw4/sdb.cpp:251-282 | the run from any point ends at the next breakpoint address or signal of the trace, with the same remaining trace, or at exit if there is neither |
| `HitList.ContRuns` | hw4/sdb.cpp:251-282 | off the slot `cont` lands on that halt |
| `HitList.HitsFromVisit` | hw4/sdb.cpp:230-282 | the report at a breakpoint is followed by the reports of the run from behind it |
| `HitList.HitsFromSignal` | hw4/sdb.cpp:255-283 | a signal that does not look like a hit costs one `cont` and adds no report |
| `HitList.HitsAreVisits` | hw4/sdb.cpp:230-292 | hit list: with fixed breakpoints, one more `cont` than there are visits and signals runs the program to exit and reports exactly its rip trace filtered to breakpoint addresses, in order and with multiplicity; then nothing is loaded and no breakpoint left, unless the exiting instruction is at a breakpoint, which ends the debugger |
| `HitList.RipTraceIs` | hw4/sdb.cpp:251-253 | the trace of rip is that of an undebugged machine after 0, 1, 2 and more instructions |
| `HitList.VisitsAreFiltered` | hw4/sdb.cpp:261-273 | the visits are that trace filtered to breakpoint addresses |
| `DebuggerRuns.DeleteEverything` | hw4/sdb.cpp:295-317 | deleting all breakpoints through any sequence of valid indexes gives the child its native memory back byte for byte, with registers unchanged and slot and table empty |
| `DebuggerRuns.PatchesInPlace` | hw4/sdb.cpp:169-185 | in every state of a live child it has 0xcc at exactly the distinct addresses of the table, whose entries hold the native bytes, and native bytes elsewhere |
| `DebuggerRuns.DumpShowsMemory` | hw4/sdb.cpp:192-208 | word `k` of a dump is the child's memory at `start + 8k` modulo 2^64, byte by byte, or 0xff |
| `DebuggerRuns.ContinueOnce` | hw4/sdb.cpp:215-293 | after one `cont` to a breakpoint the child has the registers of the native run there, its memory under traps at the same addresses, the slot names the address, and the address is the one new report; after exit no process, breakpoint or new report is left |
| `DebuggerRuns.ContinueToExit` | hw4/sdb.cpp:215-293 | the hit list for the patched child: the debugger has reported exactly the visits of the unpatched program |
| `DebuggerRuns.RunCleanly` | hw4/sdb.cpp:624-737 | session transparency for the patched child: its registers, and its memory but for the traps at the breakpoints, are those of an undebugged machine given native steps and the session's register edits |
| `DebuggerRuns.RunCleanlyToExit` | hw4/sdb.cpp:624-737 | the same for a child that is gone at the end |
| `Lifetime.LifeMoves` | hw4/sdb.cpp:449-588 | the state moves only from not loaded to loaded to running to not loaded, each by the commands meant for it |
| `Lifetime.RunIsStartThenCont` | hw4/sdb.cpp:463-479 | `run` equals `cont`, the sequence `start`, `cont`, or nothing, by state |
| `Lifetime.StartNeedsEmptySlot` | hw4/sdb.cpp:553-588 | the invariant holds for a new process if and only if the slot is empty |
| `Lifetime.SlotAfterExit` | hw4/sdb.cpp:248-292 | after an exit the slot is empty if and only if it was empty or rip was at it when `cont` was given |
| `Lifetime.DeleteAll` | hw4/sdb.cpp:295-317 | deleting all breakpoints through any sequence of valid indexes ends without breakpoints or slot and leaves the rest of the session unchanged |
| `Lifetime.CacheKept` | hw4/sdb.cpp:138 | no command of one process lifetime changes the disassembly cache |
| `Lifetime.CacheIsProgram` | hw4/sdb.cpp:335-358 | entries printed from the cache of one memory tile and decode any memory with the same text |
| `Lifetime.ListingIsTen` | hw4/sdb.cpp:351-356 | ten consecutive entries are printed, or all up to the end of the cache if there are fewer |
| `Lifetime.PrintedFromLater` | hw4/sdb.cpp:336-358 | an address that the cache of earlier processes lacks is looked up in the entries of this one |
| `Lifetime.PrintedFromEarlier` | hw4/sdb.cpp:336-358 | an address that it has is answered from the old entries |
| `Lifetime.DisasmShowsProgram` | hw4/sdb.cpp:319-359 | whatever breakpoints were set, hit and deleted, `disasm` prints one to ten consecutive instructions, from the given address on, that decode the unpatched memory, as long as the program has not rewritten its text; but where the cache of an earlier process has the address, that old entry is printed first |
| `Lifetime.CacheIsHistory` | hw4/sdb.cpp:84-90 | after any session the cache is the concatenation of the sweeps of all processes it started, in order |
| `Lifetime.ListingIsRight` | hw4/sdb.cpp:335-358 | in any session over any number of processes the listing for an address begins with the instruction of the first process that had one there, and that is right for a memory if and only if the decoder makes the same of the address in both |
| `Lifetime.DumpIsNative` | hw4/sdb.cpp:189-213 | a word is shown as the program's own if and only if each patch in it covers a native 0xCC |
| `Lifetime.OffsetsInjective` | hw4/sdb.h:54-74 | two register names never share an offset, and every offset is inside the register file |
| `Lifetime.SetChangesOneRegister` | hw4/sdb.cpp:513-538 | after `set` reading that name gives the value, every other name what it gave before, and memory is unchanged |
| `Lifetime.GetRegsShowsRegisters` | hw4/sdb.cpp:406-410 | every printed name goes with its register if and only if rbx equals rbp |
| `Lifetime.GetRegsNames` | hw4/sdb.cpp:406-410 | the lines have the eighteen names in order, none twice, and every name of the offset table is among them |
| `Disassembly.FilledIsFetched` | hw4/sdb.cpp:120-127 | copying words until one cannot be read gives memory up to that word, then zeros |
| `Disassembly.SweepNext` | hw4/sdb.cpp:84-90 | one turn of the sweep: nothing more where decoding fails, else the instruction and the sweep from behind it |
| `Disassembly.DecodeAt` | hw4/sdb.cpp:129-148 | an instruction is recorded under its own address with a length of 1 to 15 and as many bytes |
| `Disassembly.RecordsDecoded` | hw4/sdb.cpp:129-142 | on mapped text the decoder gets the 63 bytes there, and address, length, mnemonic, operands and the bytes in memory are recorded, each in its own field, exactly if it finds an instruction |
| `Disassembly.SweepTiles` | hw4/sdb.cpp:82-90 | the sweep tiles memory without gap or overlap from the entry, each tile decodes the bytes at its address, it overshoots the end by less than 15 bytes and falls short of it only where decoding fails |
| `Disassembly.SweepSameText` | hw4/sdb.cpp:82-90 | the sweep depends on the text and the 64 bytes after it only |
| `Disassembly.FirstEntry` | hw4/sdb.cpp:335-343 | the first cache entry for an address is what the decoder made of the first text with an instruction there |
| `ToyProcessor.ToyIsLocal` | hw4/sdb.cpp:241-253 | a processor with loads, stores, jumps, mapping and unmapping, input, traps and exit meets the locality assumption |
| `ToyProcessor.LoadSeesPatch` | hw4/sdb.cpp:185 | a program that loads a patched byte sees 0xCC |
| `ToyProcessor.StepOverLosesStore` | hw4/sdb.cpp:233-245 | a stepped-over store into its own window leaves no trace |
| `ToyProcessor.SignalTakenForHit` | hw4/sdb.cpp:261-278 | an illegal instruction one byte past a breakpoint is reported as a hit and rip moved back |
| `ToyProcessor.BreakpointMissed` | hw4/sdb.cpp:268-281 | a breakpoint that starts no cached instruction is not reported and the child is left one byte behind it |
| `ToyProcessor.SlotSurvivesExit` | hw4/sdb.cpp:284-292 | a program that exits from elsewhere leaves the slot filled with nothing loaded |
| `ToyProcessor.ExitWhileSteppingOver` | hw4/sdb.cpp:241-246 | a program that exits at the breakpoint stepped over ends the debugger |
| `ToyProcessor.AdjacentBreakpoints` | hw4/sdb.cpp:230-282 | a program with adjacent breakpoints, the first on its first instruction, meets the assumptions of the hit list and visits both in order |
| `ToyProcessor.TrapBeforeBreakpoint` | hw4/sdb.cpp:230-282 | so does a program with a trap of its own one byte before a breakpoint: one signal, one visit |
| `ToyProcessor.MapReadUnmap` | hw4/sdb.cpp:230-282 | and a program that maps memory, reads input, is stopped, and unmaps it again |
| `ToyProcessor.TwoSetIsReached` | hw4/sdb.cpp:624-737 | `load`, `start` and two `break` commands lead from the initial state to that situation |
| `ToyProcessor.AdjacentBreakpointsReported` | hw4/sdb.cpp:230-292 | from it three `cont` commands report both addresses in order and end with nothing loaded |
| `ToyProcessor.StaleListing` | hw4/sdb.cpp:335-358 | a second program with other text at 16: the listing for 16 shows the instruction of the first |
| `SetJump.Core.Setjmp` | hw3/libmini64.asm:82-107 | the code, instruction by instruction; if the buffer is apart from the two stack words used it returns 0 to its caller with the callee-saved registers and mask kept, the eight words in the buffer, and memory changed in the buffer and those two words only |
| `SetJump.Core.Longjmp` | hw3/libmini64.asm:109-131 | the code, instruction by instruction; if the buffer is apart from the two words below the restored stack pointer it jumps to the saved address with the saved registers and its second argument in rax, having changed those two words only |
| `SetJump.SavedInOrder` | hw3/libmini64.asm:84-94 | the interleaved stores and pushes leave all eight words in the buffer and both words on the stack, none overwriting another |
| `SetJump.SetjmpSaves` | hw3/libmini64.asm:82-107 | the result of the `setjmp` code is what its caller may rely on whenever the buffer is apart from the two stack words |
| `SetJump.JumpBufferLayout` | hw3/libmini64.asm:85-104 | the buffer holds rbx, rsp, rbp, r12 to r15 and the return address in this order, and 0 for the mask |
| `SetJump.LongjmpLoads` | hw3/libmini64.asm:109-131 | the same for `longjmp`: both words pushed are popped again and the jump target is read from the untouched buffer |
| `SetJump.RoundTrip` | hw3/libmini64.asm:82-131 | whatever runs between `setjmp(buf)` and `longjmp(buf, v)`, if it keeps the eight words, control is back at the return of `setjmp` with rsp, rbx, rbp and r12 to r15 as then, rax = v, memory changed in two words below rsp only, and the buffer good for another jump |
| `SetJump.LongjmpAllowed` | hw3/libmini64.asm:119-120 | the stack words `longjmp` will use are apart from the buffer if those of `setjmp` were |
| `SetJump.ReturnsStandardValue` | hw3/libmini64.asm:129 | the value of the second return is the standard's if and only if `val` is not 0 |
| `SetJump.MaskIsNotSaved` | hw3/libmini64.asm:96-104 | the mask field holds 0, and the mask after the jump is that at `setjmp` if and only if it was that at `longjmp` |
| `JumpLoop.StraightBehaves` | hw3/jmp1.c:6 | functions that push a return address, print and go to `longjmp` are among those the whole run allows |
| `JumpLoop.FunBodiesBehave` | hw3/jmp1.c:6 | so are functions that clear `errno` on the way, as `write` does (hw3/libmini.c:28-32), in a layout that keeps everything but the stack below `main` and `errno` |
| `JumpLoop.FirstArrival` | hw3/jmp1.c:23 | the first `setjmp` return is at the resume point with value 0, the registers of the caller, and a buffer that leads back there |
| `JumpLoop.CallAllowed` | hw3/jmp1.c:6 | every function that keeps the buffer calls `longjmp` with it as `setjmp` left it, apart from the stack words |
| `JumpLoop.ArrivesWith` | hw3/jmp1.c:6 | a `longjmp` through such a buffer arrives at the resume point on the stack of `main` with its callee-saved registers |
| `JumpLoop.CallComesBack` | hw3/jmp1.c:26 | calling function `k` brings control back to the resume point with value `k + 1`, the callee-saved registers of `main`, a buffer good for the next jump, and everything unchanged that the functions keep |
| `JumpLoop.CounterSet` | hw3/jmp1.c:22-24 | writing the counter is read back and disturbs neither buffer nor other memory |
| `JumpLoop.SetjmpCalled` | hw3/jmp1.c:23 | from the push of its return address to its return the call of `setjmp` leaves counter, callee-saved registers and other memory alone |
| `JumpLoop.CallSetjmp` | hw3/jmp1.c:23 | the same of the code |
| `JumpLoop.Enter` | hw3/jmp1.c:22-23 | `main` reaches the resume point with counter 0 and value 0 |
| `JumpLoop.CallFunction` | hw3/jmp1.c:26 | one turn of the loop: the state is that of `longjmp` called where function `i` calls it; its message has been printed; the counter, all that the functions keep and the callee-saved registers of `main` survive |
| `JumpLoop.RunMain` | hw3/jmp1.c:21-28 | whole run: for any number of functions, which may write to any memory but buffer and counter, each is called exactly once, in order, from the state in which the one before it came back; the output is their messages in order; then `main` returns 0 with the stack pointer and callee-saved registers it was called with, and what no function writes to has changed in the buffer and the counter only |
| `Tokenizer.SplitStr2Vec` | hw4/sdb.cpp:32-51 | terminates and returns the maximal non-empty separator-free runs |
| `Tokenizer.TokensOfPadded` | hw4/sdb.cpp:32-51 | splitting a join gives the tokens back, whatever separators lead, trail or repeat |
| `Tokenizer.PaddingExists` | hw4/sdb.cpp:32-51 | every line is such a join of its own tokens |
| `Tokenizer.TokensCharacterised` | hw4/sdb.cpp:32-51 | the tokens of a line are `toks` if and only if the line is `toks` joined by non-empty separator padding, with any padding at the ends |
| `RangeIndex.EquivalentIsNested` | hw4/ptools.cpp:13-16 | two ranges are the same key if and only if one lies within the other |
| `RangeIndex.StrictTotalOrder` | hw4/ptools.cpp:13-16 | on disjoint non-empty ranges the comparison is irreflexive, asymmetric, transitive and total |
| `RangeIndex.AssignKeepsAll` | hw4/ptools.cpp:46 | inserting a region apart from the stored ones adds exactly it and keeps address order |
| `RangeIndex.AssignAdds` | hw4/ptools.cpp:46 | assignment adds the region if and only if no stored key is nested with it, and otherwise keeps the size |
| `RangeIndex.AssignStores` | hw4/ptools.cpp:46 | afterwards the region is stored under an equivalent key, its own if new, and every other node is as before |
| `RangeIndex.LoadedIsChain` | hw4/ptools.cpp:24-48 | for every input each key of the map is less than every later one, although the comparison is no ordering of overlapping ranges |
| `RangeIndex.ChainSearch` | hw4/ptools.cpp:46 | the keys less than a given one are exactly those before the place found for it, so every search tree finds that place |
| `RangeIndex.NewIfNotNestedThere` | hw4/ptools.cpp:46 | the key found there decides whether any is nested with the new one |
| `RangeIndex.LoadedSize` | hw4/ptools.cpp:24-48 | for every input the map is as large as the input, and holds the same regions under their own ranges, if and only if no range of the input lies within another |
| `RangeIndex.LoadedDisjoint` | hw4/ptools.cpp:24-48 | disjoint non-empty regions are all kept and listed by address |
| `RangeIndex.Maps.Assign` | hw4/ptools.cpp:46 | an equivalent key stays as it is and gets the new value, any other is inserted at its lower bound |
| `RangeIndex.Maps.LoadMaps` | hw4/ptools.cpp:24-48 | for every input no region is lost if and only if no range lies within another; disjoint non-empty regions, in any order, are never lost and end up by ascending address; the size of the map is returned |
| `RangeIndex.SubRangeFindsRegion` | hw4/ptools.cpp:13-16 | a sub-range of a stored region is the same key as that region, greater than those before and less than those after it, and a search for it ends there |
| `SignalSet.SigSet.SigEmptySet` | hw3/libmini.c:317-321 | afterwards no signal is a member |
| `SignalSet.SigSet.SigFillSet` | hw3/libmini.c:323-327 | afterwards all of 1 to 64 are members |
| `SignalSet.SigSet.SigAddSet` | hw3/libmini.c:329-337 | adds that signal and no other; out of range returns -EINVAL and changes nothing |
| `SignalSet.SigSet.SigDelSet` | hw3/libmini.c:339-344 | removes that signal and no other, for every signal |
| `SignalSet.SigSet.SigIsMember` | hw3/libmini.c:346-350 | 1 or 0 as the signal is in the set, for every signal |
| `SignalSet.WordRefinesSet` | hw3/libmini.c:317-344 | every operation on the word is the operation on the mathematical set: changing one bit disturbs none of the other 63 |
| `SignalSet.RunRefinesSet` | hw3/libmini.c:317-350 | the same after any sequence of operations |
| `SignalSet.MemberIsDigit` | hw3/libmini.c:334-335 | signal `n` is a member if and only if the binary digit of weight 2^(n-1) is set in the word |
| `Lsof.EraseOrKeep` | hw1/hw1.cpp:93-103 | erasing at the index or moving it on keeps the part before it the filter of what has been seen and the part after it unseen |
| `Lsof.Lister.SearchComm` | hw1/hw1.cpp:88-105 | erasing in place while scanning leaves the processes at exactly the old positions whose command matches, in order; the empty pattern keeps all |
| `Lsof.Lister.EraseFiles` | hw1/hw1.cpp:115-125 | the inner loop filters the files of one process and touches no other |
| `Lsof.Lister.EraseAllFiles` | hw1/hw1.cpp:113-126 | the same for every process |
| `Lsof.Lister.SearchType` | hw1/hw1.cpp:108-128 | every process keeps exactly the files whose type matches, in order; the empty pattern keeps all |
| `Lsof.Lister.SearchFile` | hw1/hw1.cpp:130-150 | every process keeps exactly the files whose name matches, in order; the empty pattern keeps all |
| `Lsof.Lister.PrintAll` | hw1/hw1.cpp:73-86 | emits every entry, process by process |
| `Lsof.Lister.ListFiltered` | hw1/hw1.cpp:544-552 | what is printed are the original rows at exactly the positions where command, type and name match their patterns or the pattern is empty, in order and with multiplicity |
| `Lsof.PipelineRows` | hw1/hw1.cpp:544-552 | filtering processes and then their files twice keeps exactly the rows that pass all three tests, in order |
| `Lsof.FilterTakes` | hw1/hw1.cpp:93-103 | a filter takes the elements at exactly the positions that pass, in order |
| `Lsof.FilterCounts` | hw1/hw1.cpp:93-103 | and each as often as it was there |
| `Lsof.AllRowsAppend` | hw1/hw1.cpp:77-85 | the rows of two lists follow each other |
| `Lsof.AllRowsOfOne` | hw1/hw1.cpp:79-83 | the rows of a process are its files in order, each with the process's command, id and user |
| `Lsof.FileFiltersCommute` | hw1/hw1.cpp:549-550 | the order of the two file filters does not matter |
| `Lsof.CommFilterCommutes` | hw1/hw1.cpp:548-550 | nor does that of the process filter and a file filter |
| `Lsof.GetMem` | hw1/hw1.cpp:337-379 | for every word stream the result names each word with a slash once, by first appearance, all with the same other fields |
| `Lsof.AddOnce` | hw1/hw1.cpp:347-376 | the scan of the vector it appends to terminates and adds the entry exactly if its name is new |
| `Lsof.FirstAppearancesAre` | hw1/hw1.cpp:337-379 | no name twice, exactly the words with a slash, and more input only adds at the end |

## Left out

- Sdb.StepPast: the instruction stepped over must store to no patched byte but those in its own window and load no other patched byte, since it would do something else natively.
- Sdb.Debugger.StepOverBreakpoint: likewise.
- Sdb.Debugger.WaitForHalt: the program must not use patched bytes as data, nor unmap those at a breakpoint; `LoadSeesPatch` shows why. A run that never halts is outside, since `waitpid` does not return then.
- Sdb.Debugger.Resume: likewise.
- Sdb.Debugger.Cont: likewise, and for the instruction stepped over as above.
- Sdb.Debugger.Si: the instruction at an unpatched rip must not touch patched bytes.
- Sdb.Debugger.GetOrigCode: the end of the text, modulo 2^64, is not in the last 15 bytes of the address space, from where the sweep may wrap around and not terminate.
- Sdb.Debugger.Load: likewise for the text range of the ELF header.
- Sdb.Debugger.Start: one lifetime only, so the slot must be empty, and the image does not map address 0, which the code uses for an empty slot. `StartNeedsEmptySlot` and `SlotAfterExit` say exactly when it is.
- Sdb.Debugger.Run: what `start` and `cont` ask.
- Sdb.Debugger.Dispatch: what the single commands ask.
- Sdb.Debugger.Execute: what the single commands ask, at their turn. `exit`, `help`, `vmmap`, number parsing and the text of messages are not commands of the model; hits are recorded instead of printed.
- Sdb.Debugger.Disassemble: lengths outside 1 to 15 count as a failed decode; Capstone never gives them.
- HitList.HitsAreVisits: breakpoint bytes are code only and stay mapped, stores lost in a step over are excluded, and so are signals that look like hits; `LandIsIdeal` says what happens then.
- HitList.NextVisit: likewise.
- HitList.ContRuns: likewise.
- HitList.HitsFromVisit: likewise.
- DebuggerRuns.ContinueToExit: likewise.
- SetJump.Core.Setjmp: no page faults, flags or signals during the routine.
- SetJump.Core.Longjmp: likewise.
- JumpLoop.RunMain: the functions are any code that keeps the buffer and the counter and ends in its `longjmp`; the compiled code of `main` is taken as its C statements, with the counter as four bytes of memory.
- RangeIndex.Maps.Assign: the nodes of `std::map` are a sequence in iteration order, without the tree above them.
- RangeIndex.Maps.LoadMaps: reading and cutting `/proc/<pid>/maps` is not modelled.
- SignalSet.SigSet.SigDelSet: nothing is said for numbers outside 1 to 64, whose shift amounts have no defined meaning in C.
- SignalSet.SigSet.SigIsMember: likewise.
- Tokenizer.SplitStr2Vec: lines shorter than 2^31, since positions are of type `int`.
- Real ptrace, waitpid, fork and exec: the class `Tracee` stands for them.
- Threads, delivery of signals to the program, and programs that unmap or rewrite their own text under a breakpoint.
- `elf_read`, the listing of `list`, and `hex_to_char`: input, output and formatting.
- The `sys_*` wrappers, `sigaction`, `signal`, `sleep` and `perror` of `hw3/libmini.c`, and `hw3/start.asm`: kernel behaviour.
- Reading `/proc`, file types and regular expressions of `hw1`: words, types and an arbitrary matching predicate take their place.
- The `hw2` logger: library interposition and output.
