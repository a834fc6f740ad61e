# A verified model of the AFL binary rewriter and its runtime

The rewriter (`add_afl.py`) places a coverage trampoline at block heads of an existing x86-64 binary,
wraps a target function in a persistent-mode loop and links in a small C runtime
(`instrumentation/afl-instrumentation.c`) that talks to the fuzzer. This project models that code and
proves what it is for: the instrumented program computes what the original computed, the bitmap means
one exact thing, a persistent session runs exactly the bodies it should, and the forkserver has at
most one child, with an exact account of the failures that leave it behind.

How the files fit together:

- `Words`, `Machine`: fixed-width words and a small x86-64 semantics with sixteen registers, both
  halves of the xmm registers, six flags and byte memory.
- `Coverage`: the edge bitmap as a fold over block ids. `Trampoline` proves that the emitted code
  computes one step of that fold; `Instrument` lifts this to whole programs and runs,
  `RedZone` to the rule that compiled programs obey.
- `Calls`, `RegBackup`, `Wrapper`: the aligned-call idiom, the register backup area and the
  persistent-mode wrapper, as runs of emitted instructions. Callees are known by contract; `Progress`
  proves that these contracts can always be met.
- `Loop`: the pass counter. It is one definition shared by the wrapper (its contract for the
  loop call), the runtime class (which is proved to implement it) and the session.
- `Runtime`: the C runtime as a class over arrays, refined to values on which coverage isolation is
  proved.
- `Handshake`, `Forkserver`, `Session`: the status words, the forkserver as a transition system with a
  class that is proved to run only its steps, and the joint system in which server and child take
  turns in any order. `SessionMap` adds the tracer's data and the
  fuzzer's map to the same turns.
- `Blocks`: where trampolines go. `Lines`, `Splitter`, `Listing`, `Rodata`: the assembly splitter, its
  string tally and the padding computed from it.

Statements that are false of the code are stated as they are: counters can wrap to zero
(`CounterCanWrapToZero`), `CallFunctionPatch` keeps the flags only by coincidence (the exact condition
is part of `CallFunctionPatchKeepsRegisters`), a pass is isolated only if the fuzzer cleared
every cell but the first (`IsolationExactly`), a merged block may be lost or stand in two lists
(`LostBlocks`, `RepeatsExactly`), a map of size 0 is announced as 1 (`HelloDecodes`), the string tally is off by
the escapes, dropped sections and early quotes that `TotalExactly` adds up, and three of the
forkserver's error exits leave an unreaped child behind: a failed pid write always, a failed status
write or command read when the child was stopped (`ExitLeavesChild`). The comment at add_afl.py:631 says that the flags are stored on the
stack; the code keeps them in `rax`, and the model follows the code.

## Model

| member | source | states |
|---|---|---|
| Instrument.InstrumentationPreservesMeaning | add_afl.py:103-114 | For every program, with direct jumps and calls and ones through registers or memory, every set of instrumented blocks and every run: the instrumented program follows the original block by block with the whole processor state equal (general and xmm registers, flags and all the rest), equal memory except the tracer's cells and stack bytes more than 0x80 below rsp that were never rewritten; it leaves the program exactly when the original does, and its bitmap is the fold of the ids of the sites passed |
| RedZone.CompiledProgramsAreFollowed | add_afl.py:103-114 | The same for every run that obeys the ABI's red-zone rule, stated with the ABI's own 128 bytes: if the program never reads what lay more than 0x80 below rsp at a block entry and was not written since, and has 0xa0 bytes of stack at each site, then all processor state is equal and all memory outside the tracer's data and such bytes |
| RedZone.SiteBelowRedZone | add_afl.py:104 | Whatever the trampoline makes differ at a site lies more than 0x80 below rsp there |
| Instrument.TrampolineRuns | add_afl.py:103-114 | One trampoline with its call: every register and flag is as before, one edge is recorded, and outside the tracer's data no byte at or above rsp - 0x80 or below rsp - 0xa0 changes |
| Instrument.TracedRuns | add_afl.py:629-649 | The call of `__afl_trace` returns to its call site with rsp, flags and all registers but rax, rcx, rdx unchanged and one fold step done |
| Trampoline.TraceBodyRuns | add_afl.py:631-647 | The tracer's instructions leave all six flags as they were, change only rax, rcx and rdx, and update memory as one recorded edge |
| Trampoline.RestoreFlagsRuns | add_afl.py:645-647 | `add al,0x7f` then `sahf` bring back all six flags saved by `lahf` and `seto`, whatever happened to the flags in between |
| Trampoline.LocateRuns | add_afl.py:636-641 | rcx ends as previous location xor id, the location cell as id shifted right by one, and CF as the low bit of the id |
| Trampoline.BumpRuns | add_afl.py:642-643 | `inc` keeps CF, so with `adc` the counter grows by one plus the low bit of the id, modulo 256 |
| Machine.LowFlagsRoundTrip | add_afl.py:632-647 | The lahf byte has CF, PF, AF, ZF and SF in bits 0, 2, 4, 6 and 7, and sahf reads them back |
| Coverage.BitmapMeaning | add_afl.py:636-643 | After any sequence of ids every cell is its start value plus, for each edge that hashes to it, one plus the low bit of the destination, modulo 256; the location is the last id halved |
| Coverage.CounterCanWrapToZero | add_afl.py:642-643 | 256 hits of one edge with an even id bring a counter back to where it was, so a hit cell may read zero |
| Coverage.CellOf | add_afl.py:639-642 | For ids of 16 bits the index is always inside the map |
| Coverage.GrayInjective | add_afl.py:639-641 | x xor (x shifted right by one) is injective for numbers of any width |
| Coverage.EdgeDirectionsSeparate | add_afl.py:639-642 | The edges a to b and b to a hit the same cell if and only if a = b, for ids of any width |
| Coverage.EdgeDestinationsSeparate | add_afl.py:639-642 | Two edges out of one block hit the same cell if and only if they have the same destination |
| Words.XorCancels | add_afl.py:639-640 | The second xor leaves the plain block id in the location cell |
| Words.XorBits | add_afl.py:639-640 | Exclusive-or is bitwise: bit i of the result is set if and only if bit i of exactly one operand is |
| Words.PlusIsModular | add_afl.py:104-113 | Address arithmetic is modulo 2^64 |
| Words.MinusIsModular | add_afl.py:42-45 | So is that of pushes |
| Machine.AddFlagsMeaning | add_afl.py:643-646 | Carry is unsigned overflow, overflow is signed overflow, zero and sign are those of the result |
| Machine.SubFlagsMeaning | add_afl.py:42 | The same for differences |
| Machine.Read64Bytes | add_afl.py:407-435 | Words are stored little-endian, byte by byte |
| Calls.AlignedCall | add_afl.py:477-496 | For every rsp and every callee that follows the ABI: the call happens on a multiple of 16, nothing at or above entry rsp minus 128 is written, afterwards rsp is what it was and callee-saved registers are kept |
| Calls.CallFunctionPatchKeepsRegisters | add_afl.py:40-80 | All sixteen general registers end as they began, nothing at or above entry rsp - 0x80 is written, and the flags are kept if and only if they happened to be those of the closing `add rsp`, which are spelt out flag by flag |
| RegBackup.BackupRuns | add_afl.py:401-436 | Backup stores each register in its own slot of the hook's struct, changes no register or flag and no byte outside the area, and leaves the high xmm halves in the area alone |
| RegBackup.RestoreRuns | add_afl.py:438-473 | Restore loads the fourteen registers and low xmm halves from their slots, clears the high halves, and touches neither rsp, rbp, the flags nor memory |
| RegBackup.BackupLayout | add_afl.py:406-435 | By name and offset: rax at 0x0, rbx 0x8, rcx 0x10, rdx 0x18, rdi 0x20, rsi 0x28, r8 to r15 at 0x30 to 0x68, the low half of xmm register i at 0x70 + 0x10 i; no register and no byte outside the 0x170 changes |
| RegBackup.RestoreLayout | add_afl.py:443-472 | Restore loads each register from the same offset |
| RegBackup.RestoreUndoesBackup | add_afl.py:401-473 | Restore after backup gives back all fourteen general registers and the low 64 bits of every xmm register, whatever the registers held in between |
| RegBackup.FileIsArea | sharedmem_hook_template/hook.h:3-9 | The slots of the struct tile the 0x170-byte area: two memories hold the same struct if and only if they agree on every byte of it |
| Loop.AgainExactly | instrumentation/afl-instrumentation.c:48-91 | Calls answer 1 exactly N times and then 0, where N is the argument or 2^32 for zero; all but the first of these stop the process; the counter value at every call |
| Wrapper.ToLoopCall | add_afl.py:521-546 | At the loop call the loop label is the word at entry rsp, the real return address is in its cell and the saved registers are untouched, on the first pass and on later ones |
| Wrapper.FromLoopCall | add_afl.py:539-552 | The call is aligned, rsp is back at the loop label, and the branch to the body is taken if and only if passes are left |
| Wrapper.HookRuns | add_afl.py:475-497 | The hook call is aligned and replaces the saved registers by what the hook made of them, with stack, counter and stolen address unchanged |
| Wrapper.HookSeesTestcase | add_afl.py:484-493 | The hook gets the register area in rdi, the test-case pointer in rsi and its length in rdx, and so exactly the bytes at the pointer, as many as the length word says, although the wrapper writes stack in between |
| Wrapper.HeadsKeepInvariant | add_afl.py:517-565 | Each time control reaches the loop label after k bodies: rsp is entry rsp on the first pass and entry rsp plus 8 later, the counter has made k calls, the real return address is safe, and the saved registers are the entry registers put through the hook k times |
| Wrapper.BodiesStartAlike | add_afl.py:554-565 | Every body starts at entry rsp with the loop label as return address, returns to it, and sees the entry registers put through the hook once per pass so far; rbp, which has no slot, is the entry rbp if the bodies before kept theirs |
| Wrapper.LoopEndsExactly | add_afl.py:517-559 | The body starts exactly N times (2^32 for a zero count); then control goes to the real return address with the stack as a plain return leaves it, the N-fold hook result in the registers and, if the bodies kept theirs, the entry rbp; from the first entry to that return, over all passes and the hook calls, every byte that is not the wrapper's own (its stack words, the stolen address, the register area) is what it was at entry unless a function the wrapper called changed it |
| Wrapper.PassLeaves | add_afl.py:521-565 | One whole pass, hook call included, changes no byte outside the wrapper's own that its callees spare |
| Wrapper.LeaveRuns | add_afl.py:554-559 | The closing `ret` takes the stolen return address and reloads the saved registers |
| Progress.AllPassesCanRun | add_afl.py:517-565 | From every entry, for every count and hook, there is a run with exactly N bodies after which the loop ends, and in which no byte but the wrapper's and the counter's cells changes: the contracts asked of the callees can be met at every pass |
| Progress.LoopCanReturn | add_afl.py:545-549 | At every pass the loop call has an outcome that meets its contract |
| Progress.HookCanReturn | add_afl.py:475-497 | So has the hook call, for every hook function |
| Runtime.Process.Setup | instrumentation/afl-instrumentation.c:151-171 | Both failures exit as the code does (one of them with an error word); otherwise the active map is the segment with cell 0 set, or the dummy without one |
| Runtime.Process.MapShm | instrumentation/afl-instrumentation.c:103-148 | A second call changes nothing; the first attaches the segment, reports a failed attachment, or leaves the dummy in place |
| Runtime.Process.TraceBlock | add_afl.py:636-643 | Updating one byte of the active array in place is one step of the value-level fold |
| Runtime.Process.PersistentLoop | instrumentation/afl-instrumentation.c:48-91 | Return value, both maps, location, counter and what the fuzzer could read during a stop, all against the value-level step |
| Runtime.TraceAllIsFold | add_afl.py:636-643 | Tracing any path is the pure fold on the active map and touches nothing else; the location stays below 2^15 |
| Runtime.PassesKeepAttached | instrumentation/afl-instrumentation.c:65-77 | Through all N passes the shared map stays active and the dummy untouched |
| Runtime.PassMap | instrumentation/afl-instrumentation.c:48-77 | Whatever the fuzzer does, after every pass the shared map is the fold of that pass's path, from location 0, over the fresh map in the first pass and over what the fuzzer left at the last stop with cell 0 set to 1 in the others |
| Runtime.IsolationExactly | instrumentation/afl-instrumentation.c:52-77 | A pass leaves the fold of its own path over the fresh map (cell 0 = 1, the rest 0) if and only if it is the first or the fuzzer left zeroes in every cell but cell 0 at the stop before it; for every pass, path and map |
| Runtime.CoverageIsolated | instrumentation/afl-instrumentation.c:52-77 | So if the fuzzer zeroes the map at every stop, every pass is isolated |
| Runtime.MapFrozenAfterLoop | instrumentation/afl-instrumentation.c:79-87 | Once the loop has answered 0 no sequence of traced blocks changes the shared map |
| Handshake.HelloDecodes | instrumentation/afl-instrumentation.c:242-249 | The announced size is the real one if and only if it is in 1..2^23, is absent if and only if it is larger, and the sharedmem flag always survives |
| Handshake.HelloWord | instrumentation/include/types.h:52-64 | The first word for every size and setting as a bit pattern, for instance (size - 1) shifted left by one with 0xc3000001 |
| Handshake.HelloIsNoError | instrumentation/include/types.h:41-63 | No first word contains all bits of 0xf800008f |
| Handshake.ErrorsDecode | instrumentation/afl-instrumentation.c:94-98 | A code survives the wire if and only if it is in 1..0xffff; what is sent is 0xf800008f with the code's low 16 bits from bit 8 on; exactly the codes 1..0xffff and the negative ones are sent |
| Forkserver.StepKeepsInv | instrumentation/afl-instrumentation.c:253-383 | Every step of server, kernel or signal handler keeps the invariant on children, flags and pipe |
| Forkserver.RunKeepsInv | instrumentation/afl-instrumentation.c:279-383 | So does every run |
| Forkserver.AtMostOneChild | instrumentation/afl-instrumentation.c:319-343 | In every reachable state at most one unreaped child exists, child_pid names it, and fork is reached only without one |
| Forkserver.StoppedFlagAtLoopHead | instrumentation/afl-instrumentation.c:311-372 | At each loop head child_stopped is set exactly when child_pid names an unreaped child, and exactly when the last status relayed was a stop of it |
| Forkserver.AtExitReapsChild | instrumentation/afl-instrumentation.c:174-183 | SIGTERM at any reachable state leaves no unreaped child |
| Forkserver.ExitLeavesChild | instrumentation/afl-instrumentation.c:258-382 | For every reachable state and every step that ends the server without the handler: an unreaped child is left behind if and only if it was the pid write that failed, or a status write or command read that failed while the child was stopped |
| Forkserver.FailuresExit | instrumentation/afl-instrumentation.c:258-382 | Every failed read, write or fork ends the server at once, with nothing more written and no child touched |
| Forkserver.FailedPidWriteLeavesChild | instrumentation/afl-instrumentation.c:346-350 | A failed pid write always leaves the child that was just forked or continued |
| Forkserver.PipeAlternates | instrumentation/afl-instrumentation.c:251-382 | In every reachable state, after an exit too: pid and status words alternate after the greeting, each status of the pid before it, or the server has exited after reporting error 4, that the test case could not be mapped |
| Forkserver.ProtocolShape | instrumentation/afl-instrumentation.c:253-382 | While the server runs: how many words are on the pipe at each point of round k, and that exactly k words have been read, plus one exactly with sharedmem fuzzing and no persistent mode |
| Forkserver.FirstRoundWritesNothingOff | instrumentation/afl-instrumentation.c:257-276 | The options word left in was_killed never writes off a child |
| Forkserver.KillWordDecides | instrumentation/afl-instrumentation.c:282-317 | For every command word, when the stopped child has been killed: any word but zero has the corpse reaped, zero leaves child and flag as they are |
| Forkserver.ToldTooEarly | instrumentation/afl-instrumentation.c:311-317 | Told so of a child that lives, the server waits for its death |
| Forkserver.KilledWhileStopped | instrumentation/afl-instrumentation.c:282-383 | The stopped-then-killed race from the command on: a told server reaps and forks; an untold one relays the death as the round's status with no fork |
| Forkserver.RoundEffect | instrumentation/afl-instrumentation.c:282-383 | One undisturbed round for every word and status: the child woken or forked is announced, that very status relayed with its pid, the child kept if and only if it is a stop, and every counter and flag as it ends |
| Forkserver.AnswerOutcomes | instrumentation/afl-instrumentation.c:257-276 | The ways out of the handshake with sharedmem fuzzing: no answer, a failed mapping reported as error 4, or a start in which the answer stands for the first command exactly in persistent mode |
| Forkserver.StopCodes | instrumentation/afl-instrumentation.c:372 | Stops by a signal are stops; exits, deaths and core dumps are not |
| Forkserver.SharedmemBits | instrumentation/afl-instrumentation.c:264-268 | The mapping is made if and only if bits 31, 24 and 0 of the answer are set, whatever the others |
| Forkserver.Server.Handshake | instrumentation/afl-instrumentation.c:251-276 | The handshake is a run of the transition system; it serves exactly when nothing failed |
| Forkserver.Server.TakeCommand | instrumentation/afl-instrumentation.c:282-290 | Reading a command is the system's step, with the read skipped once after the greeting |
| Forkserver.Server.WriteOffKilled | instrumentation/afl-instrumentation.c:308-317 | Writing off is the system's step, and blocks exactly when the child is not dead |
| Forkserver.Server.ForkOrContinue | instrumentation/afl-instrumentation.c:319-343 | Fork or SIGCONT is the system's step |
| Forkserver.Server.WaitForChild | instrumentation/afl-instrumentation.c:352-372 | The wait is the system's step, and blocks exactly when the system does not enable it |
| Forkserver.Server.AtExit | instrumentation/afl-instrumentation.c:174-183 | The handler is the system's step |
| Forkserver.Server.ServeRound | instrumentation/afl-instrumentation.c:279-383 | One turn of the loop is a run of the system; it ends at the loop head, in an exit, or at a wait that cannot return |
| Forkserver.Server.Serve | instrumentation/afl-instrumentation.c:218-384 | The whole server, with arbitrary kernel moves before each of the two waits of a round, runs only steps of the system and keeps the invariant |
| Forkserver.MovesCommute | instrumentation/afl-instrumentation.c:279-383 | A kernel move trades places with reading a command, with a reap that does not wait and with either write, so a move elsewhere in the round amounts to one before a wait |
| Forkserver.NothingMovesAfterReap | instrumentation/afl-instrumentation.c:311-317 | After the reap that does wait no child is left to move |
| Session.TurnKeepsInv | instrumentation/afl-instrumentation.c:279-383 | Every turn of server or child, in any order the kernel allows, keeps the joint invariant of forkserver, pass counter, bodies and pipe |
| Session.SessionCounts | instrumentation/afl-instrumentation.c:48-91 | Under every interleaving: whenever the server is back at its loop head after T commands, exactly T bodies have run, T statuses been relayed and ceil(T/N) children forked; child number f served rounds fN+1 to (f+1)N with stop statuses except for the last. Mid-round the bodies are T or T - 1 |
| Session.RoundsEnd | instrumentation/afl-instrumentation.c:279-383 | Every turn but reading a command brings the round strictly closer to its end, so a command is answered within ten turns |
| Session.NeverStuck | instrumentation/afl-instrumentation.c:279-383 | In every state of a session some turn is possible: server and child never wait for each other |
| Session.HandshakeMakesReady | instrumentation/afl-instrumentation.c:253-276 | With or without sharedmem fuzzing, a handshake in which nothing fails is a run that ends in the state sessions start from |
| Session.ReadyExactly | instrumentation/afl-instrumentation.c:253-290 | A reachable server in persistent mode is in such a state if and only if it is about to take its first command |
| Session.SessionIsARun | instrumentation/afl-instrumentation.c:218-384 | Each state of a session that begins with the handshake is a reachable state of the forkserver, so all of its invariants hold there |
| SessionMap.SessionMaps | instrumentation/afl-instrumentation.c:48-91 | In every session, under every interleaving of server and child: the map read with status i is the fold of body i's path alone over what the fuzzer left before command i with cell 0 set, or over the fresh map when that command forked a child; at the loop head exactly one map has been read per command |
| SessionMap.IsolatedExactly | instrumentation/afl-instrumentation.c:52-77 | Read i shows body i's path alone over a fresh map if and only if command i forked or the fuzzer had cleared every cell but cell 0 |
| SessionMap.SessionCoverage | instrumentation/afl-instrumentation.c:48-91 | So with a fuzzer that clears the map before each command every map read, across forks, stops and exits and whatever else the processes trace, is the fold of its own body's path |
| SessionMap.StopAndResume | instrumentation/afl-instrumentation.c:65-77 | The two halves into which a stop divides the loop call make up the call |
| Blocks.GetBasicBlocks | add_afl.py:284-352 | The nested loops compute the recursive grouping |
| Blocks.AppendToParents | add_afl.py:339-343 | The block is appended once to every list that holds the address, and to no other |
| Blocks.TracingPass.AddBlockTracing | add_afl.py:354-369 | One trampoline per list, at its head, in order; instrumented_locations grows by the number of lists |
| Blocks.GroupExactly | add_afl.py:284-352 | For any function, well-formed or not: one list for each head, in order, holding in order exactly the blocks from which that head is reached by going back to earlier blocks at the address continued |
| Blocks.AppearsExactly | add_afl.py:284-352 | With no assumption, the blocks that appear are exactly the kept ones: not detached, and continuing nothing or an earlier kept block |
| Blocks.RepeatsExactly | add_afl.py:338-345 | No address stands in two places if and only if no address reaches two heads and no two blocks that reach one share an address; otherwise a merged block joins every list that holds the address it continues |
| Blocks.GroupIsPartition | add_afl.py:284-352 | The lists hold exactly the kept blocks, with unique addresses each of them once |
| Blocks.GroupingIsPartition | add_afl.py:284-352 | When every block to be merged continues an earlier block, a block appears if and only if it has an incoming edge, has an outgoing edge or is an entry, and with unique addresses exactly once |
| Blocks.LostBlocks | add_afl.py:291-348 | With no assumption, a block is missing if and only if no way back from it reaches a head: it is detached, or every way ends outside the function, at a later block or at a detached one |
| Blocks.HeadsExactly | add_afl.py:324-350 | In edges alone: a placed block is a head if and only if a branch edge enters it, or no fallthrough edge enters it from a block whose out-edges are calls and fallthroughs, both present |
| Blocks.ParentExactly | add_afl.py:326-346 | A block continues address a if and only if no branch enters it and the first of its fallthrough edges from behind a call comes from a |
| Blocks.AfterCallExactly | add_afl.py:331-336 | What such an edge is, in the kinds of the source's out-edges |
| Blocks.GroupsArePaths | add_afl.py:324-345 | With one successor per call, each block after a head continues the one just before it |
| Blocks.HeadDominates | add_afl.py:360-367 | Any walk that enters merged blocks only by those edges has, at the q-th block of a list, just come down the list from its head: the head's trampoline has run |
| Splitter.ScanBack | instrumentation/parse_assembly.py:39-73 | The backward loop with its reversal computes the data lines and the tally of the lines it looked at |
| Splitter.CollectCode | instrumentation/parse_assembly.py:75-82 | The code loop stops at the first function end or runs off the list, keeping exactly the lines that are no cfi directives |
| Splitter.NonCfiSelects | instrumentation/parse_assembly.py:77-82 | The code kept is, in order and at increasing positions, exactly the lines that are no cfi directives |
| Splitter.CopiedSelects | instrumentation/parse_assembly.py:44-51 | The data kept is, in order, exactly the lines that are no type, text or alignment directives |
| Splitter.Split | instrumentation/parse_assembly.py:30-96 | The two-way scan terminates on every list of lines and yields the files and total of the specification, or its index error |
| Listing.SplitterIsCorrect | instrumentation/parse_assembly.py:32-89 | On any well-formed listing: one file per function in order, named by its label without the colon, with exactly its non-cfi lines in order and exactly the lines from the last rodata directive in front of it that are no type, text or alignment directives; the total is the tally of the data written plus that of the data dropped |
| Listing.LastRodataExactly | instrumentation/parse_assembly.py:39-73 | The data begins at a rodata directive with none after it, and there is no data if there is none |
| Listing.UnfinishedFails | instrumentation/parse_assembly.py:34-82 | A last function with no label line or no end makes the script run off the list, whatever precedes it |
| Listing.UnitRuns | instrumentation/parse_assembly.py:34-89 | One function contributes its own lines only, so no string is counted for two functions |
| Lines.TallyAgainstAssembler | instrumentation/parse_assembly.py:55-61 | The counted length is never below what the assembler emits, and equal if and only if newline escapes are the only ones (or a backslash escape right before the letter n) |
| Lines.StringLineCaptures | instrumentation/parse_assembly.py:25-58 | The expression matches every string line and yields what follows the last quote that has no word character before it, so the whole string if and only if there is no such quote |
| Lines.TallySurplus | instrumentation/parse_assembly.py:57-61 | The counted length is the emitted length plus the characters, beyond one a byte, of every escape but newline |
| Lines.StringLineTally | instrumentation/parse_assembly.py:55-61 | For every string line: what is counted plus what the expression cut off equals what is emitted plus the extra characters of escapes |
| Lines.NoStringThere | instrumentation/parse_assembly.py:48-58 | Lines left out of the copy, headers and function ends never count |
| Lines.ExpressionsExactly | instrumentation/parse_assembly.py:20-25 | The expressions for function ends, cfi, type, text and alignment directives match exactly the lines with that literal behind nothing but non-word characters |
| Lines.FunctionStartExactly | instrumentation/parse_assembly.py:19 | Function starts: `.type` so placed, and "function" anywhere behind it |
| Lines.RodataStartExactly | instrumentation/parse_assembly.py:22 | Rodata directives: `.section` so placed, and `.rodata` so placed behind it |
| Lines.ContainsExactly | instrumentation/parse_assembly.py:19 | "Anywhere" is at some position |
| Lines.PayloadExactly | instrumentation/parse_assembly.py:26 | Strings: `.string` so placed, and what the quotes behind it enclose |
| Lines.UnquoteExactly | instrumentation/parse_assembly.py:26 | The quoted part runs from behind the last quote that has no word character in front to the closing quote of the line |
| Lines.WordCharacters | instrumentation/parse_assembly.py:19-26 | Word characters by ASCII code |
| Rodata.TotalExactly | instrumentation/parse_assembly.py:53-96 | For every listing of string lines: the recorded total is the bytes in the written strings plus the extra characters of escapes, plus what functions without a rodata section drop, minus what early quotes cut off; it is exact if and only if these balance |
| Rodata.TotalWithLateQuotes | instrumentation/parse_assembly.py:53-96 | With no early quotes the total never falls short, and is exact if and only if newline escapes are the only ones and no dropped data holds a string |
| Rodata.EarlyQuoteMiscounts | instrumentation/parse_assembly.py:25-61 | Witness that an early quote errs either way: an escaped quote followed by n tab escapes is counted n - 1 too long, so short for n = 0 and right for n = 1 |
| Rodata.GrowthAligned | add_afl.py:994-999 | Padding is always 1 to 16 and brings the total to a multiple of 16; what all passes add is a multiple of 16 if and only if the miscount is, for every combination of modes |
| Rodata.DataPassAligned | add_afl.py:170-224 | The data pass adds 16 bytes, 32 more in persistent mode and 32 more with deferred initialisation |
| Rodata.ListingKeepsAlignment | add_afl.py:837-843 | From a listing to the section, for every combination of modes: what is added keeps the alignment if and only if the miscount, as computed from the text, is a multiple of 16 |

## Left out

- Instrument.InstrumentationPreservesMeaning: code addresses are symbolic labels, so a program that reads its own code bytes or computes with code addresses is outside; a return address stands for the same label in both programs.
- Instrument.InstrumentationPreservesMeaning: the original must keep off the tracer's cells and must not read the stack bytes beyond its red zone that a trampoline has overwritten, and the stack must have room for 0xa0 bytes; a trampoline writes there in any case.
- Calls.AlignedCall: asks for 0xa8 bytes of stack below rsp, because an rsp that wraps below address zero is not a stack.
- Calls.CallFunctionPatchKeepsRegisters: a `save_stack` below 128 would overwrite the red zone; the default is 0x100 and the precondition asks for at least 128.
- RegBackup.RestoreUndoesBackup: the upper 64 bits of the xmm registers, rbp and the flags are not in the backup, because the code does not save them.
- Wrapper.LoopEndsExactly: what the pass counter, the hook and the body write is theirs to say; memory is claimed unchanged where they spare it. The flags and upper xmm halves are not those of the entry, and the function is entered once per process and returns as the ABI says; re-entry after the loop has ended and recursion into the target are not modelled.
- Session.SessionCounts: is about persistent mode with children that neither crash nor get killed, and with commands whose kill word is zero; crashes and kills are covered by the forkserver invariants.
- SessionMap.SessionMaps: the fuzzer writes the map in the turn in which its command is read, and a body's whole path is traced in one turn; nobody else touches the map in between. The server has its map attached and has made no loop call, as after its setup.
- Forkserver.AtExitReapsChild: fork and the assignment of its result are one step, and a pid is not reused by the kernel while the server still holds it.
- Blocks.GetBasicBlocks: takes the blocks in the order the sort leaves them in; which of two blocks at one address comes first is up to that order, and the theorems hold for either.
- Blocks.HeadDominates: needs unique addresses, because a walk is told apart from others by the addresses it passes.
- Rodata.TotalExactly: counts `.string` data in the form the compiler writes it; other data directives in a rodata section are not counted by the script and not modelled. Function bodies are taken to hold no data of their own.
- Lines: letters are ASCII; the expressions' word characters beyond ASCII are not modelled.
- Instruction set: an instruction reads at most one span of memory and writes at most one (one that reads two is two in a row, the first keeping what it read in the remaining processor state); the adjust flag after logic instructions and shifts, which the processor leaves undefined, is taken as clear; words do not wrap at the top of the address space when they are split into bytes.
- System calls (fork, waitpid, shmat, malloc, write, read, kill) and the fuzzer appear as parameters or as nondeterministic kernel steps with stated contracts.
- The initialisation guard of the forkserver, signal handler backup and restore, descriptor closing in the child, debug output and the mutation-documenting code.
- `__afl_map_shm_fuzz` appears only as a flag saying whether the map was attached; its two error exits are one.
- The GTIRB libraries, disassembly and reassembly, the order of patches at one address, `insert_patch_at_address` and the JSON address map; patches are taken to appear where they are registered.
- The deferred initialisation points and the hook call at the initialisation address: they reuse the backup, hook and restore code that is modelled here.
- The random choice of block ids: theorems hold for every choice of 16-bit ids.
- Argument parsing, printing, file writing, Makefiles, Docker files, scripts and example programs.
- The hook's own code: it is an arbitrary function on the register struct and the test case.
