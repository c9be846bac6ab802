# Verified models of the noob / council repository

A Dafny 4.11 project that models the stateful core of the repository (the VM and its
program store on the ESP, the IR tools, the sequencer, the Iris/Neo wire formats, the Council
hub with its Codex bridge, its SHA-256, and the speech pipeline) and proves what those parts
are there for. `dafny verify dfyconfig.toml` checks all of it.

The source changes state in place, so each component has two layers: a specification (functions
over values, with the theorems about whole runs) and imperative code in the source's own form
(classes, arrays and loops), each method proved equal to its specification function. Threads,
power losses, native calls, clocks, sockets and file faults are parameters: oracles or choices
over which every theorem quantifies. Beside the theorems, what each operation means is stated
apart from how its function is written (VmManual, CouncilLaws, Sha256Laws, IrLaws, StoreFaults).

| component | specification and theorems | imperative code |
|---|---|---|
| VM program store | StorageSpec, StoreLifecycle, StoreFaults | ProgramStore |
| IR capture and alignment | IrCapture, PulseAlignment | IrCapture, PulseAlignment |
| IR frame decoder | IrFrames, IrTheorems, IrCollision, IrLaws | IrDecoder |
| SHA-256 and HMAC | Sha256Spec, Sha256Laws | Sha256Stream |
| bytecode VM | VmSpec, VmManual, VmRefinement, VmLaws, Deadline | NoobVm |
| speech pipeline | VoicePipeline | a state machine over critical sections |
| Codex bridge | CodexBridge | a state machine over its steps |
| sequencer and queues | SequenceSpec, SequenceRuns, SequencePolls, RecordQueue | SequenceRunner, RecordQueue |
| Council turns and closure | CouncilSpec, CouncilRuns, CouncilLaws | CouncilService |
| mixed calls | MixedCall, MixedCallProofs, MixedCallGrammar | MixedCallProofs |
| VM download | WireText, VmDownload | WireText, VmDownload |

Main theorems:

- `AutorunsAreLastArmed`, `CrashThenRecover`: no crash makes the board run anything but the program last stored to run.
- `CellIsMaximum` with `AlignedPulses`: the rolling rows compute a maximum matching under a non-transitive relation.
- `HashPieces`, `HmacSha256`: any cutting of a message gives the one-shot digest of FIPS 180-4 and RFC 2104; `AbcIsHashed` is the standard's own example.
- `RunRefines`, `SubroutineResumes`: the byte interpreter refines an instruction machine for every assembled program, and a subroutine returns behind its call whatever ran inside.
- `PlaysInOrderWithOutputs`, `RemovedFilesAreNeverTouched`, `NeverStuck`, `StepsDecrease`: the speech pipeline is safe, free of deadlock and ends, in success exactly when nothing fails (`GoodRunPlaysAll`, `FailedRunIsNotOk`).
- `OneAnswerPerGrant`, `EveryDoneGrantIsAnswered`: one text per grant across crashes, and none recorded done unsent, with both assumptions shown to be needed.
- `FiniteRunPlaysEveryBit`, `PolledRunEnds`, `PolledRunIsSpaced`, `RunAccountsForResults`: what the sequencer calls, when, that it ends, and what its queues hold, whatever the natives answer.
- `BoundedWaiting`, `TranscriptRestoresTurn`, `EndsAreUnanimous`: fairness, log replay and justified endings of a conversation.
- `BothParsersReadBack`, `NeoReadsExactly`, `EspReadsExactly`, `ParsersPartExactly`: one writer, two parsers, the same arguments; exactly the language of each parser, and so exactly which bodies they read differently.
- `NeoDownloadStoresTheFile`, `DownloadIsSound`: the chunked download, with Neo and against any server.
- `NecDecodedExactly`, `Pd24IsDecoded`, `Rc5IsDecoded`: frames decode to what was sent although three searches compete, and exactly which NEC frames the RC5 search takes away.

Properties that turned out false of the code, each with a failing input and its exact
condition: `SafeExactlyUnlessOrphan` (a replacement loses the old contents only if a backup was
orphaned before it, which `OrphanIsReachable` reaches), `ParsersPartExactly` with
`TabSplitsNumbers` and `TabSplitsTexts` (a space between a control character and its number, or a
text that is too long or not printable for Neo), and `NecDecodedExactly` with `LongMarksAreMistaken` (a window of fourteen marks with one wide space).
`UnrecordedGrantIsAnsweredTwice`, `RewoundGrantIsAnsweredTwice` and `TooLateReadsAsEarly` show
that the assumptions of the theorems beside them cannot be dropped.

## Model

| member | source | states |
|---|---|---|
| StorageSpec.AtomicWriteOutcome | esp/common/src/services/Esp32VmProgramStore.cpp:13-46 | from every card, under every pattern of faults and power losses: recovery will find the old or the new contents (unless only an orphaned backup held the old ones); true means new and clean, false means old; other files are untouched |
| StorageSpec.InstallOutcome | esp/common/src/services/Esp32VmProgramStore.cpp:33-45 | the same for the second half, once the temporary file is complete |
| StorageSpec.PromoteOutcome | esp/common/src/services/Esp32VmProgramStore.cpp:39-45 | the final rename with its fallback keeps the new or the backed-up contents recoverable, even when both renames fail |
| StorageSpec.RecoverFileOutcome | esp/common/src/services/Esp32VmProgramStore.cpp:48-57 | recovery keeps what is recoverable, even when it is interrupted or its rename fails, and leaves no leftovers when it completes without a fault |
| StorageSpec.CrashThenRecover | esp/common/src/services/Esp32VmProgramStore.cpp:13-57 | a crash anywhere in a replacement, then recovery: exactly the old or exactly the new contents, no .tmp, no .bak; without a crash the answer says which |
| StorageSpec.SafeExactlyUnlessOrphan | esp/common/src/services/Esp32VmProgramStore.cpp:13-46 | old-or-new holds under all faults if and only if the file is not an orphaned backup on entry |
| StorageSpec.OtherFileKept | esp/common/src/services/Esp32VmProgramStore.cpp:13-57 | replacing one file keeps the recoverable contents of every other |
| StoreLifecycle.FlagWriteOutcome | esp/common/src/services/Esp32VmProgramStore.cpp:59-62 | a flag write leaves the program alone and turns the flag on only when asked to |
| StoreLifecycle.StartOutcome | esp/common/src/services/Esp32VmProgramStore.cpp:91-104 | after onStarted, however it ended, a set flag stands beside the new program, or beside the old one with nothing replaced |
| StoreLifecycle.ResetOutcome | esp/common/src/services/Esp32VmProgramStore.cpp:81-87 | a finished reset leaves neither program nor flag; an interrupted one never pairs the flag with another program |
| StoreLifecycle.RestoreOutcome | esp/common/src/services/Esp32VmProgramStore.cpp:167-210 | restoreLast autoruns only what the card holds with the flag on, and changes at most the flag |
| StoreLifecycle.BootOutcome | esp/common/src/services/Esp32VmProgramStore.cpp:150-210 | the same for begin followed by restoreLast, with recovery interrupted anywhere |
| StoreLifecycle.StepKeepsInv | esp/common/src/services/Esp32VmProgramStore.cpp:89-210 | every start, stop, reset and reboot, with a power loss anywhere, keeps card and log in agreement |
| StoreLifecycle.RunKeepsInv | esp/common/src/services/Esp32VmProgramStore.cpp:89-210 | so does every run |
| StoreLifecycle.AutorunsAreLastArmed | esp/common/src/services/Esp32VmProgramStore.cpp:59-210 | over every run from a fresh card, every autorun runs exactly the bytes most recently stored with the run flag set: a start stored them, or lost power doing so, and since then nothing was stored, stopped or cleared and no boot ran anything else |
| StoreLifecycle.StoredStopHolds | esp/common/src/services/Esp32VmProgramStore.cpp:106-115 | over every run, after a stop that answered "stored" (or a finished reset) no reboot autoruns until a later start |
| StoreLifecycle.StartThenBootAutoruns | esp/common/src/services/Esp32VmProgramStore.cpp:91-210 | with no fault, a started program is stored and the next boot autoruns exactly it |
| StoreLifecycle.CutStart | esp/common/src/services/Esp32VmProgramStore.cpp:13-46 | power lost between the two renames of the program leaves only its backup |
| StoreLifecycle.FailedBoot | esp/common/src/services/Esp32VmProgramStore.cpp:48-57 | a failing rename at boot leaves the backup orphaned and the store up |
| StoreLifecycle.OrphanIsReachable | esp/common/src/services/Esp32VmProgramStore.cpp:13-57 | from every fresh card some run does exactly that, so the condition of SafeExactlyUnlessOrphan can fail in a running store |
| StoreFaults.AtomicWriteWorks | esp/common/src/services/Esp32VmProgramStore.cpp:13-46 | a replacement whose own operations all work succeeds |
| StoreFaults.StopFailureHasCause | esp/common/src/services/Esp32VmProgramStore.cpp:106-115 | a stop answers "stored" unless one of its own operations did not work |
| StoreFaults.StartFailureHasCause | esp/common/src/services/Esp32VmProgramStore.cpp:91-104 | so does a start of a program that is not empty |
| StoreFaults.StopThenBootRestores | esp/common/src/services/Esp32VmProgramStore.cpp:106-210 | with no fault a stop is stored, and the next boot restores the program without running it |
| StoreFaults.StartStopBoot | esp/common/src/services/Esp32VmProgramStore.cpp:91-210 | with no fault: start, stop, boot gives the program, not running |
| StoreFaults.EmptyStartFails | esp/common/src/services/Esp32VmProgramStore.cpp:72-104 | an empty program is not stored: the start disarms, keeps the old program and answers "failed" |
| StoreFaults.ResetThenBootFindsNothing | esp/common/src/services/Esp32VmProgramStore.cpp:81-175 | after a fault-free reset a boot finds nothing stored |
| StoreFaults.BadLengthIsGivenUp | esp/common/src/services/Esp32VmProgramStore.cpp:167-190 | a stored program of length 0 or above 1024 is not restored, and the flag is turned off |
| StoreFaults.NoFlagDoesNotRun | esp/common/src/services/Esp32VmProgramStore.cpp:64-70 | a program without a flag file is restored and not run |
| ProgramStore.Replace | esp/common/src/services/Esp32VmProgramStore.cpp:13-46 | the step-by-step replacement on a mutable card has exactly the specified effect and answer, crash included |
| ProgramStore.Recover | esp/common/src/services/Esp32VmProgramStore.cpp:48-57 | likewise for recovery |
| ProgramStore.WriteFlag | esp/common/src/services/Esp32VmProgramStore.cpp:59-62 | likewise for the run flag |
| ProgramStore.ReadFlag | esp/common/src/services/Esp32VmProgramStore.cpp:64-70 | likewise for reading it |
| ProgramStore.Started | esp/common/src/services/Esp32VmProgramStore.cpp:91-104 | onStarted in its three writes has exactly the specified effect |
| ProgramStore.Stopped | esp/common/src/services/Esp32VmProgramStore.cpp:106-115 | likewise for onStopped |
| ProgramStore.Cleared | esp/common/src/services/Esp32VmProgramStore.cpp:81-87 | the loop over six paths removes them in order, up to a power loss |
| ProgramStore.PowerOn | esp/common/src/services/Esp32VmProgramStore.cpp:150-210 | begin and restoreLast have exactly the specified effect |
| PulseAlignment.CellAchieved | iris/firmware/iris_noob/src/noobs/iris/thread_ir_capture.cpp:91-115 | the recurrence's value is the size of an order-preserving matching, which is built |
| PulseAlignment.CellBounds | iris/firmware/iris_noob/src/noobs/iris/thread_ir_capture.cpp:91-115 | no order-preserving matching is larger, although taking the diagonal on a match is greedy and matching is not transitive |
| PulseAlignment.CellIsMaximum | iris/firmware/iris_noob/src/noobs/iris/thread_ir_capture.cpp:91-115 | the recurrence is the exact maximum, for all pulse lists and tolerances |
| PulseAlignment.WiderToleranceNeverFalls | iris/firmware/iris_noob/src/noobs/iris/thread_ir_capture.cpp:116-117 | widening the tolerance never lowers the score |
| PulseAlignment.AlignmentIsSymmetric | iris/firmware/iris_noob/src/noobs/iris/thread_ir_capture.cpp:91-117 | the score is the same with source and received capture exchanged |
| PulseAlignment.AlignedPulses | iris/firmware/iris_noob/src/noobs/iris/thread_ir_capture.cpp:91-115 | the two swapped 16-bit rows compute the maximum without overflow |
| PulseAlignment.Total | iris/firmware/iris_noob/src/noobs/iris/thread_ir_capture.cpp:118-123 | the total duration |
| PulseAlignment.VerifyLast | iris/firmware/iris_noob/src/noobs/iris/thread_ir_capture.cpp:65-139 | the refusals exactly; otherwise both scores are maxima and, for captures the receiver can record, the verdict means nine tenths aligned and durations within ten percent |
| PulseAlignment.VerdictIsSound | iris/firmware/iris_noob/src/noobs/iris/thread_ir_capture.cpp:124-130 | for all captures of up to 1024 pulses of 1 to 14999 us, the verdict with its percentage cut to 32 bits equals the one with the true percentage |
| PulseAlignment.PercentIsExact | iris/firmware/iris_noob/src/noobs/iris/thread_ir_capture.cpp:124-127 | the percentage is at most 10 if and only if the received total is more than 89 and less than 111 per cent of the source's |
| IrCapture.RecordsWithinLimits | esp/common/src/services/Esp32IrService.cpp:28-54 | whatever the edges, only such pulses are recorded, at most 8192 |
| IrCapture.FrameIsRecorded | esp/common/src/services/Esp32IrService.cpp:28-54 | a signal without idle gaps is recorded as exactly its levels and true durations, wherever the microsecond counter wraps |
| IrCapture.EdgeDecides | esp/common/src/services/Esp32IrService.cpp:28-54 | one edge by the true time since the last: ignored, end of frame at 15 ms, noise below 2 us, a pulse of the level before, or an overflow at 8192 |
| IrCapture.Service.Rearm | esp/common/src/services/Esp32IrService.cpp:190-202 | an armed, empty receiver |
| IrCapture.Service.OnEdge | esp/common/src/services/Esp32IrService.cpp:28-54 | the interrupt on the two arrays has exactly the specified effect: recorded, ignored, overflow or frame closed |
| Sha256Spec.RoundConstantsAreCubeRoots | council/src/sha256.c:4-12 | every round constant is the first 32 fractional bits of the cube root of its prime, as section 4.2.2 of FIPS 180-4 defines it |
| Sha256Spec.InitialValuesAreSquareRoots | council/src/sha256.c:19 | the initial values are those of section 5.3.3 |
| Sha256Spec.ExpandIsStandard | council/src/sha256.c:15 | with a commutative and associative addition, the schedule word in the order of the source equals the one in the order of the standard |
| Sha256Spec.FipsSums | council/src/sha256.c:15 | addition of 32-bit words is such an addition |
| Sha256Spec.FipsExpandIsStandard | council/src/sha256.c:15 | so the schedule word of the source is that of section 6.2.2 of FIPS 180-4, with its 32-bit addition |
| Sha256Spec.LengthFieldIsLength | council/src/sha256.c:21 | the last eight padding bytes are the length in bits of every message the standard allows |
| Sha256Laws.BigSigma0IsRotations | council/src/sha256.c:17 | rotations by 2, 13 and 22 |
| Sha256Laws.BigSigma1IsRotations | council/src/sha256.c:17 | rotations by 6, 11 and 25 |
| Sha256Laws.SmallSigma0IsRotations | council/src/sha256.c:15 | rotations by 7 and 18 and a shift by 3 |
| Sha256Laws.SmallSigma1IsRotations | council/src/sha256.c:15 | rotations by 17 and 19 and a shift by 10 |
| Sha256Laws.ChChooses | council/src/sha256.c:17 | the bit of the second word where the first has a one, else of the third |
| Sha256Laws.MajIsMajority | council/src/sha256.c:17 | the bits that at least two of the words have |
| Sha256Laws.BigEndianIsPositional | council/src/sha256.c:14 | the first byte of a word is worth 2^24 |
| Sha256Laws.WordBytesReadBack | council/src/sha256.c:21 | the digest bytes of a word are read back to it |
| Sha256Laws.HmacIsNested | council/src/sha256.c:22 | HMAC by its three blocks: the key or its hash filled up with zeros, and that with 0x36 and with 0x5c in every byte |
| Sha256Laws.OneRound | council/src/sha256.c:13-17 | the schedule over a window of sixteen words and the round on it give the specified schedule and rounds |
| Sha256Laws.AbcIsHashed | council/src/sha256.c:13-21 | the digest of "abc" is that of example B.1 of FIPS 180-2, from padding to digest bytes |
| Sha256Stream.FillSchedule | council/src/sha256.c:14 | the first sixteen schedule words are the block's big-endian words |
| Sha256Stream.ExtendSchedule | council/src/sha256.c:15 | the loop computes the rest of the message schedule |
| Sha256Stream.Block | council/src/sha256.c:13-18 | schedule, 64 rounds and feed-forward are the compression function, for the FIPS operations as for any |
| Sha256Stream.Context.constructor | council/src/sha256.c:19 | a new context holds the empty message |
| Sha256Stream.Context.Update | council/src/sha256.c:20 | an update appends its bytes to the message held, across block boundaries, and counts them |
| Sha256Stream.Context.Flush | council/src/sha256.c:20 | a full buffer goes through the block loop, which chains it to what was hashed before, and is emptied |
| Sha256Stream.PaddingOf | council/src/sha256.c:21 | the one- and the two-block padding of the source are the standard's padding |
| Sha256Stream.Context.Final | council/src/sha256.c:21 | the digest is that of the padded message held |
| Sha256Stream.Context.PutLength | council/src/sha256.c:21 | the 64-bit length is written big-endian |
| Sha256Stream.HashPieces | council/src/sha256.c:19-21 | for every way of cutting a message into updates, the digest is SHA-256 of the whole message |
| Sha256Stream.KeyBlock | council/src/sha256.c:22 | a long key is hashed, and the key is padded to a block |
| Sha256Stream.HmacSha256 | council/src/sha256.c:22 | the result is HMAC of section 2 of RFC 2104 over SHA-256, for every key length |
| Deadline.DueIsExact | esp/common/src/core/noob_thread_program.cpp:82-87 | the signed 32-bit deadline test fires exactly when the true deadline has passed, across counter wrap, within 2^31 ms |
| Deadline.TooLateReadsAsEarly | esp/common/src/services/SequenceService.cpp:110 | the bound is needed: 2^31 ms late reads as early |
| VmSpec.StepInBounds | esp/common/src/vm/noob_vm.cpp:132-210 | every instruction keeps pc, call depth and return addresses in bounds, for every byte program and every native behaviour |
| VmSpec.RunInBounds | esp/common/src/vm/noob_vm.cpp:73-79 | so does every budgeted run |
| VmSpec.ExecuteKeeps | esp/common/src/vm/noob_vm.cpp:132-210 | the same per decoded instruction, and a fault changes no data |
| VmSpec.FaultChangesNothing | esp/common/src/vm/noob_vm.cpp:127-210 | a faulting instruction leaves registers, memory and call stack as they were |
| VmSpec.BudgetSplits | esp/common/src/vm/noob_vm.cpp:78 | a budget may be split anywhere |
| VmSpec.TicksAdd | esp/common/src/vm/noob_vm.cpp:73-79 | tick(a) then tick(b) is tick(a+b) unless the first ends waiting, and then the rest of the budget has no effect |
| VmSpec.WaitIsExact | esp/common/src/vm/noob_vm.cpp:200-202 | a WAIT is over exactly when its time has passed, never early |
| VmLaws.ArithmeticIsModular | esp/common/src/vm/noob_vm.cpp:150-152 | a sum, difference or product is the one 32-bit number congruent to the exact result modulo 2^32 |
| VmLaws.DivisionTruncates | esp/common/src/vm/noob_vm.cpp:153 | a quotient leaves a remainder smaller than the divisor with the sign of the dividend, except for the smallest number by -1 |
| VmLaws.LoadAfterStore | esp/common/src/vm/noob_vm.cpp:203-208 | a load reads the low byte that was stored at its address, and what was there before at any other |
| VmLaws.RunKeepsFrames | esp/common/src/vm/noob_vm.cpp:165-173 | a run that never has fewer than n frames leaves the lowest n as they were |
| VmLaws.TicksKeepFrames | esp/common/src/vm/noob_vm.cpp:73-79 | the same over any sequence of ticks |
| VmLaws.SubroutineResumes | esp/common/src/vm/noob_vm.cpp:165-173 | whatever runs inside a subroutine, nested calls and waits over any number of ticks included, its return resumes behind the call with the callers' frames untouched |
| VmManual.EndOfProgram | esp/common/src/vm/noob_vm.cpp:101-105 | behind the last byte: truncated |
| VmManual.Unknown | esp/common/src/vm/noob_vm.cpp:209 | every other opcode faults with its number |
| VmManual.HaltStops | esp/common/src/vm/noob_vm.cpp:138 | opcode 00 halts and changes nothing else |
| VmManual.LoadImmediate | esp/common/src/vm/noob_vm.cpp:139-142 | opcode 01: the register takes the signed little-endian number; truncated, bad register |
| VmManual.MoveCopies | esp/common/src/vm/noob_vm.cpp:143-146 | opcode 02: destination first, then source; its faults |
| VmManual.ArithmeticComputes | esp/common/src/vm/noob_vm.cpp:147-155 | opcodes 03 to 06: sum, difference, product, quotient of the second and third operand, in this order; its faults |
| VmManual.JumpGoes | esp/common/src/vm/noob_vm.cpp:156-159 | opcode 10: the target, or a fault outside the program |
| VmManual.BranchChooses | esp/common/src/vm/noob_vm.cpp:160-164 | opcode 11 jumps exactly on zero, 12 exactly on nonzero; a target not taken is not checked |
| VmManual.CallEnters | esp/common/src/vm/noob_vm.cpp:165-169 | opcode 13: the counter behind it goes on a stack of eight |
| VmManual.ReturnLeaves | esp/common/src/vm/noob_vm.cpp:170-173 | opcode 14: back to what was put there last |
| VmManual.WaitSleeps | esp/common/src/vm/noob_vm.cpp:200-202 | opcode 21: waiting for the given milliseconds from the next clock reading |
| VmManual.LoadReads | esp/common/src/vm/noob_vm.cpp:203-205 | opcode 30: register from address |
| VmManual.StoreWrites | esp/common/src/vm/noob_vm.cpp:206-208 | opcode 31: address from the low byte of a register |
| VmManual.SyscallHeader | esp/common/src/vm/noob_vm.cpp:174-179 | opcodes 20 and 22: the four faults of the header, in order |
| VmManual.SyscallArgument | esp/common/src/vm/noob_vm.cpp:180 | the first argument that names no register stops the reading behind it |
| VmManual.SyscallCalls | esp/common/src/vm/noob_vm.cpp:174-199 | opcode 20: the function called with the registers' contents, its value in the destination, or the fault |
| VmManual.SyscallCallsWithText | esp/common/src/vm/noob_vm.cpp:174-199 | opcode 22: the same with the inline text |
| VmRefinement.Word16RoundTrip | esp/common/src/vm/noob_vm.cpp:109-113 | little-endian 16-bit operands read back |
| VmRefinement.Word32RoundTrip | esp/common/src/vm/noob_vm.cpp:115-119 | little-endian signed 32-bit operands read back |
| VmRefinement.DecodeEncoded | esp/common/src/vm/noob_vm.cpp:132-210 | every instruction, encoded and found anywhere in a program, decodes to itself |
| VmRefinement.DecodeMalformed | esp/common/src/vm/noob_vm.cpp:174-180 | a system call that names no register or has too many arguments faults where the reading stops |
| VmRefinement.DecodesAt | esp/common/src/vm/noob_vm.cpp:101-119 | decoding an assembled program at a boundary gives that instruction with labels as byte offsets and the next boundary, or the fault of a malformed system call |
| VmRefinement.ExecuteCommutes | esp/common/src/vm/noob_vm.cpp:132-210 | executing and translating positions to byte offsets commute |
| VmRefinement.StepRefines | esp/common/src/vm/noob_vm.cpp:132-210 | one executeOne is one step of the instruction machine |
| VmRefinement.RunRefines | esp/common/src/vm/noob_vm.cpp:73-79 | any number of steps of any assembled program reach the matching state, with pc and return addresses at the matching boundaries (inside the instruction, exactly, when a malformed system call stops it) |
| NoobVm.Vm.constructor | esp/common/src/vm/noob_vm.cpp:19 | an empty VM |
| NoobVm.Vm.Load | esp/common/src/vm/noob_vm.cpp:21-39 | the exact refusals, which change nothing; otherwise the program is installed and the machine cleared |
| NoobVm.Vm.Run | esp/common/src/vm/noob_vm.cpp:41-54 | the exact refusals; otherwise running from the start with program, registers and memory kept |
| NoobVm.Vm.Stop | esp/common/src/vm/noob_vm.cpp:56-60 | only a running or waiting VM is stopped; nothing else changes |
| NoobVm.Vm.Reset | esp/common/src/vm/noob_vm.cpp:62-71 | everything is cleared |
| NoobVm.Vm.DoTick | esp/common/src/vm/noob_vm.cpp:73-79 | a tick on the arrays is the specified tick; the program bytes do not change |
| NoobVm.Vm.ExecuteOne | esp/common/src/vm/noob_vm.cpp:132-210 | one instruction on the arrays is the specified byte step |
| NoobVm.Vm.ExecuteMove | esp/common/src/vm/noob_vm.cpp:139-146 | immediate loads and moves on the register array as specified, their faults included |
| NoobVm.Vm.ExecuteArith | esp/common/src/vm/noob_vm.cpp:147-155 | wrapping arithmetic and division faults as specified |
| NoobVm.Vm.ExecuteJump | esp/common/src/vm/noob_vm.cpp:156-164 | a jump, taken only on its condition, goes inside the program or faults |
| NoobVm.Vm.ExecuteCall | esp/common/src/vm/noob_vm.cpp:165-169 | a call pushes the return address or faults at depth |
| NoobVm.Vm.ExecuteReturn | esp/common/src/vm/noob_vm.cpp:170-173 | a return pops it or faults when empty |
| NoobVm.Vm.ExecuteWait | esp/common/src/vm/noob_vm.cpp:200-202 | the wake-up time is the 32-bit sum |
| NoobVm.Vm.ExecuteMemory | esp/common/src/vm/noob_vm.cpp:203-208 | loads and byte stores as specified |
| NoobVm.Vm.ExecuteSyscall | esp/common/src/vm/noob_vm.cpp:174-199 | a system call with or without text: its faults, the native called with exactly these arguments, and its result |
| NoobVm.Vm.ReadArguments | esp/common/src/vm/noob_vm.cpp:179-180 | the argument registers of a system call are read in order, and the first bad one faults |
| NoobVm.Vm.ReadText | esp/common/src/vm/noob_vm.cpp:182-188 | the inline text of a system call is read exactly |
| VoicePipeline.StepKeepsInv | rose_tools/voice/rose_voice.c:213-320 | every step of every thread keeps the pipeline invariant, no lost wake-up included |
| VoicePipeline.RunKeepsInv | rose_tools/voice/rose_voice.c:405-471 | so does every interleaving with any outcome of the stages |
| VoicePipeline.PlaysInOrderWithOutputs | rose_tools/voice/rose_voice.c:417-449 | sentences play in order, each with its three outputs written and its files in place |
| VoicePipeline.RemovedFilesAreNeverTouched | rose_tools/voice/rose_voice.c:441-471 | once an item's files are removed, no worker touches them then or ever after, and it is never played again |
| VoicePipeline.FinalIsClean | rose_tools/voice/rose_voice.c:450-476 | at the end no file is left, success means that every sentence was played, and without success the failure is recorded |
| VoicePipeline.GoodRunIsUnfailed | rose_tools/voice/rose_voice.c:450-476 | failures have a cause: when every stage, playback and thread start succeeds, no thread fails or aborts in any interleaving |
| VoicePipeline.GoodRunPlaysAll | rose_tools/voice/rose_voice.c:450-476 | such a run ends in success with every sentence played |
| VoicePipeline.FailedRunIsNotOk | rose_tools/voice/rose_voice.c:405-476 | a run in which any stage, playback or thread start failed never ends in success |
| VoicePipeline.FailureStartsNothing | rose_tools/voice/rose_voice.c:213-449 | once a failure is recorded no stage and no playback is begun any more |
| VoicePipeline.NeverStuck | rose_tools/voice/rose_voice.c:213-320 | every reachable state but the final one has a thread that can run, also after a failure |
| VoicePipeline.StepsDecrease | rose_tools/voice/rose_voice.c:213-471 | every step decreases a natural measure |
| VoicePipeline.EffectiveStepsAreBounded | rose_tools/voice/rose_voice.c:213-471 | every interleaving has at most 60 n + 105 steps |
| CodexBridge.StepKeepsInv | council/src/council_codex_bridge.c:101-145 | every step, crashes and restarts included, keeps memory, files and transmissions consistent, under the two assumptions |
| CodexBridge.CarefulRunKeepsInv | council/src/council_codex_bridge.c:101-145 | so does every run that meets them |
| CodexBridge.OneAnswerPerGrant | council/src/council_codex_bridge.c:25-26 | across crashes and restarts anywhere, one text per grant, always the one that the response file holds, and nothing for a grant recorded done |
| CodexBridge.EveryDoneGrantIsAnswered | council/src/council_codex_bridge.c:107-144 | across crashes and restarts anywhere, no grant is recorded done without its answer having been sent |
| CodexBridge.AnswerSends | council/src/council_codex_bridge.c:107-138 | an idle bridge answers a new grant with the text of its decision |
| CodexBridge.ResumeSends | council/src/council_codex_bridge.c:124-138 | a pending grant is resumed with the preserved text, without deciding again |
| CodexBridge.AnswerIsRecorded | council/src/council_codex_bridge.c:139-145 | a sent answer is recorded and forgotten, on file and in memory, and the grant then ignored |
| CodexBridge.NoActionIsDecidedAgain | council/src/council_codex_bridge.c:109-118 | a response that is no action is thrown away and the grant decided again |
| CodexBridge.UnrecordedGrantIsAnsweredTwice | council/src/council_codex_bridge.c:141-144 | without the first assumption a grant is answered with two texts |
| CodexBridge.RewoundGrantIsAnsweredTwice | council/src/council_codex_bridge.c:106-123 | nor can the second be dropped |
| RecordQueue.PushKeepsBalance | esp/common/src/core/noob_record.h:76-85 | kept by a push: the queue is exactly the newest eight, or all, of the records that no pop has passed, and pushes = popped + queued + dropped |
| RecordQueue.PopKeepsBalance | esp/common/src/core/noob_record.h:93-99 | kept by a pop, which passes exactly the oldest record queued |
| RecordQueue.PushesKeepNewest | esp/common/src/core/noob_record.h:76-85 | any number of pushes leave the newest eight and drop exactly what did not fit |
| RecordQueue.Ring.constructor | esp/common/src/core/noob_record.h:105-110 | an empty ring |
| RecordQueue.Ring.PushRecord | esp/common/src/core/noob_record.h:76-85 | the ring buffer's push is the queue's, wrapping indices included |
| RecordQueue.Ring.PopRecord | esp/common/src/core/noob_record.h:93-99 | likewise for pop, with the record returned |
| RecordQueue.Ring.Clear | esp/common/src/core/noob_record.h:101 | likewise for clear |
| SequenceRuns.AdvancedFollows | esp/common/src/services/SequenceService.cpp:113-133 | after one more call a track has called its function, arguments and text with exactly the bits its position says, finite or repeating |
| SequenceRuns.RunKeepsSetup | esp/common/src/services/SequenceService.cpp:104-142 | no run changes a track's pattern, interval, function or arguments, nor whether it repeats |
| SequenceRuns.FailingStops | esp/common/src/services/SequenceService.cpp:116-122 | a failed call stops every track, clears every busy bit and is reported by one event; until then all calls were the bits in order |
| SequenceRuns.RunGoesOrIsGone | esp/common/src/services/SequenceService.cpp:104-142 | a run is in step if and only if all its calls succeeded; otherwise it was stopped by the last one |
| SequenceRuns.TickKeepsInv | esp/common/src/services/SequenceService.cpp:104-142 | whatever the natives answer, a tick keeps calls, positions, busy bits and events in step, or stops everything at the call that failed |
| SequenceRuns.StartEstablishesInv | esp/common/src/services/SequenceService.cpp:325-342 | an accepted start establishes it |
| SequenceRuns.RunKeepsInv | esp/common/src/services/SequenceService.cpp:104-142 | every run of ticks and pops keeps it |
| SequenceRuns.FiniteRunPlaysEveryBit | esp/common/src/services/SequenceService.cpp:104-142 | at every moment of a finite run and for any natives: while calls succeed, each track configured at the start has called its function with its arguments, its text and exactly its first bits in order, its busy bit is set exactly while calls remain, the run is on exactly while some pattern has bits left, and one SEQUENCE_COMPLETE is emitted, exactly when all are played; a call that fails is the last one, it too was the next bit, nothing stays active or busy and the one event is SEQUENCE_ERROR of its slot |
| SequenceRuns.RipeTickProgresses | esp/common/src/services/SequenceService.cpp:108-134 | a timely tick at which some track is due leaves fewer calls to make |
| SequenceRuns.RipeTicksAreSpent | esp/common/src/services/SequenceService.cpp:104-134 | over a run, ticks with a track due and calls still to make never exceed the bits there were |
| SequenceRuns.FiniteRunEnds | esp/common/src/services/SequenceService.cpp:113-140 | however often it is polled, a finite run is over, with its completion event or by a failed call, after as many timely ticks as there are bits configured that each found a track due or the run over |
| SequenceRuns.RepeatingRunCycles | esp/common/src/services/SequenceService.cpp:104-134 | a repeating run calls each configured pattern over and over with its function, arguments and text, and ends only when a call fails |
| SequenceRuns.FiresExactlyWhenDue | esp/common/src/services/SequenceService.cpp:110-111 | across counter wrap a timely tick calls a track exactly when its interval has passed |
| SequenceRuns.RunKeepsTimed | esp/common/src/services/SequenceService.cpp:104-134 | every timely run keeps each 32-bit deadline at the true one and each track's calls an interval apart |
| SequenceRuns.TimelyRunIsSpaced | esp/common/src/services/SequenceService.cpp:104-134 | consecutive calls of one track are never closer than the interval it was configured with, whether calls succeed or fail |
| SequenceRuns.StartIsTimed | esp/common/src/services/SequenceService.cpp:332-337 | a start sets every deadline to now |
| SequenceRuns.RunKeepsAccounts | esp/common/src/core/noob_program.h:29-55 | ticks and pops keep every queue balanced against the results of the calls made |
| SequenceRuns.ResultIsKept | esp/common/src/core/noob_program.h:29-55 | a call's own record is kept; a call without one leaves its value |
| SequenceRuns.RunAccountsForResults | esp/common/src/core/noob_program.h:29-55 | over any run with pops in between, whether calls succeed or fail: what was pushed is what was there and the result of each successful call in order, each queue holds the newest min(8, unpopped) of them, and pushes = popped + queued + dropped |
| SequencePolls.PolledIsTimely | esp/common/src/services/SequenceService.cpp:104-134 | ticks in order and less than 2^31 ms apart are all timely: every active track is due at or after the last tick, by at most the longest interval |
| SequencePolls.PolledRunIsSpaced | esp/common/src/services/SequenceService.cpp:104-134 | under that condition on the polling alone, calls of one track are never closer than its configured interval |
| SequencePolls.SlowTicksAreServed | esp/common/src/services/SequenceService.cpp:108-134 | a tick the longest interval after the one before finds a track due, or the run over |
| SequencePolls.PolledRunEnds | esp/common/src/services/SequenceService.cpp:104-140 | under that condition on the polling alone, a finite run of any number of tracks is over once as many ticks as bits configured have come the longest interval or more after the tick before |
| SequenceRunner.UnpackedIsFaithful | esp/common/src/services/SequenceService.cpp:273-276 | the unpacked bits are the packed number's, highest first |
| SequenceRunner.Service.StopTracks | esp/common/src/services/SequenceService.cpp:94-100 | the loop stops every track and clears every busy bit |
| SequenceRunner.Service.CountActive | esp/common/src/services/SequenceService.cpp:136 | the count is zero exactly when no track is active |
| SequenceRunner.Service.TickSlot | esp/common/src/services/SequenceService.cpp:108-134 | one slot of a tick as specified, the failure path included |
| SequenceRunner.Service.DoTick | esp/common/src/services/SequenceService.cpp:104-142 | the tick loop with its early return is the specified tick and event |
| SequenceRunner.Service.DoStart | esp/common/src/services/SequenceService.cpp:325-342 | the exact refusals; otherwise the specified start |
| SequenceRunner.Service.SetNumeric | esp/common/src/services/SequenceService.cpp:243-285 | the exact refusals, which change nothing; otherwise one track gets the unpacked pattern |
| CouncilRuns.ScanFindsNearest | council/src/arbitration.c:5 | arbitration finds the nearest eligible contact after the last one served, and nobody only if nobody is eligible |
| CouncilRuns.CallComesCloser | council/src/arbitration.c:5 | a call that serves someone else brings the scan strictly closer to a contact that stays online |
| CouncilRuns.BoundedWaiting | council/src/arbitration.c:5 | over consecutive calls of arbitration_next on the hub, a contact that stays online is granted the turn, or is itself the previous speaker, within as many calls as there are contacts |
| CouncilRuns.HandleKeepsTurn | council/src/council_service.c:64-135 | every command keeps the turn in memory equal to the fold of the transcript |
| CouncilRuns.TranscriptRestoresTurn | council/src/transcript.c:18 | after every run, folding the transcript gives the speaker in memory, except that memory is empty when arbitration has found nobody since |
| CouncilRuns.HandleKeepsClosure | council/src/council_service.c:138-141 | every command keeps the votes in memory backed by recorded votes after the open proposal |
| CouncilRuns.FinishIsJustified | council/src/council_service.c:138-139 | ending when complete is justified by the recorded votes |
| CouncilRuns.EndsAreUnanimous | council/src/council_service.c:138-141 | in every run each conversation end follows an open proposal, no continue vote, and a close vote of every expected participant but the proposer |
| CouncilRuns.EndLeavesNothingOpen | council/src/council_service.c:139 | the command that ends a conversation leaves closure inactive and the turn empty |
| CouncilLaws.ClipIsLongest | council/src/arbitration.c:7 | a stored name is the longest part that fits its buffer |
| CouncilLaws.ArbitrateMoves | council/src/arbitration.c:5 | the nearest contact gets the turn and becomes the last in order; with none the turn is empty and the order stays |
| CouncilLaws.MessageToAll | council/src/council_service.c:64-102 | a message to all: presence by delivery, the turn to the nearest contact, grant and message recorded; with nobody to speak no message is |
| CouncilLaws.MessageToOne | council/src/council_service.c:64-102 | a message to one: delivered, the turn goes there and both are recorded; otherwise turn and transcript stay |
| CouncilLaws.MessageRefused | council/src/council_service.c:64-102 | out of turn, while busy or to oneself only the sender's presence changes |
| CouncilLaws.StatusKeepsTurn | council/src/council_service.c:103-135 | the turn stays while its holder is present |
| CouncilLaws.StatusPassesTurn | council/src/council_service.c:103-135 | an absent holder, or a name that is no contact's, loses it to the nearest contact present, recorded as such |
| CouncilLaws.ProposalOpens | council/src/council_service.c:138-140 | the exact refusals; otherwise the proposal with those present, ending at once exactly if nobody else is |
| CouncilLaws.VoteDecides | council/src/council_service.c:138-141 | ignored votes exactly; the last missing close vote ends the conversation; a continue vote cancels and takes the turn |
| CouncilLaws.OtherCommands | council/src/council_service.c:151-201 | a grant by name as it will be read back; a restart keeps what the transcript says; other commands change only presence |
| CouncilService.RestoredSpeaker | council/src/transcript.c:18 | the scan of the transcript is the fold over its events |
| CouncilService.Service.NextSpeaker | council/src/arbitration.c:5 | the scan loop is the specified scan, and grants what it found |
| CouncilService.Service.DeliverAll | council/src/council_service.c:78-85 | every other AI, or the one addressed, is online afterwards exactly if its delivery succeeded; nobody else changes |
| CouncilService.Service.RelayMessage | council/src/council_service.c:64-102 | routing, turn and record as specified for each kind of target |
| CouncilService.Service.AcceptMessage | council/src/council_service.c:142-150 | a message is recorded only when it was routed |
| CouncilService.Service.SamplePresence | council/src/council_service.c:106-113 | the loop stores every contact's presence |
| CouncilService.Service.FindHolder | council/src/council_service.c:117-122 | the first contact with the speaker's name |
| CouncilService.Service.SendStatus | council/src/council_service.c:103-135 | the turn moves on exactly when its holder is gone |
| CouncilService.Service.IsComplete | council/src/council_service.c:138 | complete exactly when every expected vote is a close vote |
| CouncilService.Service.EndIfComplete | council/src/council_service.c:139-141 | the end is recorded exactly then |
| CouncilService.Service.ProposeClosure | council/src/council_service.c:140 | the refusals and the opening of a proposal as specified |
| CouncilService.Service.VoteClosure | council/src/council_service.c:141 | close, continue and refused votes as specified |
| CouncilService.Service.HandleCommand | council/src/council_service.c:151-201 | every command changes the hub exactly as specified |
| MixedCall.TwoPassesEscape | iris/firmware/iris_noob/src/noobs/iris/hw_neo_bridge.cpp:128-133 | the two replace passes escape each backslash and quote exactly once |
| MixedCallGrammar.BothParsersReadBack | iris/firmware/iris_noob/src/noobs/iris/hw_neo_bridge.cpp:128-133 | what Iris writes, up to eight 32-bit numbers and 255 characters of any text, is read back by the ESP dispatcher, and by Neo exactly if the text is printable and at most 191 characters |
| MixedCallGrammar.BothRead | esp/common/src/commands/noob_command_dispatcher.cpp:206-241 | of every body written by the grammar, Neo reads the meaning if it can take the text and the ESP parser if no space stands between a control blank and its number |
| MixedCallGrammar.NeoReadsExactly | neo/tools/noob_native_registry.h:32-62 | Neo accepts a string with these arguments if and only if it is a body of the grammar with that meaning and a printable text of at most 191 characters |
| MixedCallGrammar.EspReadsExactly | esp/common/src/commands/noob_command_dispatcher.cpp:206-241 | the ESP parser accepts a string with these arguments if and only if it is a body of the grammar with that meaning and no space between a control blank and its number |
| MixedCallGrammar.ParsersPartExactly | esp/common/src/commands/noob_command_dispatcher.cpp:206-241 | for every string at all, the parsers differ if and only if it is a body of the grammar of which exactly one of these two conditions holds; the same with the ESP parser limited to 191 characters of text |
| MixedCallProofs.ParsersCompare | esp/common/src/commands/noob_command_dispatcher.cpp:206-241 | without such a token Neo reads what the ESP parser reads when it can take the text; with one the ESP parser refuses |
| MixedCallGrammar.ParsersAgree | esp/common/src/commands/noob_command_dispatcher.cpp:206-241 | on every printable body, well-formed or not, they agree |
| MixedCallProofs.TabSplitsNumbers | neo/tools/noob_native_registry.h:32-62 | a tab of its own between two numbers: Neo reads both numbers, the ESP parser refuses the body |
| MixedCallProofs.TabSplitsTexts | esp/common/src/commands/noob_command_dispatcher.cpp:206-241 | a body with a tab in the text that the ESP parser reads and Neo refuses |
| MixedCallProofs.NumberEndsInToken | esp/common/src/commands/noob_command_dispatcher.cpp:206-241 | unless a token is made of control blanks, reading a number up to its end or to the end of the string is the same |
| MixedCallProofs.NeoParser | neo/tools/noob_native_registry.h:32-62 | the cursor loops of Neo are the specified parse |
| MixedCallProofs.NeoScan | neo/tools/noob_native_registry.h:32-62 | the number loop, for any way of reading a number |
| MixedCallProofs.NeoTail | neo/tools/noob_native_registry.h:32-62 | the quoted text and what may follow it |
| MixedCallProofs.EspParser | esp/common/src/commands/noob_command_dispatcher.cpp:206-241 | the loops of the dispatcher are the specified parse |
| MixedCallProofs.EspScan | esp/common/src/commands/noob_command_dispatcher.cpp:206-241 | the token loop, for any way of reading a number |
| MixedCallProofs.EspTail | esp/common/src/commands/noob_command_dispatcher.cpp:206-241 | the quoted text and what may follow it |
| WireText.HexRoundTrip | iris/firmware/iris_noob/src/noobs/iris/hw_neo_bridge.cpp:117-126 | every byte string is read back from its hex text |
| WireText.HexDigitsStand | iris/firmware/iris_noob/src/noobs/iris/hw_neo_bridge.cpp:117-126 | two lower-case digits for each byte, the more significant first |
| WireText.HexText | iris/firmware/iris_noob/src/noobs/iris/hw_neo_bridge.cpp:117-126 | the loop writes that hex text |
| WireText.UnhexName | neo/tools/noob-neod.c:135-153 | Neo's loop accepts exactly hex of 1 to 191 printable characters and gives them |
| WireText.NameRoundTrip | neo/tools/noob-neod.c:135-153 | every printable name of 1 to 191 characters arrives |
| WireText.NameReadBack | neo/tools/noob-neod.c:135-153 | whatever name arrives is the one sent |
| WireText.FieldIs | iris/firmware/iris_noob/src/noobs/iris/hw_neo_bridge.cpp:171-177 | a field is the text from the first match of its key to the next blank |
| WireText.ReplyIsRead | neo/tools/noob-neod.c:204-211 | every field of the reply Neo prints is the one Iris reads, although keys are searched by first match |
| VmDownload.FetchIsSound | iris/firmware/iris_noob/src/noobs/iris/hw_neo_bridge.cpp:301-326 | against any replies, a completed fetch is their data in order with the announced length |
| VmDownload.FetchIsComplete | iris/firmware/iris_noob/src/noobs/iris/hw_neo_bridge.cpp:300-325 | replies of this kind are never refused |
| VmDownload.DownloadIsSound | iris/firmware/iris_noob/src/noobs/iris/hw_neo_bridge.cpp:292-327 | against any server, something is stored if and only if every reply announced its exact length, came in pieces of at most 128 bytes and the only end mark closed it; it is then the replies' data in order, under the requested name and mode |
| VmDownload.FetchWholeFile | neo/tools/noob-neod.c:201-211 | a server that gives the file's bytes, however few at a time, is fetched whole |
| VmDownload.NeoDownloadStoresTheFile | iris/firmware/iris_noob/src/noobs/iris/hw_neo_bridge.cpp:292-327 | with Neo over an unchanging directory, something is stored if and only if the call and the file are acceptable, and it is exactly that file |
| VmDownload.DecodeInto | iris/firmware/iris_noob/src/noobs/iris/hw_neo_bridge.cpp:313-317 | the decoding loop appends exactly the bytes of the hex text within the buffer, or reports a bad digit |
| VmDownload.Collect | iris/firmware/iris_noob/src/noobs/iris/hw_neo_bridge.cpp:299-326 | the loop over a 1024-byte buffer ends, stays in the buffer and is the specified fetch |
| VmDownload.RunDownload | iris/firmware/iris_noob/src/noobs/iris/hw_neo_bridge.cpp:292-327 | the whole call, its argument checks included |
| IrFrames.LowFirstRoundTrip | esp/common/src/services/Esp32IrDecoder.cpp:44 | a code is read back from its bits, lowest first |
| IrFrames.XorIsComplement | esp/common/src/services/Esp32IrDecoder.cpp:126 | an exclusive or of n bits is all ones exactly when the two numbers add up to all ones |
| IrFrames.NecGoodIsXor | esp/common/src/services/Esp32IrDecoder.cpp:126 | the check on command and inverse is the exclusive or of the source |
| IrFrames.FirstFrameIs | esp/common/src/services/Esp32IrDecoder.cpp:30-54 | the search takes the first start that passes |
| IrFrames.FramesDoNotOverlap | esp/common/src/services/Esp32IrDecoder.cpp:30-54 | no frame starts inside another of its kind |
| IrFrames.FrameInCapture | esp/common/src/services/Esp32IrDecoder.cpp:105-125 | a transmission keeps its code inside a longer capture |
| IrTheorems.Pd24IsDecoded | esp/common/src/services/Esp32IrDecoder.cpp:30-54 | a 24-bit transmission within the limits is decoded to its code whatever follows it and whatever precedes it, up to fifty pulses |
| IrTheorems.NecInClearCapture | esp/common/src/services/Esp32IrDecoder.cpp:103-137 | a NEC frame among the first 66 pulses of a capture clear of the other protocols is decoded |
| IrCollision.NecDecodedExactly | esp/common/src/services/Esp32IrDecoder.cpp:56-137 | a single frame that the NEC search itself would take is decoded as that frame if and only if it has no window of fourteen marks, runs of RC5 and all but the last one unit, with one two-unit space among the one-unit spaces between them; otherwise it is taken for RC5 |
| IrCollision.MarkPhase | esp/common/src/services/Esp32IrDecoder.cpp:78-87 | a Manchester word in a NEC frame that begins with a mark is all ones or has exactly one wide space |
| IrCollision.SpacePhase | esp/common/src/services/Esp32IrDecoder.cpp:78-87 | after a wide space no second one may come |
| IrCollision.SearchFindsWindow | esp/common/src/services/Esp32IrDecoder.cpp:60-101 | wherever the RC5 search takes a word in a NEC frame, the window stands |
| IrCollision.WindowIsFound | esp/common/src/services/Esp32IrDecoder.cpp:60-101 | wherever the window stands, the RC5 search takes a word |
| IrCollision.ExpandIsFlow | esp/common/src/services/Esp32IrDecoder.cpp:61-74 | the expansion sees the half-bits of the runs, cut off at 28 or a little more |
| IrCollision.NecIsDecoded | esp/common/src/services/Esp32IrDecoder.cpp:103-137 | a single NEC frame with data marks of 300 to 576 us is decoded to exactly its address, short or long, and its command |
| IrCollision.LongMarksAreMistaken | esp/common/src/services/Esp32IrDecoder.cpp:60-101 | the limit is exact: for every mark length from 577 to 850 us a valid NEC frame that is taken for RC5 |
| IrTheorems.Rc5IsDecoded | esp/common/src/services/Esp32IrDecoder.cpp:60-101 | runs within tolerance that spell the Manchester halves of fourteen bits are decoded to them |
| IrTheorems.ManchesterReadsBack | esp/common/src/services/Esp32IrDecoder.cpp:78-87 | Manchester halves are read back |
| IrLaws.RunLengths | esp/common/src/services/Esp32IrDecoder.cpp:64-70 | runs of 577 to 1200, 1334 to 2222 and 2223 to 3111 us are one, two and three half-bits, and no others |
| IrLaws.Rc5FieldsAreRead | esp/common/src/services/Esp32IrDecoder.cpp:89-99 | start, field, toggle, address and command of an RC5 word, the field bit inverted as seventh command bit; the words refused |
| IrLaws.Rc5ReachesFields | esp/common/src/services/Esp32IrDecoder.cpp:60-101 | runs that spell such a word are decoded to its address and command |
| IrLaws.NecFrameIs | esp/common/src/services/Esp32IrDecoder.cpp:105-120 | the pulse limits of an NEC frame |
| IrLaws.Pd24FrameIs | esp/common/src/services/Esp32IrDecoder.cpp:30-50 | the pulse limits of a 24-bit frame |
| IrLaws.NecBitIs | esp/common/src/services/Esp32IrDecoder.cpp:121 | bits lowest first; a space of more than 1000 us is a one |
| IrLaws.Pd24BitIs | esp/common/src/services/Esp32IrDecoder.cpp:44 | bits lowest first; a space of 1500 us or more is a one |
| IrLaws.RepeatIs | esp/common/src/services/Esp32IrDecoder.cpp:140-148 | the pulse limits of a repeat |
| IrDecoder.ReadPairs | esp/common/src/services/Esp32IrDecoder.cpp:34-45 | the bit loop is valid exactly when every pair is, and yields the code |
| IrDecoder.FindFrame | esp/common/src/services/Esp32IrDecoder.cpp:30-54 | the search loop finds the first frame that passes, with its code |
| IrDecoder.ExpandInto | esp/common/src/services/Esp32IrDecoder.cpp:61-74 | the expansion is as specified and never overruns its 36 entries |
| IrDecoder.ReadManchester | esp/common/src/services/Esp32IrDecoder.cpp:76-88 | valid exactly when every bit changes level, with its number |
| IrDecoder.FindOffset | esp/common/src/services/Esp32IrDecoder.cpp:75-100 | the first offset that passes |
| IrDecoder.FindRc5 | esp/common/src/services/Esp32IrDecoder.cpp:60-101 | the first start that has one |
| IrDecoder.FindRepeat | esp/common/src/services/Esp32IrDecoder.cpp:140-148 | found exactly when a repeat frame stands somewhere |
| IrDecoder.Decode | esp/common/src/services/Esp32IrDecoder.cpp:21-150 | the four searches in their order are the specified decoder |

## Left out

- Sockets, BLE, Wi-Fi, HTTP, PTYs, camera, audio, LED and sensor drivers, config and contact loading, status texts: plumbing, or only easy members.
- FAT internals: a rename or a removal is atomic and a removal does not fail; the `.tmp` and `.bak` suffixes are slots of a path; failing to create the directory is not part of the model.
- Saved programs other than the runtime snapshot (store, load, remove by name, `storeBytes` behind a download): the same replacement under other names.
- Starting the restored VM is taken to succeed: load and run refuse only sizes and states that restoreLast has excluded.
- Null pointers, failed allocations and the reply texts of `verifyLast` and `decode`.
- SHA-256 messages of 2^64 bits or more wrap their length as the source does.
- VM natives that call back into the VM or the sequencer; signed overflow, undefined in the source (INT32_MIN divided by -1 included), is modelled as wrap-around.
- Spurious wake-ups of the condition variable; the four unlinks of one item are one step; the Hue lights and remote executors are outcomes of a stage.
- The voting half of the Codex bridge loop, and the outbound transcript entries, whose failures only delay a step.
- Transcript lines as text (tabs, stamps, " -> "): records are typed events; appends do not fail; interleavings finer than one command; the activity lease.
- The sequencer's text form of set, load, clear and the busy mask query; the dropped counter's wrap at 2^32.
- The NRP/1 envelope around requests and replies, and the decimal parse of the offset in VM_READ.
- `strtol` on numbers beyond 64 bits: such numbers are out of every accepted range in any case.
- CodexBridge.OneAnswerPerGrant: grants are numbered in the order the hub first shows them, where the source compares their texts.
