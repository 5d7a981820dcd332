# Verified model of the pcm-unit driver tests

This project models the parts of the `pcm-unit` kernel driver that carry real protocols and arithmetic, and proves their properties in Dafny 4.11. `dafny verify dfyconfig.toml` checks all of it.

**The paravirtual clock.** `versioned_read.dfy` is the retry loop that reads a host-published record; `clocksource_call.dfy` is one call of `pvclock_clocksource_read`, one memory access per step, and the same loop as a method under arbitrary interference; `monotonic_filter.dfy` runs any number of such calls in any interleaving and refines them to a publish-then-observe object; `wallclock.dfy` adds the nanosecond arithmetic and the monotonicity of wall-clock reads.

**The warp test.** `warp_test.dfy` is `test_kvm_clock` as a transition system: any number of CPUs, iterations and phases, with the spin lock, the loads and stores of `++warps` and `++stalls`, the dispatcher and the countdown. `warp_invariants.dfy` and `warp_theorems.dfy` prove what every run keeps; `warp_witnesses.dfy` has schedules showing that the hypotheses are needed, and the largest clock bound for which the test is safe; `warp_conditions.dfy` says exactly when the test needs the filter; `warp_carryover.dfy` follows `last_value` through the whole test; `lost_stalls.dfy` says exactly when the unlocked counter loses increments; `warp_single.dfy` has the driver's loops as methods for one CPU.

**setjmp/longjmp.** `byte_memory.dfy` is little-endian memory; `nonlocal_jump.dfy` the specification for any word size; `setjmp64.dfy` and `setjmp32.dfy` the two assembly files, one assignment per instruction, and the loop of `test_setjmp`.

**IOAPIC.** `thunk.dfy` and `thunk_emitter.dfy` cover interrupt gates and the code-emitting thunk; `ioapic_window.dfy` the register window; `level_interrupts.dfy` the level-triggered handlers; `apic_bits.dfy` the bit reader.

**TSC_ADJUST.** `tsc_adjust.dfy`.

## Assumptions

- Memory accesses are sequentially consistent. A host writer makes the version odd, writes words, and makes it even, as the KVM pvclock ABI requires.
- A spin lock gives mutual exclusion; each dispatched worker runs once. `set_normalized_timespec` and `do_div` have their documented meaning.
- An IOAPIC line sends an interrupt when it is high, unmasked and not in service; an end-of-interrupt write ends the service. Handlers run with interrupts disabled. Bits 12 and 14 of a redirection entry's low word are read-only (82093AA datasheet, section 3.2.4); reserved bits are stored as written.
- An instruction changes only the registers and memory its line names; flags are not modelled.

## What the code does that its messages or the C standard do not say

- The "raw cycle" phases of `test_kvm_clock` test the same clock as the "monotonic" ones, filtered unless the host publishes the stable bit: the branch that would test PVCLOCK_RAW_CYCLE_BIT is commented out, and `RawCycleBitIsIgnored` shows that setting the bit changes no run.
- A delta can be negative although the clock never stepped back: exactly when it jumped forward by 2^63 or more (`FilteredSamplesMoveForward`). `WarpByLeap` is such a run, and 2^63 is the largest bound on the host's clock under which no filtered schedule counts a warp (`LargestSafeBound`).
- Every phase sets the guest's stable bit, so on a host that publishes its own no reading is filtered. Whatever the clock, as long as it stays below 2^63, the test then passes exactly when nothing is checked or there is at most one sample (`FilterNeededIff`); on a clock that never steps back it always passes (`NoWarpsOnASteadyClock`).
- `++stalls` without the lock loses increments in some schedule of every test with two or more CPUs, an iteration and a check, and in no other (`StallsExactIff`).
- `ioapic_isr_99` runs twice, not once, as soon as its interrupt is delivered between the two raises of `test_ioapic_level_sequential` (`SequentialRuns`); in general it runs once per rising edge.
- `longjmp(env, 0)` makes `setjmp` return 0; section 7.13.2.1 of ISO C11 requires 1 (`ResultIsIsoIffNonzero`).
- The IOAPIC window is not re-entrant. `set_mask` makes eight register accesses; a handler that runs `set_mask` after an even number of them does no harm, and after an odd number, that is between a selector write and its data access, it does no harm exactly when `Harmless` holds of the registers before the call (`InterruptionExact`). In `test_ioapic_level_retrigger_mask` only the first of the seven points is harmful, and it leaves vector 0 (`InterruptedSetMaskLosesTheEntry`).
- The version test is sound for fewer than 2^31 updates inside one attempt, and with exactly 2^31 it can return a record never published (`TornAtTheLimit`, `LargestSoundLimit`).

## Model

| member | source | states |
|---|---|---|
| VersionedRead.NeverTorn | pcm-unit/driver/kvmclock_test.c:108-114 | in every interleaving with the host, if fewer than 2^32 version changes touch the accepted attempt, all words loaded are one publication, current throughout the attempt and no older than the call |
| VersionedRead.AcceptsIffUndisturbed | pcm-unit/driver/kvmclock_test.c:134-136 | although the exit test loads the version twice, the second test accepts exactly when the version has not changed since the attempt began |
| VersionedRead.QuietAttemptAccepted | pcm-unit/driver/kvmclock_test.c:134-136 | an undisturbed attempt from an even version exits with the current record |
| VersionedRead.TornAtTheLimit | pcm-unit/driver/kvmclock_test.c:108-114 | with exactly 2^31 updates inside an attempt the wrapped version is accepted with a record never published |
| VersionedRead.LargestSoundLimit | pcm-unit/driver/kvmclock_test.c:108-114 | every record accepted by attempts that see fewer than N version changes was published if and only if N is at most 2^32 |
| VersionedRead.HostPage.Attempt | pcm-unit/driver/kvmclock_test.c:109-114 | one pass of the loop accepts exactly when it began at an even version that has not changed, and then has the current record |
| VersionedRead.HostPage.ReadRecord | pcm-unit/driver/kvmclock_test.c:108-114 | the loop itself: it ends with the first undisturbed attempt from an even version, and an accepted record was published and current between call and return |
| ClocksourceCall.ClocksourceRead | pcm-unit/driver/kvmclock_test.c:144-170 | the method under arbitrary interference: the bypass returns the raw reading untouched; otherwise the result was found by the call's own last access, is at least the reading and `last_value` at entry, and the cmpxchg count is bounded |
| MonotonicFilter.LastValueNeverFalls | pcm-unit/driver/kvmclock_test.c:163-170 | no step of any interleaving lowers `last_value` |
| MonotonicFilter.ReturnedValues | pcm-unit/driver/kvmclock_test.c:163-170 | each returned value was held by `last_value` at one of the call's own accesses, is at least its raw reading, is some call's raw reading, and is at least what every call finished before it began returned |
| MonotonicFilter.ReturnsAreSorted | pcm-unit/driver/kvmclock_test.c:163-170 | in the order of last accesses the returned values never decrease |
| MonotonicFilter.CmpxchgBound | pcm-unit/driver/kvmclock_test.c:163-168 | at most raw - L + 1 cmpxchg operations after first finding L; no access finds less than the one before, and before the last access only a cmpxchg that is followed by exactly one more finds the same, so every failed cmpxchg finds strictly more |
| MonotonicFilter.FilterRefinesPublishThenObserve | pcm-unit/driver/kvmclock_test.c:163-170 | every run is a run of the object whose calls publish a maximum and later observe it, with the same shared value and outcomes |
| MonotonicFilter.NotFetchMax | pcm-unit/driver/kvmclock_test.c:163-170 | a run whose outcomes no order of atomic fetch-and-max operations produces |
| Wallclock.ExactIffNoWrap | pcm-unit/driver/kvmclock_test.c:116-122 | seconds and nanoseconds represent boot time plus record exactly if and only if the 64-bit sum does not wrap; the nanoseconds are always in range, so normalisation is the identity |
| Wallclock.NormalizedKeepsInstant | pcm-unit/driver/kvmclock_test.c:122 | the final normalisation keeps the instant and brings the nanoseconds into range |
| Wallclock.NeverWrapsBelow63Bits | pcm-unit/driver/kvmclock_test.c:116-122 | for a boot time below 2^63 ns no 32-bit record makes it wrap |
| Wallclock.WallclockNeverFallsBack | pcm-unit/driver/kvmclock_test.c:99-122 | in every interleaving, with the record unchanged and while no 64-bit sum wraps, a wall-clock read begun after another finished is lexicographically no earlier |
| Wallclock.ReadWallclock | pcm-unit/driver/kvmclock_test.c:99-123 | the method: the time stored is that of a published record and a clock value at least the raw reading and at least `last_value` at entry |
| WarpTest.DeltaIsTwosComplement | pcm-unit/driver/kvmclock_test.c:258 | the delta is the unsigned 64-bit difference read as a signed number |
| WarpTheorems.NoWarpsThroughTheFilter | pcm-unit/driver/kvmclock_test.c:238-309 | in every interleaving of any number of CPUs, with all readings filtered and below 2^63, at every moment warps and worst are 0 in every phase, running or finished, and every returned result is 0, `last_value` carrying over |
| WarpTheorems.DriverTestPasses | pcm-unit/driver/kvmclock_test.c:352-371 | the driver's four phases count no warp at any moment and return 0 on a host that never publishes the stable bit |
| WarpTheorems.DriverPhasesRun | pcm-unit/driver/kvmclock_test.c:352-371 | in the driver's phases every CPU compares `loops` samples in the first two and none in the last two, all with the stable bit set and the raw-cycle bit in the first and third |
| WarpTheorems.PhaseUsesItsFlags | pcm-unit/driver/kvmclock_test.c:353-371 | while a phase runs the flags are the ones set for it |
| WarpTheorems.UnstableHostIsFiltered | pcm-unit/driver/kvmclock_test.c:144-146 | no reading skips the filter while the host does not publish the stable bit |
| WarpCarryover.LastValueNeverFalls | pcm-unit/driver/kvmclock_test.c:163-170 | no step of the whole test lowers `last_value`, whichever phase it belongs to |
| WarpCarryover.NoValueInvented | pcm-unit/driver/kvmclock_test.c:163-170 | `last_value` and every t1 compared are raw readings taken in the run or the initial `last_value`, and every t0 is one of these or 0 |
| WarpCarryover.PhaseStartsAbove | pcm-unit/driver/kvmclock_test.c:278-309 | with filtered readings every t1 of a phase or a later one is at least what `last_value` was when the phase began |
| WarpCarryover.PhasesNeverStepBack | pcm-unit/driver/kvmclock_test.c:278-309 | with filtered readings no t1 of a phase is below any t1 of an earlier phase |
| WarpTheorems.FilteredSamplesMoveForward | pcm-unit/driver/kvmclock_test.c:252-258 | with filtered readings, at every moment and on every CPU, each t1 is at least the `last` it is compared with, and its delta is negative exactly when they are 2^63 or more apart |
| WarpTheorems.ExactAccounting | pcm-unit/driver/kvmclock_test.c:258-267 | for arbitrary clocks, a finished phase has warps = number of negative deltas modulo 2^64, worst = minimum of 0 and the deltas, and, unless the counter can wrap, result 1 iff some delta was negative iff worst is below 0 |
| WarpTheorems.StallsUndercount | pcm-unit/driver/kvmclock_test.c:268-269 | the unlocked counter is at most the number of zero deltas, positive iff there was one, and exact for one CPU |
| WarpTheorems.BarrierCounts | pcm-unit/driver/kvmclock_test.c:286-293 | at every step `ncpus` counts undispatched plus unfinished CPUs; after the wait loop every CPU has done exactly `loops` iterations, with two clock reads each, or one if nothing is checked |
| WarpTheorems.FinishedPhasesAreFrozen | pcm-unit/driver/kvmclock_test.c:286-308 | once a phase has returned no later step of the run changes its test_info or result |
| WarpTheorems.StepKeepsAwaited | pcm-unit/driver/kvmclock_test.c:292-293 | already when the wait loop exits no step of any CPU changes a test_info |
| WarpTheorems.MutualExclusion | pcm-unit/driver/kvmclock_test.c:252-266 | two CPUs are never inside the locked sections together |
| WarpTheorems.RawCycleBitIsIgnored | pcm-unit/driver/kvmclock_test.c:353-371 | setting the raw-cycle bit changes no run |
| WarpTheorems.FilteredUnlessBothBits | pcm-unit/driver/kvmclock_test.c:144-146 | no reading skips the filter if the host's bit never meets a phase that sets the guest's |
| WarpConditions.NoWarpsOnASteadyClock | pcm-unit/driver/kvmclock_test.c:238-309 | if the readings taken along a schedule never decrease and stay below 2^63, no phase counts a warp at any moment, whatever skips the filter |
| WarpConditions.FilterNeededIff | pcm-unit/driver/kvmclock_test.c:144-146 | for any number of CPUs and iterations, any flags and any host, `cycle_test` passes on every clock below 2^63 if and only if the two bits do not let a reading skip the filter, or nothing is checked, or there is at most one sample |
| WarpWitnesses.WarpWithoutTheFilter | pcm-unit/driver/kvmclock_test.c:144-146 | for any CPUs and iterations that make two samples or more, readings that skip the filter can be counted as a warp |
| WarpWitnesses.WarpByLeap | pcm-unit/driver/kvmclock_test.c:258-261 | on any number of CPUs a first filtered reading of 2^63 is counted as a warp |
| WarpWitnesses.LargestSafeBound | pcm-unit/driver/kvmclock_test.c:238-309 | for any number of CPUs and iterations, no filtered schedule of clock values below a bound counts a warp if and only if the bound is at most 2^63 |
| LostStalls.StallsCanBeLost | pcm-unit/driver/kvmclock_test.c:268-269 | for two or more CPUs, any iterations and any check, and any guest flags, a schedule in which `cycle_test` returns with fewer stalls than zero deltas |
| LostStalls.StallsExactIff | pcm-unit/driver/kvmclock_test.c:268-269 | the stall counter is exact in every schedule of `cycle_test` if and only if at most one CPU runs, nothing is iterated, or nothing is checked |
| WarpSingle.LeastIsMinimum | pcm-unit/driver/kvmclock_test.c:262-263 | the value `worst` is specified by is the minimum of its start and the negative deltas |
| WarpSingle.Info.KvmClockTest | pcm-unit/driver/kvmclock_test.c:238-276 | in terms of the readings one CPU takes and the values its clock calls return: each iteration compares its first value with the second of the one before, `last` ends as the last value, the three statistics are exact, and filtered values never fall |
| WarpSingle.Info.CycleTest | pcm-unit/driver/kvmclock_test.c:278-309 | with one CPU the result is 1 iff the first value of some iteration minus the second of the one before is negative as a signed 64-bit number |
| NonlocalJump.EveryLongjmpResumes | pcm-unit/driver/setjmp64.S:1-27 | any number of longjmps, from any states that keep the buffer, resume at setjmp's return point with its stack pointer and callee-saved registers and their own value |
| NonlocalJump.LongjmpResumes | pcm-unit/driver/setjmp64.S:15-27 | one longjmp restores the continuation and the return slot and changes nothing else; the buffer survives if the slot lies outside it |
| NonlocalJump.ResultIsIsoIffNonzero | pcm-unit/driver/setjmp64.S:16-17 | the value returned is the C standard's exactly when it is not 0 |
| Setjmp64.Machine.Setjmp | pcm-unit/driver/setjmp64.S:1-13 | the instructions capture the caller's continuation, return 0 and write only the buffer |
| Setjmp64.Machine.Longjmp | pcm-unit/driver/setjmp64.S:15-27 | the instructions resume the buffer's continuation with the low 32 bits of the value |
| Setjmp64.SetjmpEffect | pcm-unit/driver/setjmp64.S:3-13 | the eight stores leave exactly the return address, stack pointer and six registers in the buffer |
| Setjmp32.Machine.Setjmp | pcm-unit/driver/setjmp32.S:1-12 | the 32-bit instructions meet the same specification |
| Setjmp32.Machine.Longjmp | pcm-unit/driver/setjmp32.S:14-25 | the 32-bit instructions meet the same specification |
| Setjmp64.TestSetjmp | pcm-unit/driver/setjmp.c:19-36 | for any N in place of 10 the loop prints 0..N-1 (0 alone if N < 1) and "done" with one longjmp between numbers |
| Thunk.ThunkRuns64 | pcm-unit/driver/ioapic.c:325-336 | decoded and executed, the emitted bytes lower the stack by a word, leave exactly the handler on top, write nothing else, and reach the entry point iff it is within signed 32-bit reach |
| Thunk.ThunkRuns32 | pcm-unit/driver/ioapic.c:337-344 | the 32-bit bytes do the same and always reach |
| Thunk.JumpTarget64 | pcm-unit/driver/ioapic.c:334-336 | the truncated displacement leads to the entry point exactly when it is within reach |
| Thunk.GateDecodes | pcm-unit/driver/ioapic.c:303-317 | the entry's bytes decode to a present interrupt gate for exactly the address, selector and privilege level, without a stack switch and with its reserved bytes 0 |
| ThunkEmitter.SetIdtEntry | pcm-unit/driver/ioapic.c:303-317 | fills one entry in place and leaves the others |
| ThunkEmitter.HandleIrqLocal64 | pcm-unit/driver/ioapic.c:319-336 | emits exactly the thunk's 24 bytes in the 50-byte buffer and installs its gate |
| ThunkEmitter.HandleIrqLocal32 | pcm-unit/driver/ioapic.c:337-345 | emits exactly the 10 bytes of the 32-bit thunk |
| ThunkEmitter.InterruptReachesEntry64 | pcm-unit/driver/ioapic.c:303-345 | taking the gate installed for a thunk leads to the entry point with the handler on the stack |
| ThunkEmitter.InterruptReachesEntry32 | pcm-unit/driver/ioapic.c:303-345 | the same for the eight-byte gate and the 32-bit thunk, wherever the entry point is |
| IoapicWindow.WindowRefinesTable | pcm-unit/driver/ioapic.c:184-235 | any sequence of operations on in-range lines, from any selector value, behaves and reads back like a plain table of entries |
| IoapicWindow.WriteRedirIsTableWrite | pcm-unit/driver/ioapic.c:196-200 | writing an entry changes that line only, except its read-only status bits |
| IoapicWindow.SetMaskFlipsOneBit | pcm-unit/driver/ioapic.c:229-235 | set_mask changes bit 16 of its line and nothing else |
| IoapicWindow.WordsOfEntry | pcm-unit/driver/ioapic.c:41-53 | the record survives being moved as two words |
| IoapicWindow.FieldsByNumber | pcm-unit/driver/ioapic.c:41-53 | every field of the record lies at its own bits of the two words |
| IoapicWindow.SetMaskByNumber | pcm-unit/driver/ioapic.c:229-235 | set_mask sets bit 16 of register 0x10 + 2 * line for an odd argument, clears it for an even one, and changes no other bit of any register |
| IoapicWindow.FreshRegisters | pcm-unit/driver/ioapic.c:207-217 | the two registers of the line hold the vector, the trigger mode in bit 15 and otherwise 0, status bits kept |
| IoapicWindow.SetMaskIsEightAccesses | pcm-unit/driver/ioapic.c:184-235 | the call is its eight register accesses one after the other |
| IoapicWindow.InterruptionLeaves | pcm-unit/driver/ioapic.c:184-235 | the registers left by set_mask when a handler's set_mask runs after any of its accesses |
| IoapicWindow.InterruptionExact | pcm-unit/driver/ioapic.c:184-235 | interrupted after any of its accesses, set_mask leaves the table of the two calls in one order or the other if and only if a condition on the registers before the call holds, and which order it is |
| IoapicWindow.InterruptedSetMaskLosesTheEntry | pcm-unit/driver/ioapic.c:652-674 | in the retrigger-mask test exactly the interruption after the first access does harm, and it leaves vector 0, edge-triggered |
| IoapicWindow.Window.SetLineMask | pcm-unit/driver/ioapic.c:229-235 | the method on the live device changes bit 16 of one register |
| IoapicWindow.Window.SetIoapicRedir | pcm-unit/driver/ioapic.c:207-217 | the method leaves the vector, the trigger mode in bit 15 and otherwise 0 in the line's two registers, status bits kept, and changes no other register |
| IoapicWindow.Window.IoapicReadRedir | pcm-unit/driver/ioapic.c:219-227 | the method returns the line's entry and changes only the selector |
| LevelInterrupts.RetriggerRunsTwice | pcm-unit/driver/ioapic.c:566-596 | in every schedule ioapic_isr_9a runs at most twice, and exactly twice with the line low once nothing is pending |
| LevelInterrupts.CoalescedRunsOnce | pcm-unit/driver/ioapic.c:525-545 | ioapic_isr_98 runs once although the line rises twice |
| LevelInterrupts.SequentialCountsEdges | pcm-unit/driver/ioapic.c:547-554 | ioapic_isr_99 runs once per rise of the line, in every schedule of any number of raises |
| LevelInterrupts.SequentialRuns | pcm-unit/driver/ioapic.c:556-564 | the two raises give one run if no delivery comes between them and two otherwise |
| LevelInterrupts.SelfMaskingRunsOncePerUnmasking | pcm-unit/driver/ioapic.c:652-674 | ioapic_isr_83 runs at most once per unmasking, whatever the main program does |
| LevelInterrupts.RetriggerMaskRuns | pcm-unit/driver/ioapic.c:660-674 | in every schedule of the retrigger-mask test the handler runs twice, or once if its first interrupt was still pending at the unmasking, and leaves the line masked; the clean-up runs it no more |
| LevelInterrupts.MaskedLineWaits | pcm-unit/driver/ioapic.c:627-650 | in every schedule of the level-mask test the handler does not run while the line is masked and runs once after it is unmasked |
| LevelInterrupts.SettledIsLowOrMasked | pcm-unit/driver/ioapic.c:525-674 | in every schedule, with nothing in service the line is low or masked |
| LevelInterrupts.LevelIsTheLastSet | pcm-unit/driver/ioapic.c:525-674 | the line is high iff the main program last raised it and no handler run since then lowers it |
| LevelInterrupts.MaskIsTheLastSet | pcm-unit/driver/ioapic.c:652-674 | the line is masked iff the main program last masked it or ioapic_isr_83 has run since |
| LevelInterrupts.DeliveredInService | pcm-unit/driver/ioapic.c:525-674 | in every schedule a handler starts with its interrupt sent and not ended |
| LevelInterrupts.Interrupts.IoapicIsr98 | pcm-unit/driver/ioapic.c:527-536 | run in service, the handler makes the line rise once more on its first run only, and leaves it low with nothing sent again |
| LevelInterrupts.Interrupts.IoapicIsr9a | pcm-unit/driver/ioapic.c:568-574 | run in service, the handler is sent its interrupt again at once iff the line is high and unmasked and this is not the second run, which lowers the line |
| ApicBits.ReadBitIsBitOfRegister | pcm-unit/driver/ioapic.c:176-181 | for n in 0..255 apic_read_bit holds iff binary digit n of the 256-bit value of the eight registers is 1 |
| TscAdjust.TscIsConserved | pcm-unit/driver/tsc_adjust.c:27-54 | under any ticks and writes TSC - TSC_ADJUST - ticks is constant modulo 2^64 |
| TscAdjust.ChangeOfTsc | pcm-unit/driver/tsc_adjust.c:27-36 | the change of TSC is the ticks plus the change of TSC_ADJUST |
| TscAdjust.EstimateIsElapsed | pcm-unit/driver/tsc_adjust.c:51-57 | t4 - t5 - t1 is the ticks from the TSC read to the TSC write, less the previous TSC_ADJUST |
| TscAdjust.TestTscAdjust | pcm-unit/driver/tsc_adjust.c:10-68 | which eleven accesses the test makes, in order, and what each printed number equals in the ticks between them |

## Left out

- VersionedRead.HostPage.ReadRecord: the driver's loop has no cut-off; the method gives up after a number of attempts, because a host that never completes an update makes the loop spin; and the host makes fewer than 2^32 version changes inside one attempt. VersionedRead.NeverTorn has no cut-off, and VersionedRead.TornAtTheLimit shows that the second limit is needed.
- Wallclock.ReadWallclock: inherits both limits of ReadRecord.
- WarpSingle.Info.KvmClockTest: one CPU with the test_info to itself; the lock and the interleavings of several are in WarpTheorems.
- WarpSingle.Info.CycleTest: one CPU only; the interleavings of several are in WarpTheorems.
- LevelInterrupts.SelfMaskingRunsOncePerUnmasking: set_mask is one step here; IoapicWindow.InterruptionExact says at which register accesses that is justified.
- IoapicWindow.InterruptionExact: one handler, which runs set_mask once; `ioapic_isr_83` masks its own line, so it does not come again before the main program unmasks it.
- LevelInterrupts.Interrupts.IoapicIsr83: its mask write goes to the line model, not through the register window.
- IoapicWindow.Window: registers below 0x10 (identification, version, arbitration) can be read but not written.
- Setjmp64.TestSetjmp: printk and the code around the calls are arbitrary changes that keep the buffer and the variable; the 32-bit loop is not repeated.
- ThunkEmitter.HandleIrqLocal64: a failed vmalloc, which the driver does not check, and the address space above the buffer's end.
- Weak memory orders, fairness of the scheduler, and whether the busy-wait of `cycle_test` ends.
- The clock page's conversion from ticks to nanoseconds inside `__pvclock_read_cycles`: a reading is any 64-bit value.
- The write of the wall-clock MSR in `kvm_get_wallclock`, the offset check of `wallclock_test`, and all printing and TSC timing.
- The TMR, edge-triggered and simultaneous-interrupt tests and the x2APIC path: they only observe the hardware.
- The character devices, ioctl dispatch, `focus_test`, `test_module`, `msr.c` and `tsc.c`: kernel plumbing and single privileged instructions.
