/** The multi-CPU monotonicity test: `kvm_clock_test` on every CPU, driven by `cycle_test`, over the
    successive phases of `test_kvm_clock`.

    Each step is one access to shared memory by one CPU, or one step of the dispatching thread.
    Every access that the driver does not protect can be interleaved with every other: in particular
    the increments `++warps` and `++stalls` are a load and a later store. */
module WarpTest {
  import opened Words
  import opened ClocksourceCall

  // ---------- Shared memory ----------

  datatype Lock = Free | HeldBy(cpu: nat)

  datatype TestInfo = TestInfo(lock: Lock, warps: u64, stalls: u64, worst: int, last: u64, ncpus: int, check: int)

  /** A test_info of the zero-initialised global array. */
  function ZeroInfo(): TestInfo {
    TestInfo(Free, 0, 0, 0, 0, 0, 0)
  }

  // ---------- One CPU ----------

  /** The two readings an iteration compares. */
  datatype Sample = Sample(t1: u64, t0: u64)

  /** `delta = t1 - t0`, an unsigned difference stored in a signed 64-bit variable. */
  function Delta(s: Sample): int {
    var d := s.t1 - s.t0;
    if d >= TWO63 then d - TWO64 else if d < -TWO63 then d + TWO64 else d
  }

  lemma DeltaIsTwosComplement(s: Sample)
    ensures Delta(s) == Signed64(Wrap64(s.t1 - s.t0))
  {
  }

  /** Increment of an unsigned 64-bit counter. */
  function Successor(x: u64): (y: u64)
    ensures y == Wrap64(x + 1)
  {
    if x == TWO64 - 1 then 0 else x + 1
  }

  datatype Pc =
    | Idle | Entry | Loop | PlainRead
    | Lock1 | Read1 | LoadLast | Read2 | StoreLast | Unlock1 | Judge
    | Lock2 | LoadWarps | StoreWarps | LoadWorst | StoreWorst | Unlock2
    | LoadStalls | StoreStalls | Advance | Finish

  /** A CPU running `kvm_clock_test` on test_info number `info`.  `samples` and `calls` are history: the
      readings compared by each iteration of this run, and how many clock reads it has completed. */
  datatype Worker = Worker(pc: Pc, info: nat, check: int, i: nat, call: Call, t1: u64, t0: u64, t2: u64, tmp: u64,
                           samples: seq<Sample>, calls: nat)

  function Fresh(): Worker {
    Worker(Idle, 0, 0, 0, Begin, 0, 0, 0, 0, [], 0)
  }

  /** A CPU just sent to `kvm_clock_test` on test_info number `phase`. */
  function Started(phase: nat): Worker {
    Fresh().(pc := Entry, info := phase)
  }

  /** One step of a call of `pvclock_clocksource_read`. */
  function ReadClock(c: Call, lastValue: u64, flags: Flags, raw: u64, hostStable: bool): Access {
    match c
    case Begin => Access(TakeReading(flags, raw, hostStable), lastValue)
    case Done(_) => Access(c, lastValue)
    case Load(_) => Next(c, lastValue)
    case Swap(_, _) => Next(c, lastValue)
  }

  /** What a CPU's step can see and change; `bypassed` is history: some reading skipped the filter. */
  datatype Shared = Shared(lastValue: u64, bypassed: bool, ti: TestInfo)

  datatype Moved = Moved(w: Worker, sh: Shared)

  /** A step inside a clock read, going on to `next` with the value when the read returns. */
  function ReadMove(w: Worker, sh: Shared, flags: Flags, raw: u64, hostStable: bool): Moved {
    var a := ReadClock(w.call, sh.lastValue, flags, raw, hostStable);
    Moved(w.(call := a.call, calls := if a.call.Done? then w.calls + 1 else w.calls),
          Shared(a.lastValue, sh.bypassed || (w.call.Begin? && Bypasses(flags, hostStable)), sh.ti))
  }

  /** Entry, loop control and exit; with check == 0 the loop only reads the clock. */
  function LoopMove(loops: nat, flags: Flags, w: Worker, sh: Shared, raw: u64, hostStable: bool): Moved {
    match w.pc
    case Entry => Moved(w.(pc := Loop, check := sh.ti.check), sh)
    case Loop =>
      Moved(if w.i >= loops then w.(pc := Finish)
            else if w.check == 0 then w.(pc := PlainRead, call := Begin)
            else w.(pc := Lock1), sh)
    case PlainRead =>
      var m := ReadMove(w, sh, flags, raw, hostStable);
      if m.w.call.Done? then m.(w := m.w.(pc := Loop, i := w.i + 1)) else m
    case Advance => Moved(w.(pc := Loop, i := w.i + 1), sh)
    case Finish => Moved(w.(pc := Idle), sh.(ti := sh.ti.(ncpus := sh.ti.ncpus - 1)))
    case _ => Moved(w, sh)
  }

  /** The first critical section: read the clock, load `last`, read the clock again into `last`. */
  function SampleMove(id: nat, flags: Flags, w: Worker, sh: Shared, raw: u64, hostStable: bool): Moved {
    var ti := sh.ti;
    match w.pc
    case Lock1 =>
      if ti.lock.Free? then Moved(w.(pc := Read1, call := Begin), sh.(ti := ti.(lock := HeldBy(id)))) else Moved(w, sh)
    case Read1 =>
      var m := ReadMove(w, sh, flags, raw, hostStable);
      if m.w.call.Done? then m.(w := m.w.(pc := LoadLast, t1 := m.w.call.value)) else m
    case LoadLast => Moved(w.(pc := Read2, t0 := ti.last, call := Begin), sh)
    case Read2 =>
      var m := ReadMove(w, sh, flags, raw, hostStable);
      if m.w.call.Done? then m.(w := m.w.(pc := StoreLast, t2 := m.w.call.value)) else m
    case StoreLast => Moved(w.(pc := Unlock1), sh.(ti := ti.(last := w.t2)))
    case Unlock1 =>
      Moved(w.(pc := Judge, samples := w.samples + [Sample(w.t1, w.t0)]), sh.(ti := ti.(lock := Free)))
    case _ => Moved(w, sh)
  }

  /** The verdict on the sample: `++warps` and `worst` under the lock, `++stalls` without it. */
  function CountMove(id: nat, w: Worker, sh: Shared): Moved {
    var ti, delta := sh.ti, Delta(Sample(w.t1, w.t0));
    match w.pc
    case Judge => Moved(w.(pc := if delta < 0 then Lock2 else if delta == 0 then LoadStalls else Advance), sh)
    case Lock2 =>
      if ti.lock.Free? then Moved(w.(pc := LoadWarps), sh.(ti := ti.(lock := HeldBy(id)))) else Moved(w, sh)
    case LoadWarps => Moved(w.(pc := StoreWarps, tmp := ti.warps), sh)
    case StoreWarps => Moved(w.(pc := LoadWorst), sh.(ti := ti.(warps := Successor(w.tmp))))
    case LoadWorst => Moved(w.(pc := if delta < ti.worst then StoreWorst else Unlock2), sh)
    case StoreWorst => Moved(w.(pc := Unlock2), sh.(ti := ti.(worst := delta)))
    case Unlock2 => Moved(w.(pc := Advance), sh.(ti := ti.(lock := Free)))
    case LoadStalls => Moved(w.(pc := StoreStalls, tmp := ti.stalls), sh)
    case StoreStalls => Moved(w.(pc := Advance), sh.(ti := ti.(stalls := Successor(w.tmp))))
    case _ => Moved(w, sh)
  }

  predicate InSample(pc: Pc) {
    pc.Lock1? || pc.Read1? || pc.LoadLast? || pc.Read2? || pc.StoreLast? || pc.Unlock1?
  }

  predicate InCount(pc: Pc) {
    pc.Judge? || pc.Lock2? || pc.LoadWarps? || pc.StoreWarps? || pc.LoadWorst? || pc.StoreWorst? || pc.Unlock2?
    || pc.LoadStalls? || pc.StoreStalls?
  }

  /** One step of CPU `id` executing `kvm_clock_test`; `raw` and `hostStable` are what the host's
      clock page yields if this step takes a reading. */
  function WorkerMove(id: nat, loops: nat, flags: Flags, w: Worker, sh: Shared, raw: u64, hostStable: bool): Moved {
    if InSample(w.pc) then SampleMove(id, flags, w, sh, raw, hostStable)
    else if InCount(w.pc) then CountMove(id, w, sh)
    else LoopMove(loops, flags, w, sh, raw, hostStable)
  }

  // ---------- The dispatching thread and the whole system ----------

  /** One `pvclock_set_flags` and the `cycle_test` after it. */
  datatype Phase = Phase(flags: Flags, check: int)

  datatype Main = SetFlags | SetCount | SetCheck | Dispatch(left: nat) | Wait | Return

  /** `infos` is the array `ti`; phase number p uses element p.  `results` are the values returned by
      the finished `cycle_test` calls, and `past` what each CPU had done when they returned. */
  datatype World = World(
    loops: nat, phases: seq<Phase>,
    lastValue: u64, flags: Flags, bypassed: bool, infos: seq<TestInfo>, cpus: seq<Worker>,
    main: Main, phase: nat, results: seq<int>, past: seq<seq<Worker>>)

  /** The parameters of a run; `lastValue` is what the readings before the first phase left in
      `last_value`. */
  datatype Setup = Setup(cpus: nat, loops: nat, phases: seq<Phase>, lastValue: u64)

  function Initial(s: Setup): World {
    World(s.loops, s.phases, s.lastValue, Flags(false, false), false,
          seq(|s.phases|, _ => ZeroInfo()), seq(s.cpus, _ => Fresh()), SetFlags, 0, [], [])
  }

  /** The phases of `test_kvm_clock`. */
  function DriverPhases(): seq<Phase> {
    [Phase(Flags(true, true), 1), Phase(Flags(true, false), 1),
     Phase(Flags(true, true), 0), Phase(Flags(true, false), 0)]
  }

  function MainMove(w: World): World {
    if w.phase >= |w.phases| || w.phase >= |w.infos| then w
    else
      var p, ti := w.phase, w.infos[w.phase];
      match w.main
      case SetFlags => w.(flags := w.phases[p].flags, main := SetCount)
      case SetCount => w.(infos := w.infos[p := ti.(ncpus := |w.cpus|)], main := SetCheck)
      case SetCheck => w.(infos := w.infos[p := ti.(check := w.phases[p].check)], main := Dispatch(|w.cpus|))
      case Dispatch(left) =>
        if left == 0 || left > |w.cpus| then w.(main := Wait)
        else w.(cpus := w.cpus[left - 1 := Started(p)], main := Dispatch(left - 1))
      case Wait => if ti.ncpus == 0 then w.(main := Return) else w
      case Return =>
        w.(results := w.results + [if ti.warps != 0 then 1 else 0], past := w.past + [w.cpus],
           cpus := seq(|w.cpus|, _ => Fresh()), main := SetFlags, phase := p + 1)
  }

  function CpuMove(w: World, cpu: nat, raw: u64, hostStable: bool): World {
    if cpu >= |w.cpus| || w.cpus[cpu].info >= |w.infos| then w
    else
      var x := w.cpus[cpu];
      var m := WorkerMove(cpu, w.loops, w.flags, x, Shared(w.lastValue, w.bypassed, w.infos[x.info]), raw, hostStable);
      w.(lastValue := m.sh.lastValue, bypassed := m.sh.bypassed,
         infos := w.infos[x.info := m.sh.ti], cpus := w.cpus[cpu := m.w])
  }

  datatype Action = ByMain | ByCpu(cpu: nat, raw: u64, hostStable: bool)

  function Step(w: World, a: Action): World {
    match a
    case ByMain => MainMove(w)
    case ByCpu(cpu, raw, hostStable) => CpuMove(w, cpu, raw, hostStable)
  }

  function Run(w: World, acts: seq<Action>): World {
    if acts == [] then w else Step(Run(w, acts[..|acts| - 1]), acts[|acts| - 1])
  }

  /** The state a schedule `acts` leads to. */
  function Execution(setup: Setup, acts: seq<Action>): World {
    Run(Initial(setup), acts)
  }
}
