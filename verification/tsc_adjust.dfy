/** The time-stamp counter and IA32_TSC_ADJUST ('Time-Stamp Counter Adjustment' in volume 3B of the
    Intel SDM): a write to either register moves the other by the same amount, modulo 2^64. */
module TscAdjust {
  import opened Words

  /** `ticks` counts, without wrap-around, the ticks since some origin. */
  datatype Registers = Registers(tsc: u64, adjust: u64, ticks: nat)

  datatype Event = Tick(n: nat) | WriteTsc(value: u64) | WriteAdjust(value: u64)

  function Apply(r: Registers, e: Event): Registers {
    match e
    case Tick(n) => Registers(Wrap64(r.tsc + n), r.adjust, r.ticks + n)
    case WriteTsc(v) => Registers(v, Wrap64(r.adjust + v - r.tsc), r.ticks)
    case WriteAdjust(v) => Registers(Wrap64(r.tsc + v - r.adjust), v, r.ticks)
  }

  function ApplyAll(r: Registers, events: seq<Event>): Registers
    decreases |events|
  {
    if events == [] then r else ApplyAll(Apply(r, events[0]), events[1..])
  }

  /** The conserved quantity. */
  function Origin(r: Registers): u64 { Wrap64(r.tsc - r.adjust - r.ticks) }

  lemma WrapOfWrap(x: int, y: int)
    ensures Wrap64(Wrap64(x) + y) == Wrap64(x + y) && Wrap64(y - Wrap64(x)) == Wrap64(y - x)
  {
    var q := x / TWO64;
    assert Wrap64(x) == x - q * TWO64;
    assert Wrap64((x + y) - q * TWO64) == Wrap64(x + y) by { ShiftByMultiple(x + y, -q); }
    assert Wrap64((y - x) + q * TWO64) == Wrap64(y - x) by { ShiftByMultiple(y - x, q); }
  }

  lemma {:induction false} ShiftByMultiple(x: int, q: int)
    ensures Wrap64(x + q * TWO64) == Wrap64(x)
    decreases if q < 0 then -q else q
  {
    if q > 0 {
      ShiftByMultiple(x, q - 1);
      assert (x + (q - 1) * TWO64 + TWO64) % TWO64 == (x + (q - 1) * TWO64) % TWO64;
    } else if q < 0 {
      ShiftByMultiple(x, q + 1);
      assert (x + q * TWO64 + TWO64) % TWO64 == (x + q * TWO64) % TWO64;
    }
  }

  lemma ApplyKeepsOrigin(r: Registers, e: Event)
    ensures Origin(Apply(r, e)) == Origin(r)
  {
    var tsc: int, adjust: int, ticks: int := r.tsc, r.adjust, r.ticks;
    match e
    case Tick(n) =>
      var rest: int := -adjust - ticks - n;
      WrapOfWrap(tsc + n, rest);
    case WriteTsc(v) =>
      WrapOfWrap(adjust + v - tsc, v - ticks);
    case WriteAdjust(v) =>
      var value: int := v;
      WrapOfWrap(tsc + v - adjust, -value - ticks);
  }

  /** Under any sequence of ticks and writes, TSC - TSC_ADJUST - ticks is constant modulo 2^64. */
  lemma {:induction false} TscIsConserved(r: Registers, events: seq<Event>)
    ensures Origin(ApplyAll(r, events)) == Origin(r)
    decreases |events|
  {
    if events != [] {
      ApplyKeepsOrigin(r, events[0]);
      TscIsConserved(Apply(r, events[0]), events[1..]);
    }
  }

  /** Between any two moments, the change of TSC is the elapsed ticks plus the change of TSC_ADJUST. */
  lemma ChangeOfTsc(r: Registers, events: seq<Event>)
    ensures var r' := ApplyAll(r, events);
            Wrap64(r'.tsc - r.tsc) == Wrap64((r'.ticks - r.ticks) + (r'.adjust - r.adjust))
  {
    TscIsConserved(r, events);
    var r' := ApplyAll(r, events);
    var x, y := r'.tsc - r'.adjust - r'.ticks, r.tsc - r.adjust - r.ticks;
    var k := r'.adjust + r'.ticks - r.tsc;
    WrapOfWrap(x, k);
    WrapOfWrap(y, k);
  }

  // ---------- The test ----------

  datatype Access = ReadTsc | ReadAdjust | WroteTsc(value: u64) | WroteAdjust(value: u64)

  /** `log` is history: the accesses made, and `times` the tick count at each. */
  class Tsc {
    var tsc: u64
    var adjust: u64
    ghost var ticks: nat
    ghost var log: seq<Access>
    ghost var times: seq<nat>

    ghost function Now(): Registers
      reads this
    {
      Registers(tsc, adjust, ticks)
    }

    /** Time passes. */
    method Elapse()
      modifies this`tsc, this`ticks
      ensures old(ticks) <= ticks && Now() == Apply(old(Now()), Tick(ticks - old(ticks)))
    {
      var n: nat :| true;
      tsc := Wrap64(tsc + n);
      ticks := ticks + n;
    }

    method Rdtsc() returns (t: u64)
      modifies this`log, this`times
      ensures t == tsc && log == old(log) + [ReadTsc] && times == old(times) + [ticks]
    {
      t := tsc;
      log, times := log + [ReadTsc], times + [ticks];
    }

    method RdAdjust() returns (v: u64)
      modifies this`log, this`times
      ensures v == adjust && log == old(log) + [ReadAdjust] && times == old(times) + [ticks]
    {
      v := adjust;
      log, times := log + [ReadAdjust], times + [ticks];
    }

    method WrTsc(v: u64)
      modifies this
      ensures Now() == Apply(old(Now()), WriteTsc(v))
      ensures log == old(log) + [WroteTsc(v)] && times == old(times) + [ticks]
    {
      adjust := Wrap64(adjust + v - tsc);
      tsc := v;
      log, times := log + [WroteTsc(v)], times + [ticks];
    }

    method WrAdjust(v: u64)
      modifies this
      ensures Now() == Apply(old(Now()), WriteAdjust(v))
      ensures log == old(log) + [WroteAdjust(v)] && times == old(times) + [ticks]
    {
      tsc := Wrap64(tsc + v - adjust);
      adjust := v;
      log, times := log + [WroteAdjust(v)], times + [ticks];
    }
  }

  /** The numbers the test prints. */
  datatype Report = Disabled | Report(initial: u64, readBack1: u64, jump: u64, readBack2: u64, estimate: u64, threshold: u64)

  const VALUE: u64 := 100_000_000_000

  /** The accesses of the three parts of the test. */
  function AdjustAccesses(): seq<Access> {
    [ReadAdjust, ReadTsc, WroteAdjust(VALUE), ReadTsc, ReadAdjust]
  }

  function ClearAccesses(): seq<Access> {
    [WroteAdjust(0), ReadAdjust]
  }

  function TscAccesses(): seq<Access> {
    [ReadTsc, WroteTsc(VALUE), ReadTsc, ReadAdjust]
  }

  /** `times` has been extended by these, which never decrease. */
  ghost predicate Extended(before: seq<nat>, after: seq<nat>, more: seq<nat>) {
    after == before + more && forall j, k :: 0 <= j <= k < |more| ==> more[j] <= more[k]
  }

  /** The first part of test_tsc_adjust: write TSC_ADJUST between two TSC reads and read it back. */
  method TestAdjustWrite(cpu: Tsc) returns (initial: u64, readBack: u64, jump: u64, ghost at: seq<nat>)
    modifies cpu
    ensures cpu.log == old(cpu.log) + AdjustAccesses() && Extended(old(cpu.times), cpu.times, at) && |at| == 5
    ensures old(cpu.ticks) <= at[0] && at[4] <= cpu.ticks
    ensures initial == old(cpu.adjust) && readBack == VALUE
    ensures jump == Wrap64(at[3] - at[1] + VALUE - initial)
  {
    hide Wrap64;
    cpu.Elapse();
    initial := cpu.RdAdjust();
    at := [cpu.ticks];
    var t3: u64 := VALUE;
    cpu.Elapse();
    var t1 := cpu.Rdtsc();
    ghost var start := cpu.Now();
    at := at + [cpu.ticks];
    cpu.Elapse();
    cpu.WrAdjust(t3);
    at := at + [cpu.ticks];
    cpu.Elapse();
    var t2 := cpu.Rdtsc();
    at := at + [cpu.ticks];
    AdjustJump(start, at[2] - at[1], t3, at[3] - at[2]);
    cpu.Elapse();
    var p := cpu.RdAdjust();
    at := at + [cpu.ticks];
    t3 := p;
    readBack, jump := t3, Wrap64(t2 as int - t1 as int);
  }

  /** The second part: clear TSC_ADJUST and read it back. */
  method TestAdjustClear(cpu: Tsc) returns (readBack: u64, ghost at: seq<nat>)
    modifies cpu
    ensures cpu.log == old(cpu.log) + ClearAccesses() && Extended(old(cpu.times), cpu.times, at) && |at| == 2
    ensures old(cpu.ticks) <= at[0] && at[1] <= cpu.ticks
    ensures readBack == 0 && cpu.adjust == 0
  {
    hide Wrap64;
    var t3: u64 := 0;
    cpu.Elapse();
    cpu.WrAdjust(t3);
    at := [cpu.ticks];
    cpu.Elapse();
    t3 := cpu.RdAdjust();
    at := at + [cpu.ticks];
    readBack := t3;
  }

  /** The third part: write the TSC between two TSC reads and estimate from TSC_ADJUST how long the
      write came after the first.  In general the estimate is short by what TSC_ADJUST held before. */
  method TestTscWrite(cpu: Tsc) returns (estimate: u64, threshold: u64, ghost at: seq<nat>)
    modifies cpu
    ensures cpu.log == old(cpu.log) + TscAccesses() && Extended(old(cpu.times), cpu.times, at) && |at| == 4
    ensures old(cpu.ticks) <= at[0] && at[3] <= cpu.ticks
    ensures estimate == Wrap64(at[1] - at[0] - old(cpu.adjust)) && threshold == Wrap64(2 * (at[2] - at[1]))
  {
    hide Wrap64;
    var t4: u64 := VALUE;
    cpu.Elapse();
    var t1 := cpu.Rdtsc();
    ghost var start := cpu.Now();
    at := [cpu.ticks];
    cpu.Elapse();
    cpu.WrTsc(t4);
    at := at + [cpu.ticks];
    cpu.Elapse();
    var t2 := cpu.Rdtsc();
    at := at + [cpu.ticks];
    cpu.Elapse();
    var t5 := cpu.RdAdjust();
    at := at + [cpu.ticks];
    EstimateIsElapsed(start, at[1] - at[0], t4);
    ThresholdIsElapsed(t4, at[2] - at[1]);
    estimate, threshold := Wrap64(t4 - t5 - t1), Wrap64(2 * Wrap64(t2 - t4));
  }

  /** test_tsc_adjust, with time passing before every access.  `at` lists the times of its eleven
      accesses: what it prints is the ticks between the TSC reads around the TSC_ADJUST write (plus that
      write's change), those between the later TSC read and the TSC write, and twice those between that
      write and the read after it. */
  method TestTscAdjust(cpu: Tsc, featurePresent: bool) returns (r: Report, ghost at: seq<nat>)
    modifies cpu
    ensures Extended(old(cpu.times), cpu.times, at) && |at| == (if featurePresent then 11 else 0)
    ensures cpu.log == old(cpu.log) + if featurePresent then AdjustAccesses() + ClearAccesses() + TscAccesses() else []
    ensures r.Report? <==> featurePresent
    ensures r.Report? ==>
              && r.initial == old(cpu.adjust) && r.readBack1 == VALUE && r.readBack2 == 0
              && r.jump == Wrap64(at[3] - at[1] + VALUE - r.initial)
              && r.estimate == Wrap64(at[8] - at[7])
              && r.threshold == Wrap64(2 * (at[9] - at[8]))
  {
    hide Wrap64;
    r, at := Disabled, [];
    if featurePresent {
      var initial, readBack1, jump, readBack2, estimate, threshold;
      ghost var later, last;
      initial, readBack1, jump, at := TestAdjustWrite(cpu);
      readBack2, later := TestAdjustClear(cpu);
      estimate, threshold, last := TestTscWrite(cpu);
      at := at + later + last;
      r := Report(initial, readBack1, jump, readBack2, estimate, threshold);
    }
  }

  /** t2 - t1 around a write of TSC_ADJUST. */
  lemma AdjustJump(start: Registers, d1: nat, v: u64, d2: nat)
    ensures var r := Apply(Apply(Apply(start, Tick(d1)), WriteAdjust(v)), Tick(d2));
            Wrap64(r.tsc - start.tsc) == Wrap64(d1 + d2 + v - start.adjust)
  {
    var events := [Tick(d1), WriteAdjust(v), Tick(d2)];
    assert events[1..] == [WriteAdjust(v), Tick(d2)] && events[1..][1..] == [Tick(d2)] && events[1..][1..][1..] == [];
    var r1 := Apply(start, Tick(d1));
    var r2 := Apply(r1, WriteAdjust(v));
    assert ApplyAll(start, events) == ApplyAll(r1, events[1..]) == ApplyAll(r2, [Tick(d2)]) == ApplyAll(Apply(r2, Tick(d2)), []);
    ChangeOfTsc(start, events);
  }

  /** t4 - t5 - t1: the estimate recovers the ticks between the TSC read and the TSC write, less what
      TSC_ADJUST held before. */
  lemma EstimateIsElapsed(start: Registers, d: nat, v: u64)
    ensures var r := Apply(Apply(start, Tick(d)), WriteTsc(v));
            Wrap64(v - r.adjust - start.tsc) == Wrap64(d - start.adjust)
  {
    var r1 := Apply(start, Tick(d));
    var tsc: int, adjust: int := start.tsc, start.adjust;
    WrapOfWrap(adjust + v - r1.tsc, v - tsc);
    WrapOfWrap(tsc + d, -adjust - tsc);
  }

  lemma ThresholdIsElapsed(v: u64, d: nat)
    ensures Wrap64(2 * Wrap64(Wrap64(v + d) - v)) == Wrap64(2 * d)
  {
    var value: int := v;
    WrapOfWrap(value + d, -value);
    ShiftByMultiple(2 * d, -2 * (d / TWO64));
    assert 2 * Wrap64(d) == 2 * d + (-2 * (d / TWO64)) * TWO64;
  }
}
