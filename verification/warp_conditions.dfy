/** What else keeps the test free of warps when readings skip the filter: a clock that never steps back,
    or too few samples to compare.  Nothing else does. */
module WarpConditions {
  import opened Words
  import opened ClocksourceCall
  import opened WarpTest
  import opened WarpInvariants
  import opened WarpTheorems
  import opened WarpWitnesses

  // ---------- A steady clock ----------

  predicate StartsReading(w: Worker) {
    Reading(w.pc) && w.call.Begin?
  }

  predicate TakesReading(w: World, a: Action) {
    a.ByCpu? && a.cpu < |w.cpus| && StartsReading(w.cpus[a.cpu])
  }

  /** The clock as the run has seen it: what earlier readings left in `last_value`, and then every raw
      reading of every CPU in the order they were taken. */
  ghost function Clock(setup: Setup, acts: seq<Action>): (c: seq<u64>)
    ensures c != []
  {
    if acts == [] then [setup.lastValue]
    else
      var before, a := acts[..|acts| - 1], acts[|acts| - 1];
      Clock(setup, before) + if TakesReading(Execution(setup, before), a) then [a.raw] else []
  }

  ghost predicate Steady(clock: seq<u64>) {
    forall j, k :: 0 <= j <= k < |clock| ==> clock[j] <= clock[k]
  }

  /** What one CPU knows of `last`, no value being above the clock's latest. */
  ghost predicate SteadyOk(w: Worker, last: u64, latest: u64) {
    && (w.call.Load? || w.call.Swap? ==> w.call.ret <= latest && (w.pc.Read1? ==> last <= w.call.ret))
    && (w.call.Done? ==> w.call.value <= latest)
    && w.t1 <= latest && w.t2 <= latest
    && (w.pc.LoadLast? ==> last <= w.t1)
    && (w.pc.Read2? || w.pc.StoreLast? || w.pc.Unlock1? ==> w.t0 <= w.t1)
    && (forall k :: 0 <= k < |w.samples| ==> w.samples[k].t0 <= w.samples[k].t1 <= latest)
  }

  ghost predicate SteadyInv(w: World, latest: u64) {
    && w.lastValue <= latest
    && (w.phase < |w.infos| ==>
          w.infos[w.phase].last <= latest
          && forall o :: 0 <= o < |w.cpus| ==> SteadyOk(w.cpus[o], w.infos[w.phase].last, latest))
    && (forall q, o, k :: 0 <= q < |w.past| && 0 <= o < |w.past[q]| && 0 <= k < |w.past[q][o].samples| ==>
          w.past[q][o].samples[k].t0 <= w.past[q][o].samples[k].t1 <= latest)
  }

  /** The clock's latest after a step of `w` that may take reading `raw`. */
  function Later(w: Worker, raw: u64, latest: u64): u64 {
    if StartsReading(w) then raw else latest
  }

  lemma ReadIsSteady(w: Worker, sh: Shared, flags: Flags, raw: u64, hs: bool, latest: u64)
    requires CallOk(w.call) && !w.call.Done? && SteadyOk(w, sh.ti.last, latest) && Reading(w.pc)
    requires sh.ti.last <= latest && sh.lastValue <= latest && (w.call.Begin? ==> latest <= raw)
    ensures var m, now := ReadMove(w, sh, flags, raw, hs), Later(w, raw, latest);
            && SteadyOk(m.w, sh.ti.last, now) && m.w == w.(call := m.w.call, calls := m.w.calls) && m.sh.ti == sh.ti && m.sh.lastValue <= now
            && (m.w.call.Done? && w.pc.Read1? ==> sh.ti.last <= m.w.call.value)
  {
    if !w.call.Begin? {
      AccessFacts(w.call, sh.lastValue);
    }
  }

  lemma MoveIsSteady(id: nat, loops: nat, flags: Flags, w: Worker, sh: Shared, raw: u64, hs: bool, latest: u64)
    requires CallOk(w.call) && (Reading(w.pc) ==> !w.call.Done?) && SteadyOk(w, sh.ti.last, latest)
    requires sh.ti.last <= latest && sh.lastValue <= latest && (StartsReading(w) ==> latest <= raw)
    ensures var m, now := WorkerMove(id, loops, flags, w, sh, raw, hs), Later(w, raw, latest);
            SteadyOk(m.w, m.sh.ti.last, now) && m.sh.ti.last <= now && m.sh.lastValue <= now
  {
    if InSample(w.pc) {
      SampleIsSteady(id, flags, w, sh, raw, hs, latest);
    } else if w.pc.PlainRead? {
      ReadIsSteady(w, sh, flags, raw, hs, latest);
      PlainMove(id, loops, flags, w, sh, raw, hs);
      hide WorkerMove, ReadMove;
    } else {
      QuietMove(id, loops, flags, w, sh, raw, hs);
      hide WorkerMove;
    }
  }

  /** Outside the first critical section a CPU that does not read the clock changes nothing of interest. */
  lemma QuietMove(id: nat, loops: nat, flags: Flags, w: Worker, sh: Shared, raw: u64, hs: bool)
    requires !InSample(w.pc) && !w.pc.PlainRead?
    ensures var m := WorkerMove(id, loops, flags, w, sh, raw, hs);
            && m.sh.lastValue == sh.lastValue && m.sh.ti.last == sh.ti.last
            && m.w.t1 == w.t1 && m.w.t0 == w.t0 && m.w.t2 == w.t2 && m.w.samples == w.samples
            && (m.w.call == w.call || m.w.call.Begin?) && (InSample(m.w.pc) ==> m.w.pc.Lock1?)
  {
  }

  lemma PlainMove(id: nat, loops: nat, flags: Flags, w: Worker, sh: Shared, raw: u64, hs: bool)
    requires w.pc.PlainRead?
    ensures var m, r := WorkerMove(id, loops, flags, w, sh, raw, hs), ReadMove(w, sh, flags, raw, hs);
            m.sh == r.sh && m.w == r.w.(pc := m.w.pc, i := m.w.i) && !InSample(m.w.pc)
  {
  }

  lemma SampleIsSteady(id: nat, flags: Flags, w: Worker, sh: Shared, raw: u64, hs: bool, latest: u64)
    requires InSample(w.pc) && CallOk(w.call) && (Reading(w.pc) ==> !w.call.Done?) && SteadyOk(w, sh.ti.last, latest)
    requires sh.ti.last <= latest && sh.lastValue <= latest && (StartsReading(w) ==> latest <= raw)
    ensures var m, now := SampleMove(id, flags, w, sh, raw, hs), Later(w, raw, latest);
            SteadyOk(m.w, m.sh.ti.last, now) && m.sh.ti.last <= now && m.sh.lastValue <= now
  {
    if Reading(w.pc) {
      ReadIsSteady(w, sh, flags, raw, hs, latest);
      hide ReadMove;
    } else if w.pc.Unlock1? {
      assert forall k {:trigger w.samples[k]} :: 0 <= k < |w.samples| ==> (w.samples + [Sample(w.t1, w.t0)])[k] == w.samples[k];
    }
  }

  /** The other CPUs' knowledge survives: `last` changes under the lock only. */
  lemma SteadyKept(cpus: seq<Worker>, c: nat, sh: Shared, m: Moved, latest: u64, now: u64)
    requires c < |cpus| && LockOk(cpus, sh.ti.lock) && LockEffect(c, cpus[c], sh, m) && latest <= now
    requires forall o :: 0 <= o < |cpus| ==> SteadyOk(cpus[o], sh.ti.last, latest)
    requires SteadyOk(m.w, m.sh.ti.last, now)
    ensures var cpus' := cpus[c := m.w]; forall o :: 0 <= o < |cpus'| ==> SteadyOk(cpus'[o], m.sh.ti.last, now)
  {
    forall o | 0 <= o < |cpus| && o != c ensures SteadyOk(cpus[o], m.sh.ti.last, now) {
      assert SteadyOk(cpus[o], sh.ti.last, latest);
    }
  }

  lemma CpuStepIsSteady(w: World, a: Action, latest: u64)
    requires Inv(w) && SteadyInv(w, latest) && a.ByCpu? && (TakesReading(w, a) ==> latest <= a.raw)
    ensures SteadyInv(Step(w, a), if TakesReading(w, a) then a.raw else latest)
  {
    hide WorkerMove, WarpsOk, WorstOk, StallsOk, PhaseDone, Total, Barrier;
    if a.cpu < |w.cpus| {
      if w.cpus[a.cpu].pc.Idle? {
        IdleCpuStutters(w, a);
      } else {
        CpuStepShape(w, a);
        var sh, m, x := Shared(w.lastValue, w.bypassed, w.infos[w.phase]), MoveOf(w, a), w.cpus[a.cpu];
        assert Shape(x, w.loops, w.phase, sh.ti.check) && SteadyOk(x, sh.ti.last, latest);
        hide Step;
        MoveIsSteady(a.cpu, w.loops, w.flags, x, sh, a.raw, a.hostStable, latest);
        SteadyKept(w.cpus, a.cpu, sh, m, latest, Later(x, a.raw, latest));
      }
    }
  }

  lemma MainStepIsSteady(w: World, latest: u64)
    requires Inv(w) && SteadyInv(w, latest)
    ensures SteadyInv(MainMove(w), latest)
  {
    hide WarpsOk, WorstOk, StallsOk, PhaseDone, Total, LockOk;
    if w.phase < |w.phases| {
      assert forall o :: 0 <= o < |w.cpus| ==> SteadyOk(w.cpus[o], w.infos[w.phase].last, latest);
    }
  }

  lemma StepIsSteady(w: World, a: Action, latest: u64)
    requires Inv(w) && SteadyInv(w, latest) && (TakesReading(w, a) ==> latest <= a.raw)
    ensures SteadyInv(Step(w, a), if TakesReading(w, a) then a.raw else latest)
  {
    hide Inv, SteadyInv, MainMove, CpuMove;
    match a
    case ByMain => MainStepIsSteady(w, latest);
    case ByCpu(_, _, _) => CpuStepIsSteady(w, a, latest);
  }

  lemma {:induction false} RunIsSteady(setup: Setup, acts: seq<Action>)
    requires Steady(Clock(setup, acts))
    ensures var c := Clock(setup, acts); SteadyInv(Execution(setup, acts), c[|c| - 1])
  {
    if acts != [] {
      var before, a := acts[..|acts| - 1], acts[|acts| - 1];
      var c, c' := Clock(setup, before), Clock(setup, acts);
      assert Steady(c) by {
        assert forall k :: 0 <= k < |c| ==> c[k] == c'[k];
      }
      RunIsSteady(setup, before);
      RunKeepsInv(setup, before);
      assert TakesReading(Execution(setup, before), a) ==> c'[|c| - 1] <= c'[|c|];
      StepIsSteady(Execution(setup, before), a, c[|c| - 1]);
    }
  }

  /** If the readings taken along a schedule never decrease and stay below 2^63, no warp is ever counted,
      whatever the phases, the flags and the host's bit: with such a clock the filter is not needed. */
  lemma NoWarpsOnASteadyClock(setup: Setup, acts: seq<Action>)
    requires var c := Clock(setup, acts); Steady(c) && c[|c| - 1] < TWO63
    ensures NoWarps(Execution(setup, acts))
  {
    RunKeepsInv(setup, acts);
    RunIsSteady(setup, acts);
    var w, c := Execution(setup, acts), Clock(setup, acts);
    var latest := c[|c| - 1];
    assert NoneNegative(w) by {
      hide Execution;
      forall o, k | 0 <= o < |w.cpus| && 0 <= k < |w.cpus[o].samples| ensures Delta(w.cpus[o].samples[k]) >= 0 {
        assert w.phase < |w.phases| ==> SteadyOk(w.cpus[o], w.infos[w.phase].last, latest);
      }
    }
    NoWarpsIfNoneNegative(setup, acts);
  }

  // ---------- Too few samples ----------

  lemma NoSamples(setup: Setup, acts: seq<Action>)
    requires setup.cpus == 0 || setup.loops == 0 || forall p :: 0 <= p < |setup.phases| ==> setup.phases[p].check == 0
    ensures NoneNegative(Execution(setup, acts))
  {
    RunKeepsInv(setup, acts);
    RunKeepsSetup(setup, acts);
    var w := Execution(setup, acts);
    hide Execution;
    forall o | 0 <= o < |w.cpus| ensures w.cpus[o].samples == [] {
      if w.phase < |w.phases| {
        SamplesWithin(w.cpus[o], w.loops, w.phase, w.infos[w.phase].check);
      }
    }
    forall q, o | 0 <= q < |w.past| && 0 <= o < |w.past[q]| ensures w.past[q][o].samples == [] {
      assert PhaseDone(w.infos[q], w.past[q], w.results[q], w.loops, w.phases[q].check);
    }
  }

  /** A CPU whose first iteration is the only one of its phase compares with the initial `last`. */
  ghost predicate FirstOk(w: Worker, last: u64) {
    && (w.samples == [] && !w.pc.Unlock1? ==> last == 0)
    && ((w.pc.Read2? || w.pc.StoreLast? || w.pc.Unlock1?) && w.samples == [] ==> w.t0 == 0)
    && forall k :: 0 <= k < |w.samples| ==> w.samples[k].t0 == 0
  }

  ghost predicate FirstInv(w: World) {
    && |w.cpus| <= 1 && w.loops <= 1
    && (w.phase < |w.infos| && |w.cpus| == 1 ==> FirstOk(w.cpus[0], w.infos[w.phase].last))
    && (forall q, o, k :: 0 <= q < |w.past| && 0 <= o < |w.past[q]| && 0 <= k < |w.past[q][o].samples| ==>
          w.past[q][o].samples[k].t0 == 0)
  }

  lemma MoveKeepsFirst(id: nat, flags: Flags, loops: nat, w: Worker, sh: Shared, raw: u64, hs: bool, phase: nat)
    requires loops <= 1 && Shape(w, loops, phase, sh.ti.check) && FirstOk(w, sh.ti.last)
    ensures var m := WorkerMove(id, loops, flags, w, sh, raw, hs); FirstOk(m.w, m.sh.ti.last)
  {
    if InSample(w.pc) {
      assert w.samples == [];
      hide ReadClock;
    } else if !w.pc.PlainRead? {
      QuietMove(id, loops, flags, w, sh, raw, hs);
      hide WorkerMove;
    } else {
      PlainMove(id, loops, flags, w, sh, raw, hs);
      hide WorkerMove;
    }
  }

  lemma StepKeepsFirst(w: World, a: Action)
    requires Inv(w) && FirstInv(w)
    ensures FirstInv(Step(w, a))
  {
    hide WorkerMove, WarpsOk, WorstOk, StallsOk, PhaseDone, Total, LockOk;
    if a.ByCpu? && a.cpu < |w.cpus| {
      if w.cpus[a.cpu].pc.Idle? {
        IdleCpuStutters(w, a);
      } else {
        CpuStepShape(w, a);
        assert Shape(w.cpus[0], w.loops, w.phase, w.infos[w.phase].check);
        MoveKeepsFirst(a.cpu, w.flags, w.loops, w.cpus[a.cpu], Shared(w.lastValue, w.bypassed, w.infos[w.phase]), a.raw,
                       a.hostStable, w.phase);
      }
    }
  }

  lemma {:induction false} RunKeepsFirst(setup: Setup, acts: seq<Action>)
    requires setup.cpus <= 1 && setup.loops <= 1
    ensures FirstInv(Execution(setup, acts))
  {
    if acts != [] {
      var before := acts[..|acts| - 1];
      RunKeepsFirst(setup, before);
      RunKeepsInv(setup, before);
      StepKeepsFirst(Execution(setup, before), acts[|acts| - 1]);
    }
  }

  /** Every sample of the running phase and of the finished ones starts from 0. */
  ghost predicate FromZero(w: World) {
    && (forall o, k :: 0 <= o < |w.cpus| && 0 <= k < |w.cpus[o].samples| ==> w.cpus[o].samples[k].t0 == 0)
    && (forall q, o, k :: 0 <= q < |w.past| && 0 <= o < |w.past[q]| && 0 <= k < |w.past[q][o].samples| ==>
          w.past[q][o].samples[k].t0 == 0)
  }

  lemma FirstIsFromZero(w: World)
    requires Inv(w) && FirstInv(w)
    ensures FromZero(w)
  {
    hide Accounts, Barrier, PhaseDone;
    forall o | 0 <= o < |w.cpus| ensures FirstOk(w.cpus[o], 0) || (w.phase < |w.infos| && FirstOk(w.cpus[o], w.infos[w.phase].last)) {
      assert o == 0;
      assert w.phase == |w.phases| ==> w.cpus[o] == Fresh();
    }
  }

  lemma NoneNegativeFromZero(w: World)
    requires FromZero(w) && RangeInv(w, TWO63)
    ensures NoneNegative(w)
  {
    forall o, k | 0 <= o < |w.cpus| && 0 <= k < |w.cpus[o].samples| ensures Delta(w.cpus[o].samples[k]) >= 0 {
      assert Below(w.cpus[o], TWO63);
    }
  }

  /** One CPU with one iteration compares its only t1 with 0. */
  lemma OneSample(setup: Setup, acts: seq<Action>)
    requires setup.cpus <= 1 && setup.loops <= 1 && setup.lastValue < TWO63 && RawsBelow(acts, TWO63)
    ensures NoneNegative(Execution(setup, acts))
  {
    RunKeepsInv(setup, acts);
    RunKeepsFirst(setup, acts);
    RunKeepsRange(setup, acts, TWO63);
    hide Inv, FirstInv, RangeInv, FromZero, NoneNegative;
    FirstIsFromZero(Execution(setup, acts));
    NoneNegativeFromZero(Execution(setup, acts));
  }

  // ---------- Exactly when the filter is needed ----------

  /** The host publishes the stable bit only if `hostStable`. */
  ghost predicate StableOnlyIf(acts: seq<Action>, hostStable: bool) {
    forall a :: a in acts && a.ByCpu? && a.hostStable ==> hostStable
  }

  /** On such a host, no schedule of clock values below 2^63 counts a warp. */
  ghost predicate AlwaysPasses(cpus: nat, loops: nat, phase: Phase, hostStable: bool) {
    forall acts: seq<Action> {:trigger Execution(OnePhase(cpus, loops, phase), acts)} ::
      RawsBelow(acts, TWO63) && StableOnlyIf(acts, hostStable) ==> NoWarps(Execution(OnePhase(cpus, loops, phase), acts))
  }

  lemma Passes(cpus: nat, loops: nat, phase: Phase, hostStable: bool, acts: seq<Action>)
    requires !Bypasses(phase.flags, hostStable) || phase.check == 0 || cpus * loops < 2
    requires RawsBelow(acts, TWO63) && StableOnlyIf(acts, hostStable)
    ensures NoWarps(Execution(OnePhase(cpus, loops, phase), acts))
  {
    var setup := OnePhase(cpus, loops, phase);
    if !Bypasses(phase.flags, hostStable) {
      FilteredUnlessBothBits(setup, acts);
      NoWarpsThroughTheFilter(setup, acts);
    } else {
      if phase.check == 0 || cpus == 0 || loops == 0 {
        NoSamples(setup, acts);
      } else {
        assert cpus == 1 && loops == 1;
        OneSample(setup, acts);
      }
      NoWarpsIfNoneNegative(setup, acts);
    }
  }

  /** For any number of CPUs and iterations, any guest flags and any host: `cycle_test` passes on every
      clock below 2^63 if and only if the two stable bits do not let a reading skip the filter, or
      nothing is checked, or there is at most one sample. */
  lemma FilterNeededIff(cpus: nat, loops: nat, phase: Phase, hostStable: bool)
    ensures AlwaysPasses(cpus, loops, phase, hostStable)
            <==> !Bypasses(phase.flags, hostStable) || phase.check == 0 || cpus * loops < 2
  {
    if !Bypasses(phase.flags, hostStable) || phase.check == 0 || cpus * loops < 2 {
      forall acts: seq<Action> | RawsBelow(acts, TWO63) && StableOnlyIf(acts, hostStable)
        ensures NoWarps(Execution(OnePhase(cpus, loops, phase), acts))
      {
        Passes(cpus, loops, phase, hostStable, acts);
      }
    } else {
      WarpWithoutTheFilter(cpus, loops, phase);
      var acts := BackwardActs(cpus, loops);
      assert RawsBelow(acts, TWO63) && StableOnlyIf(acts, hostStable);
    }
  }
}
