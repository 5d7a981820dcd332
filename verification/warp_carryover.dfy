/** `last_value` over the whole of `test_kvm_clock`: it is never reset and never falls, every value in
    play is one the host gave, and what a phase has seen binds the phases after it. */
module WarpCarryover {
  import opened Words
  import opened ClocksourceCall
  import opened WarpTest
  import opened WarpInvariants
  import opened WarpTheorems
  import opened WarpConditions

  // ---------- last_value never falls ----------

  lemma MoveRaises(id: nat, loops: nat, flags: Flags, w: Worker, sh: Shared, raw: u64, hs: bool)
    requires CallOk(w.call) && (Reading(w.pc) ==> !w.call.Done?)
    ensures sh.lastValue <= WorkerMove(id, loops, flags, w, sh, raw, hs).sh.lastValue
  {
    if Reading(w.pc) {
      ReadFacts(w, sh, flags, raw, hs);
    }
  }

  lemma StepRaises(w: World, a: Action)
    requires Inv(w)
    ensures w.lastValue <= Step(w, a).lastValue
    ensures a.ByMain? ==> Step(w, a).lastValue == w.lastValue
  {
    hide WorkerMove, Effects;
    if a.ByCpu? && a.cpu < |w.cpus| {
      if w.cpus[a.cpu].pc.Idle? {
        IdleCpuStutters(w, a);
      } else {
        CpuStepShape(w, a);
        assert Shape(w.cpus[a.cpu], w.loops, w.phase, w.infos[w.phase].check);
        MoveRaises(a.cpu, w.loops, w.flags, w.cpus[a.cpu], Shared(w.lastValue, w.bypassed, w.infos[w.phase]), a.raw, a.hostStable);
      }
    }
  }

  /** No step of the whole test lowers `last_value`: neither a CPU's, nor the main thread's as it goes
      from phase to phase. */
  lemma {:induction false} LastValueNeverFalls(setup: Setup, acts: seq<Action>, k: nat)
    requires k <= |acts|
    ensures Execution(setup, acts[..k]).lastValue <= Execution(setup, acts).lastValue
    decreases |acts|
  {
    if k == |acts| {
      assert acts[..k] == acts;
    } else {
      var before := acts[..|acts| - 1];
      assert before[..k] == acts[..k];
      LastValueNeverFalls(setup, before, k);
      RunKeepsInv(setup, before);
      StepRaises(Execution(setup, before), acts[|acts| - 1]);
    }
  }

  // ---------- No value is invented ----------

  /** Every clock value a CPU holds is 0 or in `given`, and those it compares as t1 are in `given`. */
  ghost predicate Given(w: Worker, given: set<u64>) {
    && (w.call.Load? || w.call.Swap? ==> w.call.ret in given)
    && (w.call.Done? ==> w.call.value in given)
    && (w.pc.LoadLast? || w.pc.Read2? || w.pc.StoreLast? || w.pc.Unlock1? ==> w.t1 in given)
    && (w.pc.StoreLast? ==> w.t2 in given)
    && w.t0 in given + {0}
    && forall k :: 0 <= k < |w.samples| ==> w.samples[k].t1 in given && w.samples[k].t0 in given + {0}
  }

  ghost predicate GivenInv(w: World, given: set<u64>) {
    && w.lastValue in given
    && (forall q :: 0 <= q < |w.infos| ==> w.infos[q].last in given + {0})
    && (forall o :: 0 <= o < |w.cpus| ==> Given(w.cpus[o], given))
    && (forall q, o, k :: 0 <= q < |w.past| && 0 <= o < |w.past[q]| && 0 <= k < |w.past[q][o].samples| ==>
          w.past[q][o].samples[k].t1 in given && w.past[q][o].samples[k].t0 in given + {0})
  }

  /** What the host and the readings before the test supply to a run. */
  ghost function Supplied(setup: Setup, acts: seq<Action>): set<u64> {
    if acts == [] then {setup.lastValue}
    else
      var before, a := acts[..|acts| - 1], acts[|acts| - 1];
      if TakesReading(Execution(setup, before), a) then Supplied(setup, before) + {a.raw} else Supplied(setup, before)
  }

  lemma ReadIsGiven(w: Worker, sh: Shared, flags: Flags, raw: u64, hs: bool, given: set<u64>)
    requires Reading(w.pc) && Given(w, given) && sh.lastValue in given && (w.call.Begin? ==> raw in given)
    ensures var m := ReadMove(w, sh, flags, raw, hs);
            && m.w == w.(call := m.w.call, calls := m.w.calls) && m.sh.ti == sh.ti && m.sh.lastValue in given
            && (m.w.call.Load? || m.w.call.Swap? ==> m.w.call.ret in given) && (m.w.call.Done? ==> m.w.call.value in given)
  {
  }

  lemma MoveIsGiven(id: nat, loops: nat, flags: Flags, w: Worker, sh: Shared, raw: u64, hs: bool, given: set<u64>)
    requires Given(w, given) && sh.lastValue in given && sh.ti.last in given + {0} && (StartsReading(w) ==> raw in given)
    ensures var m := WorkerMove(id, loops, flags, w, sh, raw, hs);
            Given(m.w, given) && m.sh.lastValue in given && m.sh.ti.last in given + {0}
  {
    if InSample(w.pc) {
      SampleIsGiven(id, flags, w, sh, raw, hs, given);
    } else if w.pc.PlainRead? {
      ReadIsGiven(w, sh, flags, raw, hs, given);
      PlainMove(id, loops, flags, w, sh, raw, hs);
      hide WorkerMove, ReadMove;
    } else {
      QuietMove(id, loops, flags, w, sh, raw, hs);
      hide WorkerMove;
    }
  }

  lemma SampleIsGiven(id: nat, flags: Flags, w: Worker, sh: Shared, raw: u64, hs: bool, given: set<u64>)
    requires InSample(w.pc) && Given(w, given) && sh.lastValue in given && sh.ti.last in given + {0}
    requires StartsReading(w) ==> raw in given
    ensures var m := SampleMove(id, flags, w, sh, raw, hs);
            Given(m.w, given) && m.sh.lastValue in given && m.sh.ti.last in given + {0}
  {
    if Reading(w.pc) {
      ReadIsGiven(w, sh, flags, raw, hs, given);
      hide ReadMove;
    }
  }

  lemma StepIsGiven(w: World, a: Action, given: set<u64>)
    requires Inv(w) && GivenInv(w, given) && (TakesReading(w, a) ==> a.raw in given)
    ensures GivenInv(Step(w, a), given)
  {
    hide WorkerMove, Accounts, Barrier, PhaseDone, Effects;
    if a.ByCpu? && a.cpu < |w.cpus| {
      if w.cpus[a.cpu].pc.Idle? {
        IdleCpuStutters(w, a);
      } else {
        CpuStepShape(w, a);
        hide Step;
        MoveIsGiven(a.cpu, w.loops, w.flags, w.cpus[a.cpu], Shared(w.lastValue, w.bypassed, w.infos[w.phase]), a.raw,
                    a.hostStable, given);
      }
    } else if a.ByMain? {
      assert forall o :: 0 <= o < |w.cpus| ==> Given(w.cpus[o], given);
    }
  }

  lemma GivenWidens(w: World, given: set<u64>, more: set<u64>)
    requires GivenInv(w, given) && given <= more
    ensures GivenInv(w, more)
  {
    forall o | 0 <= o < |w.cpus| ensures Given(w.cpus[o], more) {
      assert Given(w.cpus[o], given);
    }
  }

  lemma {:induction false} RunIsGiven(setup: Setup, acts: seq<Action>)
    ensures GivenInv(Execution(setup, acts), Supplied(setup, acts))
  {
    if acts != [] {
      var before, a := acts[..|acts| - 1], acts[|acts| - 1];
      RunIsGiven(setup, before);
      RunKeepsInv(setup, before);
      hide GivenInv;
      GivenWidens(Execution(setup, before), Supplied(setup, before), Supplied(setup, acts));
      StepIsGiven(Execution(setup, before), a, Supplied(setup, acts));
    }
  }

  /** In every interleaving, filtered or not, `last_value` and every t1 ever compared are raw readings
      taken earlier in the run, or the value `last_value` had before it; every t0 is one of these or the
      initial 0. */
  lemma NoValueInvented(setup: Setup, acts: seq<Action>)
    ensures var w, given := Execution(setup, acts), Supplied(setup, acts);
            && w.lastValue in given
            && (forall o, k :: 0 <= o < |w.cpus| && 0 <= k < |w.cpus[o].samples| ==>
                  w.cpus[o].samples[k].t1 in given && w.cpus[o].samples[k].t0 in given + {0})
            && (forall q, o, k :: 0 <= q < |w.past| && 0 <= o < |w.past[q]| && 0 <= k < |w.past[q][o].samples| ==>
                  w.past[q][o].samples[k].t1 in given && w.past[q][o].samples[k].t0 in given + {0})
  {
    RunIsGiven(setup, acts);
    var w, given := Execution(setup, acts), Supplied(setup, acts);
    hide Execution, Supplied;
    forall o, k | 0 <= o < |w.cpus| && 0 <= k < |w.cpus[o].samples|
      ensures w.cpus[o].samples[k].t1 in given && w.cpus[o].samples[k].t0 in given + {0}
    {
      assert Given(w.cpus[o], given);
    }
  }

  // ---------- What a phase has seen binds the later ones ----------

  /** The first reading of the iteration has been taken and its sample not yet recorded. */
  predicate Holding(pc: Pc) {
    pc.LoadLast? || pc.Read2? || pc.StoreLast? || pc.Unlock1?
  }

  ghost predicate AtLeast(w: Worker, v: u64) {
    (Holding(w.pc) ==> v <= w.t1) && forall k :: 0 <= k < |w.samples| ==> v <= w.samples[k].t1
  }

  ghost predicate AtMost(w: Worker, v: u64) {
    (Holding(w.pc) ==> w.t1 <= v) && forall k :: 0 <= k < |w.samples| ==> w.samples[k].t1 <= v
  }

  /** A CPU reads through the filter no less than `last_value` held when it began, and that becomes the
      least `last_value` can be. */
  lemma MoveCarries(id: nat, loops: nat, flags: Flags, w: Worker, sh: Shared, raw: u64, hs: bool, v: u64)
    requires CallOk(w.call) && (Reading(w.pc) ==> !w.call.Done?) && v <= sh.lastValue
    ensures var m := WorkerMove(id, loops, flags, w, sh, raw, hs);
            !m.sh.bypassed ==>
              && (AtLeast(w, v) ==> AtLeast(m.w, v))
              && (AtMost(w, sh.lastValue) ==> AtMost(m.w, m.sh.lastValue))
  {
    if InSample(w.pc) {
      SampleCarries(id, flags, w, sh, raw, hs, v);
    } else if w.pc.PlainRead? {
      ReadFacts(w, sh, flags, raw, hs);
      PlainMove(id, loops, flags, w, sh, raw, hs);
      hide WorkerMove, ReadMove;
    } else {
      QuietMove(id, loops, flags, w, sh, raw, hs);
      hide WorkerMove;
    }
  }

  lemma SampleCarries(id: nat, flags: Flags, w: Worker, sh: Shared, raw: u64, hs: bool, v: u64)
    requires InSample(w.pc) && CallOk(w.call) && (Reading(w.pc) ==> !w.call.Done?) && v <= sh.lastValue
    ensures var m := SampleMove(id, flags, w, sh, raw, hs);
            !m.sh.bypassed ==>
              && (AtLeast(w, v) ==> AtLeast(m.w, v))
              && (AtMost(w, sh.lastValue) ==> AtMost(m.w, m.sh.lastValue))
  {
    if Reading(w.pc) {
      ReadFacts(w, sh, flags, raw, hs);
      hide ReadMove;
    }
  }

  lemma StepKeepsBypassed(w: World, a: Action)
    requires w.bypassed
    ensures Step(w, a).bypassed
  {
    hide WorkerMove;
    if a.ByCpu? && a.cpu < |w.cpus| && w.cpus[a.cpu].info < |w.infos| {
      BypassRemembered(a.cpu, w.loops, w.flags, w.cpus[a.cpu], Shared(w.lastValue, w.bypassed, w.infos[w.cpus[a.cpu].info]), a.raw,
                       a.hostStable);
    }
  }

  lemma ShapeOf(w: World, c: nat)
    requires Inv(w) && c < |w.cpus| && w.phase < |w.phases|
    ensures Shape(w.cpus[c], w.loops, w.phase, w.infos[w.phase].check)
  {
  }

  /** Phases from number p on have compared no t1 below v. */
  ghost predicate Floor(w: World, p: nat, v: u64) {
    && p <= w.phase && v <= w.lastValue
    && (forall q, o :: p <= q < |w.past| && 0 <= o < |w.past[q]| ==> AtLeast(w.past[q][o], v))
    && (w.phase < |w.phases| ==> forall o :: 0 <= o < |w.cpus| ==> AtLeast(w.cpus[o], v))
  }

  lemma StepKeepsFloor(w: World, a: Action, p: nat, v: u64)
    requires Inv(w) && Floor(w, p, v) && !Step(w, a).bypassed
    ensures Floor(Step(w, a), p, v)
  {
    hide WorkerMove, Accounts, Barrier, PhaseDone, Effects;
    if a.ByCpu? && a.cpu < |w.cpus| {
      if w.cpus[a.cpu].pc.Idle? {
        IdleCpuStutters(w, a);
      } else {
        CpuStepShape(w, a);
        assert Shape(w.cpus[a.cpu], w.loops, w.phase, w.infos[w.phase].check) by { ShapeOf(w, a.cpu); }
        StepRaises(w, a);
        hide Step;
        MoveCarries(a.cpu, w.loops, w.flags, w.cpus[a.cpu], Shared(w.lastValue, w.bypassed, w.infos[w.phase]), a.raw,
                    a.hostStable, v);
      }
    } else if a.ByMain? {
      StepRaises(w, a);
      assert w.phase < |w.phases| ==> forall o :: 0 <= o < |w.cpus| ==> AtLeast(w.cpus[o], v);
    }
  }

  lemma {:induction false} RunKeepsFloor(setup: Setup, acts: seq<Action>, k: nat)
    requires k <= |acts| && !Execution(setup, acts).bypassed && Execution(setup, acts[..k]).main.SetFlags?
    ensures var w := Execution(setup, acts[..k]); Floor(Execution(setup, acts), w.phase, w.lastValue)
    decreases |acts|
  {
    if k == |acts| {
      assert acts[..k] == acts;
      RunKeepsInv(setup, acts);
      NothingSampledYet(Execution(setup, acts));
    } else {
      var before, a := acts[..|acts| - 1], acts[|acts| - 1];
      assert before[..k] == acts[..k];
      var w := Execution(setup, before);
      if w.bypassed {
        StepKeepsBypassed(w, a);
      }
      RunKeepsFloor(setup, before, k);
      RunKeepsInv(setup, before);
      StepKeepsFloor(w, a, Execution(setup, acts[..k]).phase, Execution(setup, acts[..k]).lastValue);
    }
  }

  lemma NothingSampledYet(w: World)
    requires Inv(w) && w.main.SetFlags?
    ensures Floor(w, w.phase, w.lastValue)
  {
  }

  /** `last_value` carries over: if no reading of a run skips the filter, then whatever the value is when
      a phase begins, each t1 compared in that phase or a later one is at least that value. */
  lemma PhaseStartsAbove(setup: Setup, acts: seq<Action>, k: nat)
    requires k <= |acts| && !Execution(setup, acts).bypassed && Execution(setup, acts[..k]).main.SetFlags?
    ensures var from, w := Execution(setup, acts[..k]), Execution(setup, acts);
            && from.phase <= w.phase
            && (w.phase < |w.phases| ==>
                  forall o, j :: 0 <= o < |w.cpus| && 0 <= j < |w.cpus[o].samples| ==> from.lastValue <= w.cpus[o].samples[j].t1)
            && (forall q, o, j :: from.phase <= q < |w.past| && 0 <= o < |w.past[q]| && 0 <= j < |w.past[q][o].samples| ==>
                  from.lastValue <= w.past[q][o].samples[j].t1)
  {
    RunKeepsFloor(setup, acts, k);
    var from, w := Execution(setup, acts[..k]), Execution(setup, acts);
    hide Execution;
    forall o, j | w.phase < |w.phases| && 0 <= o < |w.cpus| && 0 <= j < |w.cpus[o].samples|
      ensures from.lastValue <= w.cpus[o].samples[j].t1
    {
      assert AtLeast(w.cpus[o], from.lastValue);
    }
    forall q, o, j | from.phase <= q < |w.past| && 0 <= o < |w.past[q]| && 0 <= j < |w.past[q][o].samples|
      ensures from.lastValue <= w.past[q][o].samples[j].t1
    {
      assert AtLeast(w.past[q][o], from.lastValue);
    }
  }

  /** v was compared as a t1. */
  ghost predicate Seen(cpus: seq<Worker>, v: u64) {
    exists o, k :: 0 <= o < |cpus| && 0 <= k < |cpus[o].samples| && cpus[o].samples[k].t1 == v
  }

  ghost predicate AllAtLeast(cpus: seq<Worker>, v: u64) {
    forall o :: 0 <= o < |cpus| ==> AtLeast(cpus[o], v)
  }

  ghost predicate AllAtMost(cpus: seq<Worker>, v: u64) {
    forall o :: 0 <= o < |cpus| ==> AtMost(cpus[o], v)
  }

  ghost predicate CarryInv(w: World) {
    && (forall q :: 0 <= q < |w.past| ==> AllAtMost(w.past[q], w.lastValue))
    && AllAtMost(w.cpus, w.lastValue)
    && (forall q, v :: 0 <= q < |w.past| && Seen(w.past[q], v) ==> AllAtLeast(w.cpus, v))
    && (forall p, q, v :: 0 <= p < q < |w.past| && Seen(w.past[p], v) ==> AllAtLeast(w.past[q], v))
  }

  lemma SeenWithin(cpus: seq<Worker>, v: u64, most: u64)
    requires Seen(cpus, v) && AllAtMost(cpus, most)
    ensures v <= most
  {
    var o, k :| 0 <= o < |cpus| && 0 <= k < |cpus[o].samples| && cpus[o].samples[k].t1 == v;
    assert AtMost(cpus[o], most);
  }

  lemma CpuStepCarries(w: World, a: Action)
    requires Inv(w) && CarryInv(w) && a.ByCpu? && a.cpu < |w.cpus| && !w.cpus[a.cpu].pc.Idle? && !Step(w, a).bypassed
    ensures CarryInv(Step(w, a))
  {
    hide WorkerMove, Accounts, Barrier, PhaseDone, Effects, AtLeast, AtMost, Seen;
    CpuStepShape(w, a);
    StepRaises(w, a);
    ShapeOf(w, a.cpu);
    var w', x, sh, m := Step(w, a), w.cpus[a.cpu], Shared(w.lastValue, w.bypassed, w.infos[w.phase]), MoveOf(w, a);
    hide Step;
    assert AtMost(x, w.lastValue);
    MoveCarries(a.cpu, w.loops, w.flags, x, sh, a.raw, a.hostStable, w.lastValue);
    forall q | 0 <= q < |w.past| ensures AllAtMost(w.past[q], w'.lastValue) {
      StillAtMost(w.past[q], w.lastValue, w'.lastValue);
    }
    StillAtMost(w.cpus, w.lastValue, w'.lastValue);
    forall q, v | 0 <= q < |w.past| && Seen(w.past[q], v) ensures AllAtLeast(w'.cpus, v) {
      SeenWithin(w.past[q], v, w.lastValue);
      assert AllAtLeast(w.cpus, v) && AtLeast(x, v);
      MoveCarries(a.cpu, w.loops, w.flags, x, sh, a.raw, a.hostStable, v);
    }
  }

  lemma StillAtMost(cpus: seq<Worker>, v: u64, more: u64)
    requires AllAtMost(cpus, v) && v <= more
    ensures AllAtMost(cpus, more)
  {
    forall o | 0 <= o < |cpus| ensures AtMost(cpus[o], more) {
      assert AtMost(cpus[o], v);
    }
  }

  lemma MainStepCarries(w: World)
    requires Inv(w) && CarryInv(w)
    ensures CarryInv(MainMove(w))
  {
    hide Accounts, Barrier, PhaseDone, Seen;
    var w' := MainMove(w);
    if w.phase < |w.phases| {
      forall p, q, v | 0 <= p < q < |w'.past| && Seen(w'.past[p], v) ensures AllAtLeast(w'.past[q], v) {
        assert w'.past[p] == w.past[p];
        if q < |w.past| { assert AllAtLeast(w.past[q], v); } else { assert AllAtLeast(w.cpus, v); }
      }
      forall q, v | 0 <= q < |w'.past| && Seen(w'.past[q], v) ensures AllAtLeast(w'.cpus, v) {
        if q < |w.past| { assert AllAtLeast(w.cpus, v); }
      }
    }
  }

  lemma {:induction false} RunCarries(setup: Setup, acts: seq<Action>)
    requires !Execution(setup, acts).bypassed
    ensures CarryInv(Execution(setup, acts))
  {
    if acts != [] {
      var before, a := acts[..|acts| - 1], acts[|acts| - 1];
      var w := Execution(setup, before);
      if w.bypassed {
        StepKeepsBypassed(w, a);
      }
      RunCarries(setup, before);
      RunKeepsInv(setup, before);
      hide Inv, CarryInv;
      if a.ByMain? {
        MainStepCarries(w);
      } else if a.cpu < |w.cpus| {
        if w.cpus[a.cpu].pc.Idle? { IdleCpuStutters(w, a); } else { CpuStepCarries(w, a); }
      }
    }
  }

  /** If no reading of a run skips the filter, no t1 of a phase is below any t1 of an earlier phase. */
  lemma PhasesNeverStepBack(setup: Setup, acts: seq<Action>, p: nat, o: nat, k: nat)
    requires !Execution(setup, acts).bypassed
    requires var w := Execution(setup, acts); p < |w.past| && o < |w.past[p]| && k < |w.past[p][o].samples|
    ensures var w := Execution(setup, acts); var v := w.past[p][o].samples[k].t1;
            && v <= w.lastValue
            && (forall o', j :: 0 <= o' < |w.cpus| && 0 <= j < |w.cpus[o'].samples| ==> v <= w.cpus[o'].samples[j].t1)
            && (forall q, o', j :: p < q < |w.past| && 0 <= o' < |w.past[q]| && 0 <= j < |w.past[q][o'].samples| ==>
                  v <= w.past[q][o'].samples[j].t1)
  {
    RunCarries(setup, acts);
    var w := Execution(setup, acts);
    hide Execution;
    var v := w.past[p][o].samples[k].t1;
    assert Seen(w.past[p], v);
    SeenWithin(w.past[p], v, w.lastValue);
    forall o', j | 0 <= o' < |w.cpus| && 0 <= j < |w.cpus[o'].samples| ensures v <= w.cpus[o'].samples[j].t1 {
      assert AllAtLeast(w.cpus, v) && AtLeast(w.cpus[o'], v);
    }
    forall q, o', j | p < q < |w.past| && 0 <= o' < |w.past[q]| && 0 <= j < |w.past[q][o'].samples|
      ensures v <= w.past[q][o'].samples[j].t1
    {
      assert AllAtLeast(w.past[q], v) && AtLeast(w.past[q][o'], v);
    }
  }
}
