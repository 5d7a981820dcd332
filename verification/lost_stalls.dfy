/** The unlocked `++stalls`: when and how a complete `cycle_test` loses increments. */
module LostStalls {
  import opened Words
  import opened ClocksourceCall
  import opened WarpTest
  import opened WarpInvariants
  import opened WarpTheorems
  import opened WarpWitnesses

  // ---------- One CPU alone, the clock standing at 0 ----------

  /** An undisturbed filtered read of 0 while `last_value` is 0: reading, atomic64_read, cmpxchg. */
  lemma ZeroRead(id: nat, loops: nat, flags: Flags, m: Moved)
    requires (m.w.pc.Read1? || m.w.pc.Read2?) && m.w.call.Begin? && m.sh.lastValue == 0
    ensures var m' := Solo(id, loops, flags, m, 0, false, 3);
            && m'.sh == m.sh
            && m'.w == if m.w.pc.Read1? then m.w.(pc := LoadLast, call := Done(0), t1 := 0, calls := m.w.calls + 1)
                       else m.w.(pc := StoreLast, call := Done(0), t2 := 0, calls := m.w.calls + 1)
  {
    hide CountMove, LoopMove;
    ThreeSteps(id, loops, flags, m);
    var m1, m2 := m.(w := m.w.(call := Load(0))), m.(w := m.w.(call := Swap(0, 0)));
    assert WorkerMove(id, loops, flags, m.w, m.sh, 0, false) == m1;
    assert WorkerMove(id, loops, flags, m1.w, m1.sh, 0, false) == m2;
  }

  lemma ThreeSteps(id: nat, loops: nat, flags: Flags, m: Moved)
    ensures var m1 := WorkerMove(id, loops, flags, m.w, m.sh, 0, false);
            var m2 := WorkerMove(id, loops, flags, m1.w, m1.sh, 0, false);
            && Solo(id, loops, flags, m, 0, false, 2) == m2
            && Solo(id, loops, flags, m, 0, false, 3) == WorkerMove(id, loops, flags, m2.w, m2.sh, 0, false)
  {
    hide WorkerMove;
  }

  lemma ZeroEnter(id: nat, loops: nat, flags: Flags, m: Moved)
    requires m.w.pc.Loop? && m.w.i < loops && m.w.check != 0 && m.sh.ti.lock.Free?
    ensures Solo(id, loops, flags, m, 0, false, 2)
            == Moved(m.w.(pc := Read1, call := Begin), m.sh.(ti := m.sh.ti.(lock := HeldBy(id))))
  {
    hide CountMove, ReadMove;
    ThreeSteps(id, loops, flags, m);
    hide Solo;
    assert WorkerMove(id, loops, flags, m.w, m.sh, 0, false) == m.(w := m.w.(pc := Lock1));
  }

  /** From the store of `last` to the verdict. */
  lemma ZeroStoreLast(id: nat, loops: nat, flags: Flags, m: Moved)
    requires m.w.pc.StoreLast?
    ensures Solo(id, loops, flags, m, 0, false, 2)
            == Moved(m.w.(pc := Judge, samples := m.w.samples + [Sample(m.w.t1, m.w.t0)]),
                     m.sh.(ti := m.sh.ti.(lock := Free, last := m.w.t2)))
  {
    hide CountMove, LoopMove, ReadMove;
    ThreeSteps(id, loops, flags, m);
    hide Solo;
    assert WorkerMove(id, loops, flags, m.w, m.sh, 0, false)
        == Moved(m.w.(pc := Unlock1), m.sh.(ti := m.sh.ti.(last := m.w.t2)));
  }

  lemma ZeroVerdict(id: nat, loops: nat, flags: Flags, m: Moved)
    requires m.w.pc.Judge? && m.w.t1 == 0 && m.w.t0 == 0
    ensures Solo(id, loops, flags, m, 0, false, 2) == m.(w := m.w.(pc := StoreStalls, tmp := m.sh.ti.stalls))
  {
    hide SampleMove, LoopMove;
    ThreeSteps(id, loops, flags, m);
    hide Solo;
    assert WorkerMove(id, loops, flags, m.w, m.sh, 0, false) == m.(w := m.w.(pc := LoadStalls));
  }

  lemma ZeroLeave(id: nat, loops: nat, flags: Flags, m: Moved)
    requires m.w.pc.StoreLast? && m.w.t1 == 0 && m.w.t0 == 0
    ensures Solo(id, loops, flags, m, 0, false, 4)
            == Moved(m.w.(pc := StoreStalls, samples := m.w.samples + [Sample(0, 0)], tmp := m.sh.ti.stalls),
                     m.sh.(ti := m.sh.ti.(lock := Free, last := m.w.t2)))
  {
    hide Solo, WorkerMove;
    ZeroStoreLast(id, loops, flags, m);
    ZeroVerdict(id, loops, flags, Solo(id, loops, flags, m, 0, false, 2));
    SoloSplits(id, loops, flags, m, 0, false, 2, 2);
  }

  /** A CPU at the head of its loop while clock, `last_value` and `last` are 0 and the lock is free. */
  ghost predicate AtZero(m: Moved) {
    m.w.pc.Loop? && m.w.check != 0 && m.sh.lastValue == 0 && m.sh.ti.lock.Free? && m.sh.ti.last == 0
  }

  /** An undisturbed iteration at clock 0, up to the load of `stalls`. */
  lemma ZeroSample(id: nat, loops: nat, flags: Flags, m: Moved)
    requires AtZero(m) && m.w.i < loops
    ensures Solo(id, loops, flags, m, 0, false, 13)
            == Moved(m.w.(pc := StoreStalls, call := Done(0), t1 := 0, t0 := 0, t2 := 0, tmp := m.sh.ti.stalls,
                          samples := m.w.samples + [Sample(0, 0)], calls := m.w.calls + 2), m.sh)
  {
    var m2 := Solo(id, loops, flags, m, 0, false, 2);
    var m5 := Solo(id, loops, flags, m2, 0, false, 3);
    var m6 := Solo(id, loops, flags, m5, 0, false, 1);
    var m9 := Solo(id, loops, flags, m6, 0, false, 3);
    ZeroEnter(id, loops, flags, m);
    ZeroRead(id, loops, flags, m2);
    assert m6 == m5.(w := m5.w.(pc := Read2, t0 := 0, call := Begin));
    ZeroRead(id, loops, flags, m6);
    ZeroLeave(id, loops, flags, m9);
    SoloSplits(id, loops, flags, m, 0, false, 2, 11);
    SoloSplits(id, loops, flags, m2, 0, false, 3, 8);
    SoloSplits(id, loops, flags, m5, 0, false, 1, 7);
    SoloSplits(id, loops, flags, m6, 0, false, 3, 4);
  }

  /** The first step of a CPU just dispatched. */
  lemma ZeroStart(id: nat, loops: nat, flags: Flags, m: Moved)
    requires m.w.pc.Entry?
    ensures Solo(id, loops, flags, m, 0, false, 1) == m.(w := m.w.(pc := Loop, check := m.sh.ti.check))
  {
  }

  lemma ZeroStore(id: nat, loops: nat, flags: Flags, m: Moved)
    requires m.w.pc.StoreStalls?
    ensures Solo(id, loops, flags, m, 0, false, 1)
            == Moved(m.w.(pc := Advance), m.sh.(ti := m.sh.ti.(stalls := Successor(m.w.tmp))))
  {
  }

  lemma ZeroAdvance(id: nat, loops: nat, flags: Flags, m: Moved)
    requires m.w.pc.Advance?
    ensures Solo(id, loops, flags, m, 0, false, 1) == m.(w := m.w.(pc := Loop, i := m.w.i + 1))
  {
  }

  lemma ZeroExit(id: nat, loops: nat, flags: Flags, m: Moved)
    requires m.w.pc.Loop? && m.w.i >= loops
    ensures Solo(id, loops, flags, m, 0, false, 2)
            == Moved(m.w.(pc := Idle), m.sh.(ti := m.sh.ti.(ncpus := m.sh.ti.ncpus - 1)))
  {
  }

  lemma ZeroIteration(id: nat, loops: nat, flags: Flags, m: Moved)
    requires AtZero(m) && m.w.i < loops
    ensures Solo(id, loops, flags, m, 0, false, 15)
            == Moved(m.w.(pc := Loop, i := m.w.i + 1, call := Done(0), t1 := 0, t0 := 0, t2 := 0, tmp := m.sh.ti.stalls,
                          samples := m.w.samples + [Sample(0, 0)], calls := m.w.calls + 2),
                     m.sh.(ti := m.sh.ti.(stalls := Successor(m.sh.ti.stalls))))
  {
    hide WorkerMove;
    var m13 := Solo(id, loops, flags, m, 0, false, 13);
    var m14 := Solo(id, loops, flags, m13, 0, false, 1);
    ZeroSample(id, loops, flags, m);
    ZeroStore(id, loops, flags, m13);
    ZeroAdvance(id, loops, flags, m14);
    SoloSplits(id, loops, flags, m, 0, false, 13, 2);
    SoloSplits(id, loops, flags, m13, 0, false, 1, 1);
  }

  /** A CPU left alone at its loop head finishes the test, adding at most one stall a sample. */
  lemma {:induction false} ZeroFinish(id: nat, loops: nat, flags: Flags, m: Moved)
    requires AtZero(m) && m.w.i <= loops
    ensures var m' := Solo(id, loops, flags, m, 0, false, 15 * (loops - m.w.i) + 2);
            && m'.w.pc.Idle?
            && m'.sh == m.sh.(ti := m.sh.ti.(stalls := m'.sh.ti.stalls, ncpus := m.sh.ti.ncpus - 1))
            && m'.sh.ti.stalls + Zeros(m.w.samples) <= m.sh.ti.stalls + Zeros(m'.w.samples)
    decreases loops - m.w.i
  {
    hide Solo;
    if m.w.i == loops {
      ZeroExit(id, loops, flags, m);
    } else {
      var m' := Solo(id, loops, flags, m, 0, false, 15);
      ZeroIteration(id, loops, flags, m);
      CountExtended(m.w.samples, Sample(0, 0));
      SoloSplits(id, loops, flags, m, 0, false, 15, 15 * (loops - m'.w.i) + 2);
      ZeroFinish(id, loops, flags, m');
    }
  }

  // ---------- The rest of a phase ----------

  /** A CPU not yet in its loop, or at the end of an iteration. */
  predicate AtRest(w: Worker, loops: nat) {
    w.info == 0 && (w == Started(0) || (w.pc.Advance? && w.i < loops && w.check != 0))
  }

  function StepsLeft(w: Worker, loops: nat): nat
    requires AtRest(w, loops)
  {
    15 * (loops - if w.pc.Advance? then w.i + 1 else 0) + 3
  }

  lemma RestFinishes(id: nat, loops: nat, flags: Flags, m: Moved)
    requires AtRest(m.w, loops) && m.sh.ti.check != 0 && m.sh.lastValue == 0 && m.sh.ti.lock.Free? && m.sh.ti.last == 0
    ensures var m' := Solo(id, loops, flags, m, 0, false, StepsLeft(m.w, loops));
            && m'.w.pc.Idle?
            && m'.sh == m.sh.(ti := m.sh.ti.(stalls := m'.sh.ti.stalls, ncpus := m.sh.ti.ncpus - 1))
            && m'.sh.ti.stalls + Zeros(m.w.samples) <= m.sh.ti.stalls + Zeros(m'.w.samples)
  {
    hide Solo;
    if m.w.pc.Advance? {
      ZeroAdvance(id, loops, flags, m);
    } else {
      ZeroStart(id, loops, flags, m);
    }
    var m1 := Solo(id, loops, flags, m, 0, false, 1);
    SoloSplits(id, loops, flags, m, 0, false, 1, StepsLeft(m.w, loops) - 1);
    ZeroFinish(id, loops, flags, m1);
  }

  /** CPUs below c have finished, the others are at rest, and the counter has already lost a stall. */
  ghost predicate Losing(w: World, c: nat) {
    && |w.infos| == 1 && w.infos[0].check != 0 && w.infos[0].lock.Free? && w.infos[0].last == 0 && w.lastValue == 0
    && c <= |w.cpus|
    && (forall o :: 0 <= o < c ==> w.cpus[o].pc.Idle?)
    && (forall o :: c <= o < |w.cpus| ==> AtRest(w.cpus[o], w.loops))
    && w.infos[0].stalls < Total(w.cpus, ZerosOf)
  }

  /** The CPUs that remain finish one after the other. */
  lemma {:induction false} RestOfPhase(w: World, c: nat) returns (acts: seq<Action>)
    requires Losing(w, c)
    ensures var w' := Run(w, acts);
            && Losing(w', |w.cpus|) && |w'.cpus| == |w.cpus|
            && w' == w.(lastValue := 0, bypassed := w'.bypassed, infos := w'.infos, cpus := w'.cpus)
    decreases |w.cpus| - c
  {
    if c == |w.cpus| {
      acts := [];
    } else {
      hide Run, Solo, SoloActs;
      var k := StepsLeft(w.cpus[c], w.loops);
      var m := Solo(c, w.loops, w.flags, ViewOf(w, c), 0, false, k);
      SoloInWorld(w, c, 0, false, k);
      RestFinishes(c, w.loops, w.flags, ViewOf(w, c));
      TotalUpdate(w.cpus, c, m.w, ZerosOf);
      var rest := RestOfPhase(Updated(w, c, m), c + 1);
      acts := SoloActs(c, 0, false, k) + rest;
      RunConcat(w, SoloActs(c, 0, false, k), rest);
    }
  }

  // ---------- A lost stall ----------

  /** A CPU goes from its start to the point between the load and the store of its first `++stalls`. */
  lemma LoadStall(w: World, c: nat)
    requires c < |w.cpus| && |w.infos| == 1 && w.cpus[c] == Started(0) && w.loops > 0 && w.lastValue == 0
    requires w.infos[0].check != 0 && w.infos[0].lock.Free? && w.infos[0].last == 0
    ensures var w' := Run(w, SoloActs(c, 0, false, 14)); var x := w'.cpus;
            && |x| == |w.cpus| && x == w.cpus[c := x[c]]
            && x[c].pc.StoreStalls? && x[c].i == 0 && x[c].check != 0 && x[c].info == 0
            && x[c].tmp == w.infos[0].stalls && x[c].samples == [Sample(0, 0)]
            && w' == w.(bypassed := w'.bypassed, cpus := x)
  {
    hide Solo, SoloActs, Run;
    SoloInWorld(w, c, 0, false, 14);
    var m := ViewOf(w, c);
    SoloSplits(c, w.loops, w.flags, m, 0, false, 1, 13);
    ZeroStart(c, w.loops, w.flags, m);
    ZeroSample(c, w.loops, w.flags, Solo(c, w.loops, w.flags, m, 0, false, 1));
    assert [] + [Sample(0, 0)] == [Sample(0, 0)];
    assert w.infos[0 := w.infos[0]] == w.infos;
  }

  lemma StoreStall(w: World, c: nat)
    requires c < |w.cpus| && |w.infos| == 1 && w.cpus[c].info == 0 && w.cpus[c].pc.StoreStalls?
    ensures Run(w, SoloActs(c, 0, false, 1))
            == w.(cpus := w.cpus[c := w.cpus[c].(pc := Advance)],
                  infos := [w.infos[0].(stalls := Successor(w.cpus[c].tmp))])
  {
    hide Solo, SoloActs, Run;
    SoloInWorld(w, c, 0, false, 1);
    ZeroStore(c, w.loops, w.flags, ViewOf(w, c));
  }

  function BothStore(): seq<Action> {
    SoloActs(0, 0, false, 14) + SoloActs(1, 0, false, 14) + SoloActs(0, 0, false, 1) + SoloActs(1, 0, false, 1)
  }

  /** CPUs 0 and 1 each execute `++stalls` once, and the counter ends at 1. */
  lemma LostStall(w: World, loops: nat, phase: Phase)
    requires loops > 0 && phase.check != 0 && |w.cpus| >= 2 && AllStarted(w, |w.cpus|, loops, phase)
    ensures var w' := Run(w, BothStore());
            && Losing(w', 0) && |w'.infos| == 1 && w'.infos[0].stalls == 1
            && |w'.cpus| == |w.cpus| && w' == w.(bypassed := w'.bypassed, infos := w'.infos, cpus := w'.cpus)
  {
    hide Solo, SoloActs, Run;
    var a0, a1, s0, s1 := SoloActs(0, 0, false, 14), SoloActs(1, 0, false, 14), SoloActs(0, 0, false, 1), SoloActs(1, 0, false, 1);
    RunConcat(w, a0 + a1 + s0, s1);
    RunConcat(w, a0 + a1, s0);
    RunConcat(w, a0, a1);
    LoadStall(w, 0);
    var w1 := Run(w, a0);
    LoadStall(w1, 1);
    var w2 := Run(w1, a1);
    StoreStall(w2, 0);
    var w3 := Run(w2, s0);
    StoreStall(w3, 1);
    TwoZeros(w.cpus, Run(w3, s1).cpus);
  }

  lemma TwoZeros(before: seq<Worker>, after: seq<Worker>)
    requires |before| == |after| >= 2 && after == before[0 := after[0]][1 := after[1]]
    requires forall o :: 0 <= o < |before| ==> before[o] == Started(0)
    requires after[0].samples == after[1].samples == [Sample(0, 0)]
    ensures Total(after, ZerosOf) == 2
  {
    hide Total, Zeros;
    assert ZerosOf(Started(0)) == 0 && Zeros([Sample(0, 0)]) == 1 by { OneZero(); }
    var one := before[0 := after[0]];
    assert forall o :: 0 <= o < |before| ==> ZerosOf(before[o]) == 0;
    TotalZero(before, ZerosOf);
    TotalUpdate(before, 0, after[0], ZerosOf);
    TotalUpdate(one, 1, after[1], ZerosOf);
    assert one[1] == before[1] && one[1 := after[1]] == after;
  }

  lemma OneZero()
    ensures Zeros([]) == 0 && Zeros([Sample(0, 0)]) == 1
  {
    CountExtended([], Sample(0, 0));
    assert [] + [Sample(0, 0)] == [Sample(0, 0)];
  }

  /** When every CPU has finished, three more steps make `cycle_test` return. */
  lemma PhaseReturns(setup: Setup, acts: seq<Action>)
    requires var w := Execution(setup, acts); Losing(w, |w.cpus|) && w.main == Dispatch(0) && w.phase < |w.phases|
    ensures var w, w' := Execution(setup, acts), Execution(setup, acts + MainActs(3));
            |w'.results| == |w.results| + 1 && w'.past == w.past + [w.cpus] && w'.infos == w.infos
  {
    var w := Execution(setup, acts);
    RunKeepsInv(setup, acts);
    BarrierCounts(setup, acts);
    TotalZero(w.cpus, Unfinished);
    RunConcat(Initial(setup), acts, MainActs(3));
    RunMains(w, 3);
    hide Run;
    var w1, w2 := w.(main := Wait), w.(main := Return);
    assert MainMove(w) == w1 && MainMove(w1) == w2;
    assert Mains(w, 3) == MainMove(w2);
  }

  /** A schedule of the whole `cycle_test` that loses a stall. */
  lemma StallsCanBeLost(cpus: nat, loops: nat, phase: Phase) returns (acts: seq<Action>)
    requires cpus >= 2 && loops > 0 && phase.check != 0
    ensures var w := Execution(OnePhase(cpus, loops, phase), acts);
            |w.results| == |w.past| == |w.infos| == 1 && w.infos[0].stalls < Total(w.past[0], ZerosOf)
  {
    hide Run, MainMove, SoloActs, MainActs;
    var setup, start := OnePhase(cpus, loops, phase), MainActs(3 + cpus);
    StartAll(cpus, loops, phase);
    var w1 := Execution(setup, start);
    LostStall(w1, loops, phase);
    var w2 := Run(w1, BothStore());
    var rest := RestOfPhase(w2, 0);
    RunConcat(Initial(setup), start, BothStore());
    RunConcat(Initial(setup), start + BothStore(), rest);
    var before := start + BothStore() + rest;
    RunKeepsInv(setup, before);
    RunKeepsSetup(setup, before);
    PhaseReturns(setup, before);
    acts := before + MainActs(3);
  }

  /** Every schedule's `cycle_test` returns with the stalls counted exactly. */
  ghost predicate StallsExact(cpus: nat, loops: nat, phase: Phase) {
    forall acts: seq<Action> ::
      var w := Execution(OnePhase(cpus, loops, phase), acts);
      |w.results| > 0 && |w.infos| > 0 && |w.past| > 0 ==> w.infos[0].stalls == Total(w.past[0], ZerosOf)
  }

  /** The unlocked counter is exact in every schedule iff no two CPUs compare samples. */
  lemma StallsExactIff(cpus: nat, loops: nat, phase: Phase)
    requires cpus * loops < TWO64
    ensures StallsExact(cpus, loops, phase) <==> cpus <= 1 || loops == 0 || phase.check == 0
  {
    if cpus <= 1 || loops == 0 || phase.check == 0 {
      forall acts: seq<Action> | |Execution(OnePhase(cpus, loops, phase), acts).results| > 0
        ensures var w := Execution(OnePhase(cpus, loops, phase), acts);
                |w.infos| > 0 && |w.past| > 0 ==> w.infos[0].stalls == Total(w.past[0], ZerosOf)
      {
        NoStallLost(OnePhase(cpus, loops, phase), acts);
      }
    } else {
      var acts := StallsCanBeLost(cpus, loops, phase);
    }
  }

  lemma NoStallLost(setup: Setup, acts: seq<Action>)
    requires |Execution(setup, acts).results| > 0 && setup.cpus * setup.loops < TWO64 && |setup.phases| > 0
    requires setup.cpus <= 1 || setup.loops == 0 || setup.phases[0].check == 0
    ensures var w := Execution(setup, acts);
            |w.infos| > 0 && |w.past| > 0 && w.infos[0].stalls == Total(w.past[0], ZerosOf)
  {
    StallsUndercount(setup, acts, 0);
    ExactAccounting(setup, acts, 0);
    RunKeepsInv(setup, acts);
    RunKeepsSetup(setup, acts);
    var w := Execution(setup, acts);
    hide Execution;
    if setup.cpus != 1 {
      forall o | 0 <= o < |w.past[0]| ensures ZerosOf(w.past[0][o]) == 0 {
        CountsWithin(w.past[0][o].samples);
      }
      TotalZero(w.past[0], ZerosOf);
    }
  }
}
