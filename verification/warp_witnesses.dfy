/** Schedules showing that the hypotheses of WarpTheorems are needed: a reading that skips the filter can
    produce a warp, and so can a filtered clock that reaches 2^63. */
module WarpWitnesses {
  import opened Words
  import opened ClocksourceCall
  import opened WarpTest
  import opened WarpTheorems

  /** CPU `id` runs `k` steps with nobody else moving, each reading being (raw, stable). */
  function Solo(id: nat, loops: nat, flags: Flags, m: Moved, raw: u64, stable: bool, k: nat): Moved
    decreases k
  {
    if k == 0 then m
    else Solo(id, loops, flags, WorkerMove(id, loops, flags, m.w, m.sh, raw, stable), raw, stable, k - 1)
  }

  function SoloActs(cpu: nat, raw: u64, stable: bool, k: nat): seq<Action>
    ensures |SoloActs(cpu, raw, stable, k)| == k
  {
    seq(k, _ => ByCpu(cpu, raw, stable))
  }

  /** What CPU `c` of `w` sees. */
  function ViewOf(w: World, c: nat): Moved
    requires c < |w.cpus| && w.cpus[c].info < |w.infos|
  {
    Moved(w.cpus[c], Shared(w.lastValue, w.bypassed, w.infos[w.cpus[c].info]))
  }

  function Updated(w: World, c: nat, m: Moved): World
    requires c < |w.cpus| && w.cpus[c].info < |w.infos|
  {
    w.(lastValue := m.sh.lastValue, bypassed := m.sh.bypassed,
       infos := w.infos[w.cpus[c].info := m.sh.ti], cpus := w.cpus[c := m.w])
  }

  lemma {:induction false} RunConcat(w: World, xs: seq<Action>, ys: seq<Action>)
    ensures Run(w, xs + ys) == Run(Run(w, xs), ys)
    decreases |ys|
  {
    if ys == [] {
      assert xs + ys == xs;
    } else {
      assert (xs + ys)[..|xs + ys| - 1] == xs + ys[..|ys| - 1];
      RunConcat(w, xs, ys[..|ys| - 1]);
    }
  }

  lemma InfoIsFixed(id: nat, loops: nat, flags: Flags, w: Worker, sh: Shared, raw: u64, stable: bool)
    ensures WorkerMove(id, loops, flags, w, sh, raw, stable).w.info == w.info
  {
  }

  lemma {:induction false} SoloInWorld(w: World, c: nat, raw: u64, stable: bool, k: nat)
    requires c < |w.cpus| && w.cpus[c].info < |w.infos|
    ensures Run(w, SoloActs(c, raw, stable, k)) == Updated(w, c, Solo(c, w.loops, w.flags, ViewOf(w, c), raw, stable, k))
    decreases k
  {
    var acts := SoloActs(c, raw, stable, k);
    if k == 0 {
      assert w.infos[w.cpus[c].info := w.infos[w.cpus[c].info]] == w.infos && w.cpus[c := w.cpus[c]] == w.cpus;
    } else {
      var first := [ByCpu(c, raw, stable)];
      assert acts == first + SoloActs(c, raw, stable, k - 1);
      RunConcat(w, first, SoloActs(c, raw, stable, k - 1));
      var w1 := Step(w, first[0]);
      assert Run(w, first) == w1 by { assert first[..0] == []; }
      InfoIsFixed(c, w.loops, w.flags, w.cpus[c], ViewOf(w, c).sh, raw, stable);
      SoloInWorld(w1, c, raw, stable, k - 1);
      var m := Solo(c, w.loops, w.flags, ViewOf(w, c), raw, stable, k);
      assert Updated(w1, c, m).infos == Updated(w, c, m).infos;
      assert Updated(w1, c, m).cpus == Updated(w, c, m).cpus;
    }
  }

  lemma SoloSplits(id: nat, loops: nat, flags: Flags, m: Moved, raw: u64, stable: bool, j: nat, k: nat)
    ensures Solo(id, loops, flags, m, raw, stable, j + k)
            == Solo(id, loops, flags, Solo(id, loops, flags, m, raw, stable, j), raw, stable, k)
    decreases j
  {
    if j > 0 {
      SoloSplits(id, loops, flags, WorkerMove(id, loops, flags, m.w, m.sh, raw, stable), raw, stable, j - 1, k);
    }
  }

  /** An undisturbed sampling with unfiltered readings of `raw`, from the loop head to the verdict. */
  lemma UnfilteredSample(id: nat, loops: nat, flags: Flags, m: Moved, raw: u64)
    requires flags.tscStable && m.w.pc.Loop? && m.w.i < loops && m.w.check != 0 && m.sh.ti.lock.Free?
    ensures var m' := Solo(id, loops, flags, m, raw, true, 7);
            && m'.w.pc.Judge? && m'.w.t1 == raw && m'.w.t0 == m.sh.ti.last
            && m'.w.i == m.w.i && m'.w.check == m.w.check && m'.w.info == m.w.info
            && m'.sh.ti == m.sh.ti.(last := raw)
  {
    UnfilteredHead(id, loops, flags, m, raw);
    UnfilteredTail(id, loops, flags, Solo(id, loops, flags, m, raw, true, 4), raw);
    SoloSplits(id, loops, flags, m, raw, true, 4, 3);
  }

  lemma UnfilteredHead(id: nat, loops: nat, flags: Flags, m: Moved, raw: u64)
    requires flags.tscStable && m.w.pc.Loop? && m.w.i < loops && m.w.check != 0 && m.sh.ti.lock.Free?
    ensures var m' := Solo(id, loops, flags, m, raw, true, 4);
            && m'.w == m.w.(pc := Read2, call := Begin, t1 := raw, t0 := m.sh.ti.last, calls := m.w.calls + 1)
            && m'.sh.ti == m.sh.ti.(lock := HeldBy(id))
  {
  }

  lemma UnfilteredTail(id: nat, loops: nat, flags: Flags, m: Moved, raw: u64)
    requires flags.tscStable && m.w.pc.Read2? && m.w.call.Begin?
    ensures var m' := Solo(id, loops, flags, m, raw, true, 3);
            && m'.w.(samples := m.w.samples) == m.w.(pc := Judge, call := Done(raw), t2 := raw, calls := m.w.calls + 1)
            && m'.sh.ti == m.sh.ti.(lock := Free, last := raw)
  {
  }

  lemma ForwardVerdict(id: nat, loops: nat, flags: Flags, m: Moved, raw: u64)
    requires m.w.pc.Judge? && Delta(Sample(m.w.t1, m.w.t0)) > 0
    ensures var m' := Solo(id, loops, flags, m, raw, true, 2);
            m'.sh == m.sh && m'.w == m.w.(pc := Loop, i := m.w.i + 1)
  {
  }

  lemma WarpVerdict(id: nat, loops: nat, flags: Flags, m: Moved, raw: u64)
    requires m.w.pc.Judge? && Delta(Sample(m.w.t1, m.w.t0)) < 0 && m.sh.ti.lock.Free?
    ensures Solo(id, loops, flags, m, raw, true, 4).sh.ti.warps == Successor(m.sh.ti.warps)
  {
  }

  function Mains(w: World, k: nat): World
    decreases k
  {
    if k == 0 then w else Mains(MainMove(w), k - 1)
  }

  function MainActs(k: nat): seq<Action>
    ensures |MainActs(k)| == k
  {
    seq(k, _ => ByMain)
  }

  lemma {:induction false} RunMains(w: World, k: nat)
    ensures Run(w, MainActs(k)) == Mains(w, k)
    decreases k
  {
    if k > 0 {
      var first: seq<Action> := [ByMain];
      assert MainActs(k) == first + MainActs(k - 1);
      RunConcat(w, first, MainActs(k - 1));
      assert Run(w, first) == MainMove(w) by { assert first[..0] == []; }
      RunMains(MainMove(w), k - 1);
    }
  }

  /** A test of one phase on a zeroed test_info, `last_value` being 0. */
  function OnePhase(cpus: nat, loops: nat, phase: Phase): Setup {
    Setup(cpus, loops, [phase], 0)
  }

  /** All CPUs of that phase have been dispatched and none has moved. */
  ghost predicate AllStarted(w: World, cpus: nat, loops: nat, phase: Phase) {
    && w.infos == [ZeroInfo().(ncpus := cpus, check := phase.check)]
    && |w.cpus| == cpus && (forall o :: 0 <= o < cpus ==> w.cpus[o] == Started(0))
    && w.lastValue == 0 && w.flags == phase.flags && !w.bypassed && w.loops == loops
    && w.main == Dispatch(0) && w.phase == 0 < |w.phases| && w.results == [] && w.past == []
  }

  lemma {:induction false} DispatchRest(w: World, left: nat)
    requires left <= |w.cpus| && w.main == Dispatch(left) && w.phase == 0 && |w.phases| == |w.infos| == 1
    requires forall o :: left <= o < |w.cpus| ==> w.cpus[o] == Started(0)
    ensures Mains(w, left) == w.(main := Dispatch(0), cpus := seq(|w.cpus|, _ => Started(0)))
    decreases left
  {
    if left == 0 {
      assert w.cpus == seq(|w.cpus|, _ => Started(0));
    } else {
      DispatchRest(MainMove(w), left - 1);
    }
  }

  lemma StartAll(cpus: nat, loops: nat, phase: Phase)
    ensures AllStarted(Execution(OnePhase(cpus, loops, phase), MainActs(3 + cpus)), cpus, loops, phase)
  {
    var w := Initial(OnePhase(cpus, loops, phase));
    RunMains(w, 3 + cpus);
    SetUpOne(cpus, loops, phase);
    hide MainMove, Initial;
    var w1, w2, w3 := MainMove(w), MainMove(MainMove(w)), MainMove(MainMove(MainMove(w)));
    assert Mains(w, 3 + cpus) == Mains(w1, 2 + cpus) == Mains(w2, 1 + cpus) == Mains(w3, cpus);
    DispatchRest(w3, cpus);
  }

  lemma SetUpOne(cpus: nat, loops: nat, phase: Phase)
    ensures var w := Initial(OnePhase(cpus, loops, phase));
            MainMove(MainMove(MainMove(w)))
            == w.(flags := phase.flags, main := Dispatch(cpus), infos := [ZeroInfo().(ncpus := cpus, check := phase.check)])
  {
    var w := Initial(OnePhase(cpus, loops, phase));
    assert w.infos == [ZeroInfo()] && w.phases == [phase] && |w.cpus| == cpus;
    hide Initial, OnePhase;
    var w1 := w.(flags := phase.flags, main := SetCount);
    var w2 := w1.(infos := [ZeroInfo().(ncpus := cpus)], main := SetCheck);
    assert MainMove(w) == w1;
    assert MainMove(w1) == w2;
  }

  // ---------- When the filter is needed ----------

  /** A CPU alone completes its first iteration, at clock 10 and without the filter. */
  lemma ForwardAlone(id: nat, loops: nat, flags: Flags, m: Moved)
    requires flags.tscStable && loops > 0 && m.w == Started(0)
    requires m.sh.ti.check != 0 && m.sh.ti.lock.Free? && m.sh.ti.last == 0
    ensures var m' := Solo(id, loops, flags, m, 10, true, 10);
            && m'.w.pc.Loop? && m'.w.i == 1 && m'.w.check == m.sh.ti.check && m'.w.info == 0
            && m'.sh.ti == m.sh.ti.(last := 10)
  {
    hide Solo;
    FirstStep(id, loops, flags, m, 10);
    var m1 := Solo(id, loops, flags, m, 10, true, 1);
    var m8 := Solo(id, loops, flags, m1, 10, true, 7);
    SoloSplits(id, loops, flags, m, 10, true, 1, 9);
    SoloSplits(id, loops, flags, m1, 10, true, 7, 2);
    UnfilteredSample(id, loops, flags, m1, 10);
    ForwardVerdict(id, loops, flags, m8, 10);
  }

  lemma FirstStep(id: nat, loops: nat, flags: Flags, m: Moved, raw: u64)
    requires m.w.pc.Entry?
    ensures Solo(id, loops, flags, m, raw, true, 1) == m.(w := m.w.(pc := Loop, check := m.sh.ti.check))
  {
  }

  /** A CPU alone takes a sample at clock 5 after `last` was 10, up to `++warps`. */
  lemma BackwardAlone(id: nat, loops: nat, flags: Flags, m: Moved)
    requires flags.tscStable && m.w.pc.Loop? && m.w.i < loops && m.w.check != 0
    requires m.sh.ti.lock.Free? && m.sh.ti.last == 10 && m.sh.ti.warps == 0
    ensures Solo(id, loops, flags, m, 5, true, 11).sh.ti.warps == 1
  {
    hide Solo;
    var m7 := Solo(id, loops, flags, m, 5, true, 7);
    SoloSplits(id, loops, flags, m, 5, true, 7, 4);
    UnfilteredSample(id, loops, flags, m, 5);
    WarpVerdict(id, loops, flags, m7, 5);
  }

  /** CPU 0 samples at clock 10; then CPU 0 again, or if there is just one iteration CPU 1, at clock 5. */
  function BackwardActs(cpus: nat, loops: nat): seq<Action> {
    MainActs(3 + cpus) + SoloActs(0, 10, true, 10) + (if loops > 1 then SoloActs(0, 5, true, 11) else SoloActs(1, 5, true, 12))
  }

  /** The lock is free, and the last clock value stored is 10. */
  ghost predicate AfterTen(w: World) {
    && |w.infos| == 1 && w.flags.tscStable && w.loops > 0
    && w.infos[0].check != 0 && w.infos[0].lock.Free? && w.infos[0].last == 10 && w.infos[0].warps == 0
  }

  lemma BackwardAgain(w: World, c: nat)
    requires AfterTen(w) && c < |w.cpus| && w.cpus[c].info == 0
    requires w.cpus[c].pc.Loop? && w.cpus[c].i < w.loops && w.cpus[c].check != 0
    ensures var w' := Run(w, SoloActs(c, 5, true, 11)); |w'.infos| == 1 && w'.infos[0].warps == 1
  {
    hide Run, Solo, SoloActs;
    SoloInWorld(w, c, 5, true, 11);
    BackwardAlone(c, w.loops, w.flags, ViewOf(w, c));
  }

  lemma BackwardElsewhere(w: World, c: nat)
    requires AfterTen(w) && c < |w.cpus| && w.cpus[c] == Started(0)
    ensures var w' := Run(w, SoloActs(c, 5, true, 12)); |w'.infos| == 1 && w'.infos[0].warps == 1
  {
    hide Run, Solo, SoloActs;
    SoloInWorld(w, c, 5, true, 12);
    var m := ViewOf(w, c);
    SoloSplits(c, w.loops, w.flags, m, 5, true, 1, 11);
    FirstStep(c, w.loops, w.flags, m, 5);
    BackwardAlone(c, w.loops, w.flags, Solo(c, w.loops, w.flags, m, 5, true, 1));
  }

  lemma ForwardFirst(w: World, loops: nat, phase: Phase)
    requires AllStarted(w, |w.cpus|, loops, phase) && |w.cpus| > 0 && loops > 0 && phase.flags.tscStable && phase.check != 0
    ensures var w' := Run(w, SoloActs(0, 10, true, 10));
            && AfterTen(w') && w'.loops == loops && |w'.cpus| == |w.cpus| && w'.cpus[1..] == w.cpus[1..]
            && w'.cpus[0].info == 0 && w'.cpus[0].pc.Loop? && w'.cpus[0].i == 1 && w'.cpus[0].check != 0
  {
    hide Run, Solo, SoloActs;
    SoloInWorld(w, 0, 10, true, 10);
    ForwardAlone(0, loops, w.flags, ViewOf(w, 0));
  }

  lemma ProductsBelowTwo(x: nat, y: nat)
    ensures x * y >= 2 ==> x > 0 && y > 0 && (x > 1 || y > 1)
  {
  }

  /** With two samples or more, readings that skip the filter can go back from 10 to 5, and the test
      counts a warp. */
  lemma WarpWithoutTheFilter(cpus: nat, loops: nat, phase: Phase)
    requires cpus * loops >= 2 && phase.flags.tscStable && phase.check != 0
    ensures var w := Execution(OnePhase(cpus, loops, phase), BackwardActs(cpus, loops));
            |w.infos| == 1 && w.infos[0].warps == 1
  {
    ProductsBelowTwo(cpus, loops);
    hide Initial, Run, SoloActs, MainActs;
    var w0, w1 := Initial(OnePhase(cpus, loops, phase)), Execution(OnePhase(cpus, loops, phase), MainActs(3 + cpus));
    var first, second := SoloActs(0, 10, true, 10), if loops > 1 then SoloActs(0, 5, true, 11) else SoloActs(1, 5, true, 12);
    StartAll(cpus, loops, phase);
    RunConcat(w0, MainActs(3 + cpus) + first, second);
    RunConcat(w0, MainActs(3 + cpus), first);
    ForwardFirst(w1, loops, phase);
    var w2 := Run(w1, first);
    if loops > 1 {
      BackwardAgain(w2, 0);
    } else {
      assert w2.cpus[1] == w2.cpus[1..][0] == w1.cpus[1..][0];
      BackwardElsewhere(w2, 1);
    }
  }

  // ---------- The largest safe clock ----------

  /** CPU 0 alone reads 2^63 while `last` is 0: the difference is negative as a signed number. */
  lemma LeapAlone(loops: nat, flags: Flags, m: Moved)
    requires loops > 0 && m.w == Started(0) && m.sh.lastValue == 0 && !m.sh.bypassed
    requires m.sh.ti.check != 0 && m.sh.ti.lock.Free? && m.sh.ti.last == 0 && m.sh.ti.warps == 0
    ensures var m' := Solo(0, loops, flags, m, TWO63, false, 17);
            !m'.sh.bypassed && m'.sh.ti.warps == 1
  {
    var m8 := Solo(0, loops, flags, m, TWO63, false, 8);
    LeapSample(loops, flags, m);
    LeapSecond(loops, flags, m8);
    var m14 := Solo(0, loops, flags, m8, TWO63, false, 6);
    SoloSplits(0, loops, flags, m, TWO63, false, 8, 9);
    SoloSplits(0, loops, flags, m8, TWO63, false, 6, 3);
    LeapVerdict(loops, flags, m14);
  }

  /** The first reading takes four steps: raw reading, atomic64_read, and two cmpxchg. */
  lemma LeapSample(loops: nat, flags: Flags, m: Moved)
    requires loops > 0 && m.w == Started(0) && m.sh.lastValue == 0 && !m.sh.bypassed
    requires m.sh.ti.check != 0 && m.sh.ti.lock.Free? && m.sh.ti.last == 0
    ensures Solo(0, loops, flags, m, TWO63, false, 8)
            == Moved(m.w.(pc := Read2, check := m.sh.ti.check, call := Begin, t1 := TWO63, calls := 1),
                     m.sh.(lastValue := TWO63, ti := m.sh.ti.(lock := HeldBy(0))))
  {
    hide Solo;
    LeapEnter(loops, flags, m);
    LeapRead(loops, flags, Solo(0, loops, flags, m, TWO63, false, 3));
    SoloSplits(0, loops, flags, m, TWO63, false, 3, 5);
  }

  lemma LeapEnter(loops: nat, flags: Flags, m: Moved)
    requires loops > 0 && m.w == Started(0) && m.sh.ti.check != 0 && m.sh.ti.lock.Free?
    ensures Solo(0, loops, flags, m, TWO63, false, 3)
            == Moved(m.w.(pc := Read1, check := m.sh.ti.check), m.sh.(ti := m.sh.ti.(lock := HeldBy(0))))
  {
  }

  lemma LeapRead(loops: nat, flags: Flags, m: Moved)
    requires m.w.pc.Read1? && m.w.call.Begin? && m.w.t0 == 0 && m.sh.lastValue == 0 && !m.sh.bypassed && m.sh.ti.last == 0
    ensures Solo(0, loops, flags, m, TWO63, false, 5)
            == Moved(m.w.(pc := Read2, call := Begin, t1 := TWO63, calls := m.w.calls + 1), m.sh.(lastValue := TWO63))
  {
  }

  lemma LeapSecond(loops: nat, flags: Flags, m: Moved)
    requires m.w.pc.Read2? && m.w.call.Begin? && m.w.t1 == TWO63 && m.w.t0 == 0 && m.sh.lastValue == TWO63 && !m.sh.bypassed
    ensures var m' := Solo(0, loops, flags, m, TWO63, false, 6);
            && m'.w.pc.Lock2? && m'.sh == m.sh.(ti := m.sh.ti.(last := TWO63, lock := Free))
  {
    hide Solo;
    LeapReread(loops, flags, m);
    LeapStore(loops, flags, Solo(0, loops, flags, m, TWO63, false, 3));
    SoloSplits(0, loops, flags, m, TWO63, false, 3, 3);
  }

  lemma LeapReread(loops: nat, flags: Flags, m: Moved)
    requires m.w.pc.Read2? && m.w.call.Begin? && m.sh.lastValue == TWO63 && !m.sh.bypassed
    ensures var m' := Solo(0, loops, flags, m, TWO63, false, 3);
            m'.w == m.w.(pc := StoreLast, call := Done(TWO63), t2 := TWO63, calls := m.w.calls + 1) && m'.sh == m.sh
  {
  }

  lemma LeapStore(loops: nat, flags: Flags, m: Moved)
    requires m.w.pc.StoreLast? && m.w.t2 == TWO63 && m.w.t1 == TWO63 && m.w.t0 == 0
    ensures var m' := Solo(0, loops, flags, m, TWO63, false, 3);
            && m'.w.pc.Lock2? && m'.sh == m.sh.(ti := m.sh.ti.(last := TWO63, lock := Free))
  {
  }

  lemma LeapVerdict(loops: nat, flags: Flags, m: Moved)
    requires m.w.pc.Lock2? && m.sh.ti.lock.Free?
    ensures var m' := Solo(0, loops, flags, m, TWO63, false, 3);
            m'.sh.ti.warps == Successor(m.sh.ti.warps) && m'.sh.bypassed == m.sh.bypassed
  {
  }

  function LeapActs(cpus: nat): seq<Action> {
    MainActs(3 + cpus) + SoloActs(0, TWO63, false, 17)
  }

  /** On any number of CPUs, one filtered reading of 2^63 after `last` was 0 is counted as a warp. */
  lemma WarpByLeap(cpus: nat, loops: nat, phase: Phase)
    requires cpus > 0 && loops > 0 && phase.check != 0
    ensures var w := Execution(OnePhase(cpus, loops, phase), LeapActs(cpus));
            !w.bypassed && |w.infos| == 1 && w.infos[0].warps == 1
  {
    hide Initial, Run, Solo, SoloActs, MainActs;
    var w0, w1 := Initial(OnePhase(cpus, loops, phase)), Execution(OnePhase(cpus, loops, phase), MainActs(3 + cpus));
    StartAll(cpus, loops, phase);
    RunConcat(w0, MainActs(3 + cpus), SoloActs(0, TWO63, false, 17));
    SoloInWorld(w1, 0, TWO63, false, 17);
    LeapAlone(loops, w1.flags, ViewOf(w1, 0));
  }

  /** No filtered schedule of clock values below `bound` counts a warp. */
  ghost predicate WarpFree(cpus: nat, loops: nat, phase: Phase, bound: int) {
    forall acts: seq<Action> ::
      var w := Execution(OnePhase(cpus, loops, phase), acts);
      !w.bypassed && RawsBelow(acts, bound) ==> NoWarps(w)
  }

  /** For any number of CPUs and iterations 2^63 is the largest bound on the host's clock under which
      the filter keeps the test free of warps. */
  lemma LargestSafeBound(cpus: nat, loops: nat, phase: Phase, bound: int)
    requires cpus > 0 && loops > 0 && phase.check != 0
    ensures WarpFree(cpus, loops, phase, bound) <==> bound <= TWO63
  {
    if bound <= TWO63 {
      forall acts: seq<Action> | var w := Execution(OnePhase(cpus, loops, phase), acts); !w.bypassed && RawsBelow(acts, bound)
        ensures NoWarps(Execution(OnePhase(cpus, loops, phase), acts))
      {
        NoWarpsThroughTheFilter(OnePhase(cpus, loops, phase), acts);
      }
    } else {
      WarpByLeap(cpus, loops, phase);
      assert RawsBelow(LeapActs(cpus), bound);
    }
  }
}
