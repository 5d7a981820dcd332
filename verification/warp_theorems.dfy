/** Whole-run properties of the test, over every interleaving, any number of CPUs, any number of
    iterations and any list of phases. */
module WarpTheorems {
  import opened Words
  import opened ClocksourceCall
  import opened WarpTest
  import opened WarpInvariants

  // ---------- The running phase ----------

  ghost predicate Accounts(cpus: seq<Worker>, ti: TestInfo, loops: nat, phase: nat) {
    && (forall o :: 0 <= o < |cpus| ==> Shape(cpus[o], loops, phase, ti.check))
    && LockOk(cpus, ti.lock) && WarpsOk(cpus, ti.warps) && WorstOk(cpus, ti.worst)
    && (|cpus| * loops < TWO64 ==> StallsOk(cpus, ti.stalls))
  }

  lemma AccountsKept(cpus: seq<Worker>, c: nat, loops: nat, phase: nat, sh: Shared, m: Moved)
    requires c < |cpus| && Accounts(cpus, sh.ti, loops, phase)
    requires Effects(c, cpus[c], sh, m, loops, phase)
    ensures Accounts(cpus[c := m.w], m.sh.ti, loops, phase)
  {
    CountsFollow(cpus[c], sh, m, loops, phase);
    LockKept(cpus, c, sh, m);
    WarpsKept(cpus, c, sh, m);
    WorstKept(cpus, c, loops, phase, sh, m);
    if |cpus| * loops < TWO64 {
      forall o | 0 <= o < |cpus| ensures |cpus[o].samples| <= loops {
        SamplesWithin(cpus[o], loops, phase, sh.ti.check);
      }
      SamplesWithin(m.w, loops, phase, m.sh.ti.check);
      StallsKept(cpus, c, loops, sh, m);
    }
  }

  lemma SamplesWithin(w: Worker, loops: nat, phase: nat, check: int)
    requires Shape(w, loops, phase, check)
    ensures |w.samples| <= loops
  {
  }

  lemma FreshAccounts(cpus: seq<Worker>, ti: TestInfo, loops: nat, phase: nat)
    requires forall o :: 0 <= o < |cpus| ==> cpus[o] == Fresh()
    requires ti.warps == 0 && ti.stalls == 0 && ti.worst == 0
    ensures Accounts(cpus, ti, loops, phase)
  {
    TotalZero(cpus, Warped);
    TotalZero(cpus, Stalled);
  }

  // ---------- The countdown barrier ----------

  /** CPUs below this index have not been dispatched in the current phase. */
  function Undispatched(main: Main, n: nat): nat {
    match main
    case Dispatch(left) => if left <= n then left else 0
    case Wait => 0
    case Return => 0
    case _ => n
  }

  ghost predicate Barrier(cpus: seq<Worker>, ti: TestInfo, main: Main, loops: nat) {
    var left := Undispatched(main, |cpus|);
    && (forall o :: 0 <= o < left ==> cpus[o] == Fresh())
    && (forall o :: left <= o < |cpus| && cpus[o].pc.Idle? ==> cpus[o].i == loops && cpus[o].check == ti.check)
    && (main.SetFlags? || main.SetCount? ==> ti == ZeroInfo())
    && (main.SetCheck? ==> ti == ZeroInfo().(ncpus := |cpus|))
    && (main.Dispatch? ==> main.left <= |cpus|)
    && (main.Dispatch? || main.Wait? || main.Return? ==> ti.ncpus == left + Total(cpus, Unfinished))
    && (main.Return? ==> ti.ncpus == 0)
  }

  lemma BarrierKept(cpus: seq<Worker>, c: nat, main: Main, loops: nat, phase: nat, sh: Shared, m: Moved)
    requires c < |cpus| && !cpus[c].pc.Idle? && Barrier(cpus, sh.ti, main, loops)
    requires OwnEffect(cpus[c], sh, m, loops, phase)
    ensures Barrier(cpus[c := m.w], m.sh.ti, main, loops)
    ensures !main.Return?
  {
    TotalUpdate(cpus, c, m.w, Unfinished);
    TotalZero(cpus, Unfinished);
    assert Unfinished(cpus[c]) == 1;
    assert Undispatched(main, |cpus|) <= c;
  }

  // ---------- Finished phases ----------

  ghost function NegativesOf(w: Worker): nat { Negatives(w.samples) }

  ghost function ZerosOf(w: Worker): nat { Zeros(w.samples) }

  /** Everything a finished `cycle_test` guarantees about its test_info and its return value. */
  ghost predicate PhaseDone(ti: TestInfo, cpus: seq<Worker>, result: int, loops: nat, check: int) {
    && (forall o :: 0 <= o < |cpus| ==> |cpus[o].samples| == if check == 0 then 0 else loops)
    && (forall o :: 0 <= o < |cpus| ==> cpus[o].calls == if check == 0 then loops else 2 * loops)
    && ti.ncpus == 0
    && ti.warps == Total(cpus, NegativesOf) % TWO64
    && result == (if ti.warps != 0 then 1 else 0)
    && ti.worst <= 0
    && (forall o, k :: 0 <= o < |cpus| && 0 <= k < |cpus[o].samples| ==> ti.worst <= Delta(cpus[o].samples[k]))
    && (ti.worst == 0 || Attained(cpus, ti.worst))
    && (|cpus| * loops < TWO64 ==>
          && ti.stalls <= Total(cpus, ZerosOf)
          && (Total(cpus, ZerosOf) > 0 ==> ti.stalls > 0)
          && (|cpus| == 1 ==> ti.stalls == Total(cpus, ZerosOf)))
  }

  lemma PhaseCompletes(cpus: seq<Worker>, ti: TestInfo, loops: nat, phase: nat)
    requires Accounts(cpus, ti, loops, phase) && Barrier(cpus, ti, Return, loops)
    ensures PhaseDone(ti, cpus, if ti.warps != 0 then 1 else 0, loops, ti.check)
  {
    TotalZero(cpus, Unfinished);
    forall o | 0 <= o < |cpus| ensures cpus[o].pc.Idle? {
      assert Unfinished(cpus[o]) == 0;
    }
    TotalAgrees(cpus, Warped, NegativesOf);
    TotalAgrees(cpus, Stalled, ZerosOf);
    forall o, k | 0 <= o < |cpus| && 0 <= k < |cpus[o].samples| ensures ti.worst <= Delta(cpus[o].samples[k]) {
      assert Compared(cpus[o], k);
    }
  }

  // ---------- The invariant of the whole system ----------

  ghost predicate Inv(w: World) {
    && |w.infos| == |w.phases|
    && w.phase == |w.results| == |w.past| <= |w.phases|
    && (forall q :: w.phase < q < |w.infos| ==> w.infos[q] == ZeroInfo())
    && (forall q :: 0 <= q < w.phase ==>
          |w.past[q]| == |w.cpus| && PhaseDone(w.infos[q], w.past[q], w.results[q], w.loops, w.phases[q].check))
    && (w.phase == |w.phases| ==> forall o :: 0 <= o < |w.cpus| ==> w.cpus[o] == Fresh())
    && (w.phase < |w.phases| ==>
          && Accounts(w.cpus, w.infos[w.phase], w.loops, w.phase)
          && Barrier(w.cpus, w.infos[w.phase], w.main, w.loops)
          && (w.main.Dispatch? || w.main.Wait? || w.main.Return? ==> w.infos[w.phase].check == w.phases[w.phase].check))
  }

  /** A CPU that is not running the test changes nothing. */
  lemma IdleCpuStutters(w: World, a: Action)
    requires a.ByCpu? && a.cpu < |w.cpus| && w.cpus[a.cpu].pc.Idle?
    ensures Step(w, a) == w
  {
    var x := w.cpus[a.cpu];
    if x.info < |w.infos| {
      assert w.infos[x.info := w.infos[x.info]] == w.infos;
      assert w.cpus[a.cpu := x] == w.cpus;
    }
  }

  /** The step of CPU `a.cpu` of `w`, seen by that CPU alone. */
  ghost function MoveOf(w: World, a: Action): Moved
    requires a.ByCpu? && a.cpu < |w.cpus| && w.phase < |w.infos|
  {
    WorkerMove(a.cpu, w.loops, w.flags, w.cpus[a.cpu], Shared(w.lastValue, w.bypassed, w.infos[w.phase]), a.raw, a.hostStable)
  }

  lemma CpuStepShape(w: World, a: Action)
    requires Inv(w) && a.ByCpu? && a.cpu < |w.cpus| && !w.cpus[a.cpu].pc.Idle?
    ensures w.phase < |w.phases| == |w.infos| && w.cpus[a.cpu].info == w.phase
    ensures Effects(a.cpu, w.cpus[a.cpu], Shared(w.lastValue, w.bypassed, w.infos[w.phase]), MoveOf(w, a), w.loops, w.phase)
    ensures var m := MoveOf(w, a);
            Step(w, a) == w.(lastValue := m.sh.lastValue, bypassed := m.sh.bypassed,
                             infos := w.infos[w.phase := m.sh.ti], cpus := w.cpus[a.cpu := m.w])
  {
    assert Shape(w.cpus[a.cpu], w.loops, w.phase, w.infos[w.phase].check);
    MoveEffects(a.cpu, w.loops, w.flags, w.cpus[a.cpu], Shared(w.lastValue, w.bypassed, w.infos[w.phase]), a.raw,
                a.hostStable, w.phase);
  }

  lemma CpuStepKeepsInv(w: World, a: Action)
    requires Inv(w) && a.ByCpu?
    ensures Inv(Step(w, a))
  {
    if a.cpu < |w.cpus| {
      if w.cpus[a.cpu].pc.Idle? {
        IdleCpuStutters(w, a);
      } else {
        CpuStepShape(w, a);
        var sh, m := Shared(w.lastValue, w.bypassed, w.infos[w.phase]), MoveOf(w, a);
        AccountsKept(w.cpus, a.cpu, w.loops, w.phase, sh, m);
        BarrierKept(w.cpus, a.cpu, w.main, w.loops, w.phase, sh, m);
      }
    }
  }

  lemma StartKeepsCounts(cpus: seq<Worker>, c: nat, phase: nat)
    requires c < |cpus| && cpus[c] == Fresh()
    ensures var cpus' := cpus[c := Started(phase)];
            && Total(cpus', Warped) == Total(cpus, Warped)
            && Total(cpus', Stalled) == Total(cpus, Stalled)
            && Total(cpus', Unfinished) == Total(cpus, Unfinished) + 1
  {
    TotalUpdate(cpus, c, Started(phase), Warped);
    TotalUpdate(cpus, c, Started(phase), Stalled);
    TotalUpdate(cpus, c, Started(phase), Unfinished);
  }

  lemma StartKeepsWorst(cpus: seq<Worker>, c: nat, phase: nat, worst: int)
    requires c < |cpus| && cpus[c] == Fresh() && WorstOk(cpus, worst)
    ensures WorstOk(cpus[c := Started(phase)], worst)
  {
    var cpus' := cpus[c := Started(phase)];
    forall o, k | 0 <= o < |cpus'| && Compared(cpus'[o], k) ensures worst <= Delta(cpus'[o].samples[k]) {
      assert Compared(cpus[o], k);
    }
    if worst != 0 {
      var o, k :| 0 <= o < |cpus| && 0 <= k < |cpus[o].samples| && Delta(cpus[o].samples[k]) == worst;
      assert cpus'[o].samples[k] == cpus[o].samples[k];
    }
  }

  lemma StartKeepsAccounts(cpus: seq<Worker>, c: nat, ti: TestInfo, loops: nat, phase: nat)
    requires c < |cpus| && cpus[c] == Fresh() && Accounts(cpus, ti, loops, phase)
    ensures Accounts(cpus[c := Started(phase)], ti, loops, phase)
  {
    hide Total, WorstOk;
    StartKeepsCounts(cpus, c, phase);
    StartKeepsWorst(cpus, c, phase, ti.worst);
  }

  lemma StartKeepsBarrier(cpus: seq<Worker>, ti: TestInfo, left: nat, loops: nat, phase: nat)
    requires left > 0 && Barrier(cpus, ti, Dispatch(left), loops)
    ensures Barrier(cpus[left - 1 := Started(phase)], ti, Dispatch(left - 1), loops)
  {
    hide Total;
    StartKeepsCounts(cpus, left - 1, phase);
  }

  lemma DispatchKeepsInv(w: World)
    requires Inv(w) && w.phase < |w.phases| && w.main.Dispatch?
    ensures Inv(MainMove(w))
  {
    hide Total, WorstOk, WarpsOk, StallsOk, LockOk, PhaseDone;
    var left := w.main.left;
    if left > 0 {
      assert w.cpus[left - 1] == Fresh();
      StartKeepsAccounts(w.cpus, left - 1, w.infos[w.phase], w.loops, w.phase);
      StartKeepsBarrier(w.cpus, w.infos[w.phase], left, w.loops, w.phase);
      assert MainMove(w) == w.(cpus := w.cpus[left - 1 := Started(w.phase)], main := Dispatch(left - 1));
    }
  }

  lemma ReturnKeepsInv(w: World)
    requires Inv(w) && w.phase < |w.phases| && w.main.Return?
    ensures Inv(MainMove(w))
  {
    var w', ti := MainMove(w), w.infos[w.phase];
    PhaseCompletes(w.cpus, ti, w.loops, w.phase);
    if w'.phase < |w.phases| {
      FreshAccounts(w'.cpus, w'.infos[w'.phase], w.loops, w'.phase);
    }
  }

  lemma SetupKeepsInv(w: World)
    requires Inv(w) && w.phase < |w.phases| && (w.main.SetFlags? || w.main.SetCount? || w.main.SetCheck? || w.main.Wait?)
    ensures Inv(MainMove(w))
  {
    var w' := MainMove(w);
    if !w.main.Wait? {
      TotalZero(w.cpus, Unfinished);
      FreshAccounts(w'.cpus, w'.infos[w.phase], w.loops, w.phase);
    }
  }

  lemma StepKeepsInv(w: World, a: Action)
    requires Inv(w)
    ensures Inv(Step(w, a))
  {
    if a.ByCpu? {
      CpuStepKeepsInv(w, a);
    } else if w.phase < |w.phases| {
      match w.main
      case Dispatch(_) => DispatchKeepsInv(w);
      case Return => ReturnKeepsInv(w);
      case _ => SetupKeepsInv(w);
    }
  }

  lemma {:induction false} RunKeepsInv(setup: Setup, acts: seq<Action>)
    ensures Inv(Execution(setup, acts))
  {
    var w := Initial(setup);
    if acts == [] {
      if setup.phases != [] {
        FreshAccounts(w.cpus, w.infos[0], setup.loops, 0);
      }
    } else {
      RunKeepsInv(setup, acts[..|acts| - 1]);
      StepKeepsInv(Execution(setup, acts[..|acts| - 1]), acts[|acts| - 1]);
    }
  }

  // ---------- Frozen results ----------

  /** Once a `cycle_test` has returned, no step of any CPU touches its test_info again. */
  lemma StepKeepsFinished(w: World, a: Action, q: nat)
    requires Inv(w) && q < w.phase
    ensures var w' := Step(w, a);
            && w.phase <= w'.phase && q < |w'.infos| && q < |w'.results|
            && w'.infos[q] == w.infos[q] && w'.results[q] == w.results[q]
  {
    if a.ByCpu? && a.cpu < |w.cpus| {
      if w.cpus[a.cpu].pc.Idle? { IdleCpuStutters(w, a); } else { CpuStepShape(w, a); }
    }
  }

  /** From the moment the wait loop of the current phase has exited, no step of any CPU touches its
      test_info either. */
  lemma StepKeepsAwaited(w: World, a: Action)
    requires Inv(w) && w.phase < |w.phases| && w.main.Return?
    ensures Step(w, a).infos == w.infos
  {
    if a.ByCpu? && a.cpu < |w.cpus| {
      if w.cpus[a.cpu].pc.Idle? {
        IdleCpuStutters(w, a);
      } else {
        CpuStepShape(w, a);
        BarrierKept(w.cpus, a.cpu, w.main, w.loops, w.phase, Shared(w.lastValue, w.bypassed, w.infos[w.phase]), MoveOf(w, a));
      }
    }
  }

  lemma {:induction false} FinishedPhasesAreFrozen(setup: Setup, acts: seq<Action>, k: nat, q: nat)
    requires k <= |acts| && q < Execution(setup, acts[..k]).phase
    ensures var w, w' := Execution(setup, acts[..k]), Execution(setup, acts);
            && q < |w.infos| && q < |w'.infos| && q < |w.results| && q < w'.phase && q < |w'.results|
            && w'.infos[q] == w.infos[q] && w'.results[q] == w.results[q]
    decreases |acts|
  {
    RunKeepsInv(setup, acts[..k]);
    if k == |acts| {
      assert acts[..k] == acts;
    } else {
      var before := acts[..|acts| - 1];
      assert before[..k] == acts[..k];
      FinishedPhasesAreFrozen(setup, before, k, q);
      RunKeepsInv(setup, before);
      StepKeepsFinished(Execution(setup, before), acts[|acts| - 1], q);
    }
  }

  // ---------- The barrier ----------

  /** At every step of every run `ncpus` counts the CPUs not yet dispatched plus those still running;
      when the wait loop has exited every CPU has run all its iterations. */
  lemma BarrierCounts(setup: Setup, acts: seq<Action>)
    ensures var w := Execution(setup, acts);
            w.phase < |w.phases| && (w.main.Dispatch? || w.main.Wait? || w.main.Return?) ==>
              && w.phase < |w.infos|
              && w.infos[w.phase].ncpus == Undispatched(w.main, |w.cpus|) + Total(w.cpus, Unfinished)
              && (w.main.Return? ==>
                    forall o :: 0 <= o < |w.cpus| ==>
                      w.cpus[o].pc.Idle? && w.cpus[o].i == setup.loops
                      && |w.cpus[o].samples| == (if w.phases[w.phase].check == 0 then 0 else setup.loops)
                      && w.cpus[o].calls == if w.phases[w.phase].check == 0 then setup.loops else 2 * setup.loops)
  {
    RunKeepsInv(setup, acts);
    RunKeepsSetup(setup, acts);
    var w := Execution(setup, acts);
    if w.phase < |w.phases| && w.main.Return? {
      TotalZero(w.cpus, Unfinished);
      forall o | 0 <= o < |w.cpus| ensures w.cpus[o].pc.Idle? {
        assert Unfinished(w.cpus[o]) == 0;
      }
    }
  }

  lemma StepKeepsSetup(w: World, a: Action)
    ensures var w' := Step(w, a); w'.loops == w.loops && w'.phases == w.phases && |w'.cpus| == |w.cpus|
  {
  }

  lemma {:induction false} RunKeepsSetup(setup: Setup, acts: seq<Action>)
    ensures var w := Execution(setup, acts);
            w.loops == setup.loops && w.phases == setup.phases && |w.cpus| == setup.cpus
  {
    if acts != [] {
      RunKeepsSetup(setup, acts[..|acts| - 1]);
      StepKeepsSetup(Execution(setup, acts[..|acts| - 1]), acts[|acts| - 1]);
    }
  }

  /** The spin lock's two critical sections are mutually exclusive on every test_info. */
  lemma MutualExclusion(setup: Setup, acts: seq<Action>, o1: nat, o2: nat)
    ensures var w := Execution(setup, acts);
            o1 < |w.cpus| && o2 < |w.cpus| && Holds(w.cpus[o1].pc) && Holds(w.cpus[o2].pc) ==> o1 == o2
  {
    RunKeepsInv(setup, acts);
  }

  // ---------- Exact accounting, for arbitrary clocks ----------

  ghost predicate SomeNegative(cpus: seq<Worker>) {
    exists o, k :: 0 <= o < |cpus| && 0 <= k < |cpus[o].samples| && Delta(cpus[o].samples[k]) < 0
  }

  ghost predicate SomeZero(cpus: seq<Worker>) {
    exists o, k :: 0 <= o < |cpus| && 0 <= k < |cpus[o].samples| && Delta(cpus[o].samples[k]) == 0
  }

  lemma TotalsDetect(cpus: seq<Worker>)
    ensures Total(cpus, NegativesOf) > 0 <==> SomeNegative(cpus)
    ensures Total(cpus, ZerosOf) > 0 <==> SomeZero(cpus)
  {
    TotalZero(cpus, NegativesOf);
    TotalZero(cpus, ZerosOf);
    forall o | 0 <= o < |cpus|
      ensures NegativesOf(cpus[o]) > 0 <==> exists k :: 0 <= k < |cpus[o].samples| && Delta(cpus[o].samples[k]) < 0
      ensures ZerosOf(cpus[o]) > 0 <==> exists k :: 0 <= k < |cpus[o].samples| && Delta(cpus[o].samples[k]) == 0
    {
      CountsWithin(cpus[o].samples);
    }
  }

  lemma NegativesBounded(cpus: seq<Worker>, loops: nat)
    requires forall o :: 0 <= o < |cpus| ==> |cpus[o].samples| <= loops
    ensures Total(cpus, NegativesOf) <= |cpus| * loops
  {
    forall o | 0 <= o < |cpus| ensures NegativesOf(cpus[o]) <= loops {
      CountsWithin(cpus[o].samples);
    }
    TotalWithin(cpus, NegativesOf, loops);
  }

  lemma Unwrapped(x: nat, y: int)
    requires x < TWO64 && y == x % TWO64
    ensures y == x
  {
  }

  /** The verdict of a finished phase in terms of its samples. */
  lemma PhaseVerdict(ti: TestInfo, cpus: seq<Worker>, result: int, loops: nat, check: int)
    requires PhaseDone(ti, cpus, result, loops, check)
    ensures ti.worst < 0 <==> SomeNegative(cpus)
    ensures !SomeNegative(cpus) ==> ti.warps == 0 && ti.worst == 0 && result == 0
    ensures |cpus| * loops < TWO64 ==>
              && ti.warps == Total(cpus, NegativesOf)
              && (result == 1 <==> SomeNegative(cpus))
              && (ti.warps > 0 <==> ti.worst < 0)
  {
    TotalsDetect(cpus);
    NegativesBounded(cpus, loops);
    if |cpus| * loops < TWO64 {
      Unwrapped(Total(cpus, NegativesOf), ti.warps);
    }
  }

  /** However the raw clocks behave, a finished `cycle_test` has counted its warps exactly (up to the
      counter's 64 bits), recorded the minimum of 0 and all deltas, and, when the counter cannot
      wrap, returned 1 exactly if some delta was negative, exactly if `worst` is below 0. */
  lemma ExactAccounting(setup: Setup, acts: seq<Action>, q: nat)
    requires q < |Execution(setup, acts).results|
    ensures var w := Execution(setup, acts);
            && q < |w.infos| && q < |w.past| && q < |setup.phases|
            && PhaseDone(w.infos[q], w.past[q], w.results[q], setup.loops, setup.phases[q].check)
            && (w.infos[q].worst < 0 <==> SomeNegative(w.past[q]))
            && (setup.cpus * setup.loops < TWO64 ==>
                  && w.infos[q].warps == Total(w.past[q], NegativesOf)
                  && (w.results[q] == 1 <==> SomeNegative(w.past[q]))
                  && (w.infos[q].warps > 0 <==> w.infos[q].worst < 0))
  {
    RunKeepsInv(setup, acts);
    RunKeepsSetup(setup, acts);
    var w := Execution(setup, acts);
    PhaseVerdict(w.infos[q], w.past[q], w.results[q], setup.loops, setup.phases[q].check);
  }

  /** The unlocked stall counter can lose increments but never invents one: it is at most the number
      of zero deltas, not 0 if there was one, and exact when only one CPU runs. */
  lemma StallsUndercount(setup: Setup, acts: seq<Action>, q: nat)
    requires setup.cpus * setup.loops < TWO64
    requires q < |Execution(setup, acts).results|
    ensures var w := Execution(setup, acts);
            && q < |w.infos| && q < |w.past|
            && w.infos[q].stalls <= Total(w.past[q], ZerosOf)
            && (w.infos[q].stalls > 0 <==> SomeZero(w.past[q]))
            && (setup.cpus == 1 ==> w.infos[q].stalls == Total(w.past[q], ZerosOf))
  {
    RunKeepsInv(setup, acts);
    RunKeepsSetup(setup, acts);
    TotalsDetect(Execution(setup, acts).past[q]);
  }

  // ---------- No warps through the filter ----------

  ghost predicate Forward(cpus: seq<Worker>) {
    forall o, k :: 0 <= o < |cpus| && 0 <= k < |cpus[o].samples| ==> cpus[o].samples[k].t0 <= cpus[o].samples[k].t1
  }

  ghost predicate OrderInv(w: World) {
    !w.bypassed ==>
      && (w.phase < |w.infos| ==> Ordered(w.cpus, w.infos[w.phase].last, w.lastValue))
      && (forall q :: 0 <= q < |w.past| ==> Forward(w.past[q]))
  }

  lemma OrderStep(w: World, a: Action)
    requires Inv(w) && OrderInv(w)
    ensures OrderInv(Step(w, a))
  {
    hide WorkerMove, WarpsOk, WorstOk, StallsOk, PhaseDone, Total;
    if a.ByCpu? {
      if a.cpu < |w.cpus| {
        if w.cpus[a.cpu].pc.Idle? {
          IdleCpuStutters(w, a);
        } else if !w.bypassed {
          CpuStepShape(w, a);
          var sh, m := Shared(w.lastValue, w.bypassed, w.infos[w.phase]), MoveOf(w, a);
          assert OrderOk(w.cpus[a.cpu], sh.ti.last, sh.lastValue);
          OrderEffect(a.cpu, w.loops, w.flags, w.cpus[a.cpu], sh, a.raw, a.hostStable);
          if !m.sh.bypassed {
            OrderKept(w.cpus, a.cpu, sh, m);
          }
        } else {
          CpuStepShape(w, a);
          BypassRemembered(a.cpu, w.loops, w.flags, w.cpus[a.cpu], Shared(w.lastValue, w.bypassed, w.infos[w.phase]), a.raw,
                           a.hostStable);
        }
      }
    } else if !w.bypassed && w.phase < |w.phases| {
      assert forall o :: 0 <= o < |w.cpus| ==> OrderOk(w.cpus[o], w.infos[w.phase].last, w.lastValue);
      assert Forward(w.cpus);
    }
  }

  lemma BypassRemembered(id: nat, loops: nat, flags: Flags, w: Worker, sh: Shared, raw: u64, hs: bool)
    requires sh.bypassed
    ensures WorkerMove(id, loops, flags, w, sh, raw, hs).sh.bypassed
  {
  }

  lemma {:induction false} RunKeepsOrder(setup: Setup, acts: seq<Action>)
    ensures OrderInv(Execution(setup, acts))
  {
    if acts != [] {
      RunKeepsOrder(setup, acts[..|acts| - 1]);
      RunKeepsInv(setup, acts[..|acts| - 1]);
      OrderStep(Execution(setup, acts[..|acts| - 1]), acts[|acts| - 1]);
    }
  }

  /** t1 is at least the `last` it is compared with, and the delta is negative exactly when they are
      2^63 or more apart. */
  predicate MovesForward(s: Sample) {
    s.t0 <= s.t1 && (Delta(s) < 0 <==> s.t1 - s.t0 >= TWO63)
  }

  /** If no reading of a run has skipped the filter then in every interleaving, at every moment, every
      sample of every CPU moves forward: in the running phase and in the finished ones. */
  lemma FilteredSamplesMoveForward(setup: Setup, acts: seq<Action>)
    requires !Execution(setup, acts).bypassed
    ensures var w := Execution(setup, acts);
            && (forall o, k :: 0 <= o < |w.cpus| && 0 <= k < |w.cpus[o].samples| ==> MovesForward(w.cpus[o].samples[k]))
            && (forall q, o, k :: 0 <= q < |w.past| && 0 <= o < |w.past[q]| && 0 <= k < |w.past[q][o].samples| ==>
                  MovesForward(w.past[q][o].samples[k]))
  {
    RunKeepsInv(setup, acts);
    RunKeepsOrder(setup, acts);
    var w := Execution(setup, acts);
    hide Execution;
    forall o, k | 0 <= o < |w.cpus| && 0 <= k < |w.cpus[o].samples| ensures MovesForward(w.cpus[o].samples[k]) {
      assert OrderOk(w.cpus[o], w.infos[w.phase].last, w.lastValue);
    }
    forall q, o, k | 0 <= q < |w.past| && 0 <= o < |w.past[q]| && 0 <= k < |w.past[q][o].samples|
      ensures MovesForward(w.past[q][o].samples[k])
    {
      assert Forward(w.past[q]);
    }
  }

  /** The flags in force are those set before the first phase or by some phase. */
  ghost predicate KnownFlags(w: World) {
    w.flags == Flags(false, false) || exists p :: 0 <= p < |w.phases| && w.flags == w.phases[p].flags
  }

  lemma StepKeepsFlags(w: World, a: Action)
    requires KnownFlags(w)
    ensures KnownFlags(Step(w, a))
    ensures (a.ByCpu? ==> !Bypasses(w.flags, a.hostStable)) ==> Step(w, a).bypassed == w.bypassed
  {
    StepKeepsSetup(w, a);
  }

  /** No reading skips the filter if at no step the host's bit meets a phase that sets the guest's. */
  lemma {:induction false} FilteredUnlessBothBits(setup: Setup, acts: seq<Action>)
    requires forall a, p :: a in acts && a.ByCpu? && 0 <= p < |setup.phases| ==> !Bypasses(setup.phases[p].flags, a.hostStable)
    ensures !Execution(setup, acts).bypassed && KnownFlags(Execution(setup, acts))
  {
    if acts != [] {
      var before, a := acts[..|acts| - 1], acts[|acts| - 1];
      assert forall x :: x in before ==> x in acts;
      FilteredUnlessBothBits(setup, before);
      RunKeepsSetup(setup, before);
      assert a in acts;
      StepKeepsFlags(Execution(setup, before), a);
    }
  }

  /** No reading skips the filter while the host never publishes the stable bit. */
  lemma UnstableHostIsFiltered(setup: Setup, acts: seq<Action>)
    requires forall a :: a in acts && a.ByCpu? ==> !a.hostStable
    ensures !Execution(setup, acts).bypassed
  {
    FilteredUnlessBothBits(setup, acts);
  }

  // ---------- The raw-cycle phases are not raw ----------

  function WithoutRaw(phases: seq<Phase>): seq<Phase> {
    seq(|phases|, p requires 0 <= p < |phases| => Phase(Flags(phases[p].flags.tscStable, false), phases[p].check))
  }

  /** `w` with the raw-cycle bit removed from its flags and phases. */
  function Unraw(w: World): World {
    w.(flags := Flags(w.flags.tscStable, false), phases := WithoutRaw(w.phases))
  }

  lemma RawBitUnused(id: nat, loops: nat, flags: Flags, w: Worker, sh: Shared, raw: u64, hs: bool)
    ensures WorkerMove(id, loops, Flags(flags.tscStable, false), w, sh, raw, hs) == WorkerMove(id, loops, flags, w, sh, raw, hs)
  {
  }

  lemma CpuIgnoresRawBit(w: World, cpu: nat, raw: u64, hostStable: bool)
    ensures CpuMove(Unraw(w), cpu, raw, hostStable) == Unraw(CpuMove(w, cpu, raw, hostStable))
  {
    hide WorkerMove, WithoutRaw;
    if cpu < |w.cpus| && w.cpus[cpu].info < |w.infos| {
      var x := w.cpus[cpu];
      RawBitUnused(cpu, w.loops, w.flags, x, Shared(w.lastValue, w.bypassed, w.infos[x.info]), raw, hostStable);
    }
  }

  lemma MainIgnoresRawBit(w: World)
    ensures MainMove(Unraw(w)) == Unraw(MainMove(w))
  {
    var u := Unraw(w);
    assert |u.phases| == |w.phases|;
    assert w.phase < |w.phases| ==>
        u.phases[w.phase] == Phase(Flags(w.phases[w.phase].flags.tscStable, false), w.phases[w.phase].check);
    hide WithoutRaw, Fresh;
    match w.main {
      case SetFlags =>
      case SetCount =>
      case SetCheck =>
      case Dispatch(_) =>
      case Wait =>
      case Return =>
    }
  }

  lemma StepIgnoresRawBit(w: World, a: Action)
    ensures Step(Unraw(w), a) == Unraw(Step(w, a))
  {
    hide MainMove, CpuMove, Unraw;
    match a
    case ByMain =>
      MainIgnoresRawBit(w);
    case ByCpu(cpu, raw, hostStable) =>
      CpuIgnoresRawBit(w, cpu, raw, hostStable);
  }

  /** Setting PVCLOCK_RAW_CYCLE_BIT has no effect on any run: the "raw cycle" phases test the same
      clock as the "monotonic" ones. */
  lemma {:induction false} RawCycleBitIsIgnored(setup: Setup, acts: seq<Action>)
    ensures Execution(setup.(phases := WithoutRaw(setup.phases)), acts) == Unraw(Execution(setup, acts))
  {
    if acts != [] {
      RawCycleBitIsIgnored(setup, acts[..|acts| - 1]);
      StepIgnoresRawBit(Execution(setup, acts[..|acts| - 1]), acts[|acts| - 1]);
    }
  }

  // ---------- Clock values below 2^63 ----------

  ghost predicate RawsBelow(acts: seq<Action>, bound: int) {
    forall a :: a in acts && a.ByCpu? ==> a.raw < bound
  }

  ghost predicate RangeInv(w: World, bound: int) {
    && w.lastValue < bound
    && (forall o :: 0 <= o < |w.cpus| ==> Below(w.cpus[o], bound))
    && (forall q, o, k :: 0 <= q < |w.past| && 0 <= o < |w.past[q]| && 0 <= k < |w.past[q][o].samples| ==>
          w.past[q][o].samples[k].t1 < bound)
  }

  lemma RangeStep(w: World, a: Action, bound: int)
    requires bound > 0 && Inv(w) && RangeInv(w, bound) && (a.ByCpu? ==> a.raw < bound)
    ensures RangeInv(Step(w, a), bound)
  {
    hide Inv, WorkerMove;
    if a.ByCpu? {
      if a.cpu < |w.cpus| {
        if w.cpus[a.cpu].pc.Idle? {
          IdleCpuStutters(w, a);
        } else {
          CpuStepShape(w, a);
          MoveKeepsBelow(a.cpu, w.loops, w.flags, w.cpus[a.cpu], Shared(w.lastValue, w.bypassed, w.infos[w.phase]), a.raw,
                         a.hostStable, bound);
        }
      }
    } else if w.phase < |w.phases| {
      assert forall o, k :: 0 <= o < |w.cpus| && 0 <= k < |w.cpus[o].samples| ==> w.cpus[o].samples[k].t1 < bound by {
        forall o, k | 0 <= o < |w.cpus| && 0 <= k < |w.cpus[o].samples| ensures w.cpus[o].samples[k].t1 < bound {
          assert Below(w.cpus[o], bound);
        }
      }
    }
  }

  lemma {:induction false} RunKeepsRange(setup: Setup, acts: seq<Action>, bound: int)
    requires setup.lastValue < bound && RawsBelow(acts, bound)
    ensures RangeInv(Execution(setup, acts), bound)
  {
    if acts != [] {
      var before := acts[..|acts| - 1];
      assert forall a :: a in before ==> a in acts;
      RunKeepsRange(setup, before, bound);
      RunKeepsInv(setup, before);
      assert acts[|acts| - 1] in acts;
      RangeStep(Execution(setup, before), acts[|acts| - 1], bound);
    }
  }

  /** With no negative delta so far the running phase has counted none. */
  lemma NothingCounted(cpus: seq<Worker>, ti: TestInfo, loops: nat, phase: nat)
    requires Accounts(cpus, ti, loops, phase) && !SomeNegative(cpus)
    ensures ti.warps == 0 && ti.worst == 0
  {
    forall o | 0 <= o < |cpus| ensures Warped(cpus[o]) == 0 {
      CountsWithin(cpus[o].samples);
    }
    TotalZero(cpus, Warped);
  }

  /** No warp has been counted or reported. */
  ghost predicate NoWarps(w: World) {
    && (forall q :: 0 <= q < |w.infos| ==> w.infos[q].warps == 0 && w.infos[q].worst == 0)
    && (forall q :: 0 <= q < |w.results| ==> w.results[q] == 0)
  }

  /** No sample, in the running phase or a finished one, has a negative delta. */
  ghost predicate NoneNegative(w: World) {
    !SomeNegative(w.cpus) && forall q :: 0 <= q < |w.past| ==> !SomeNegative(w.past[q])
  }

  lemma NoWarpsIfNoneNegative(setup: Setup, acts: seq<Action>)
    requires NoneNegative(Execution(setup, acts))
    ensures NoWarps(Execution(setup, acts))
  {
    RunKeepsInv(setup, acts);
    var w := Execution(setup, acts);
    hide Execution, SomeNegative;
    forall q | 0 <= q < |w.past| ensures w.infos[q].warps == 0 && w.infos[q].worst == 0 && w.results[q] == 0 {
      PhaseVerdict(w.infos[q], w.past[q], w.results[q], w.loops, w.phases[q].check);
    }
    if w.phase < |w.phases| {
      NothingCounted(w.cpus, w.infos[w.phase], w.loops, w.phase);
    }
  }

  /** The property the test is for: in every interleaving of any number of CPUs, if every reading goes
      through the filter and every clock value is below 2^63, then at every moment no phase, running or
      finished, has counted a warp, every `worst` is 0 and every `cycle_test` that has returned returned
      0.  `last_value` carries over from phase to phase and from the readings before the first. */
  lemma NoWarpsThroughTheFilter(setup: Setup, acts: seq<Action>)
    requires setup.lastValue < TWO63 && RawsBelow(acts, TWO63)
    requires !Execution(setup, acts).bypassed
    ensures NoWarps(Execution(setup, acts))
  {
    RunKeepsRange(setup, acts, TWO63);
    FilteredSamplesMoveForward(setup, acts);
    var w := Execution(setup, acts);
    assert NoneNegative(w) by {
      hide Execution;
      forall o, k | 0 <= o < |w.cpus| && 0 <= k < |w.cpus[o].samples| ensures Delta(w.cpus[o].samples[k]) >= 0 {
        assert Below(w.cpus[o], TWO63) && MovesForward(w.cpus[o].samples[k]);
      }
    }
    NoWarpsIfNoneNegative(setup, acts);
  }

  /** `test_kvm_clock` itself: four phases, on a host that never publishes the stable bit. */
  lemma DriverTestPasses(cpus: nat, loops: nat, lastValue: u64, acts: seq<Action>)
    requires lastValue < TWO63 && RawsBelow(acts, TWO63)
    requires forall a :: a in acts && a.ByCpu? ==> !a.hostStable
    ensures var w := Execution(Setup(cpus, loops, DriverPhases(), lastValue), acts);
            |w.infos| == 4 && |w.results| <= 4 && NoWarps(w)
  {
    var setup := Setup(cpus, loops, DriverPhases(), lastValue);
    UnstableHostIsFiltered(setup, acts);
    NoWarpsThroughTheFilter(setup, acts);
    RunKeepsInv(setup, acts);
    RunKeepsSetup(setup, acts);
  }

  /** While a phase runs the flags are its own. */
  lemma {:induction false} PhaseUsesItsFlags(setup: Setup, acts: seq<Action>)
    ensures var w := Execution(setup, acts);
            w.phase < |setup.phases| && !w.main.SetFlags? ==> w.flags == setup.phases[w.phase].flags
  {
    if acts != [] {
      var before := acts[..|acts| - 1];
      PhaseUsesItsFlags(setup, before);
      RunKeepsInv(setup, before);
      RunKeepsSetup(setup, before);
      StepKeepsOwnFlags(Execution(setup, before), acts[|acts| - 1]);
    }
  }

  lemma StepKeepsOwnFlags(w: World, a: Action)
    requires Inv(w) && (w.phase < |w.phases| && !w.main.SetFlags? ==> w.flags == w.phases[w.phase].flags)
    ensures var w' := Step(w, a);
            w'.phases == w.phases && (w'.phase < |w'.phases| && !w'.main.SetFlags? ==> w'.flags == w'.phases[w'.phase].flags)
  {
    hide WorkerMove, Accounts, Barrier, PhaseDone;
  }

  /** Of the driver's four phases the first two compare `loops` samples on every CPU and the last two
      only read the clock `loops` times; the guest's stable bit is set in all of them, and the raw-cycle bit in the first and third. */
  lemma DriverPhasesRun(cpus: nat, loops: nat, lastValue: u64, acts: seq<Action>)
    ensures var w := Execution(Setup(cpus, loops, DriverPhases(), lastValue), acts);
            && |w.past| <= 4
            && (forall q :: 0 <= q < |w.past| ==> |w.past[q]| == cpus)
            && (forall q, o :: 0 <= q < |w.past| && 0 <= o < |w.past[q]| ==>
                  |w.past[q][o].samples| == (if q < 2 then loops else 0)
                  && w.past[q][o].calls == if q < 2 then 2 * loops else loops)
            && (w.phase < 4 && !w.main.SetFlags? ==> w.flags.tscStable && (w.flags.rawCycle <==> w.phase % 2 == 0))
  {
    var setup := Setup(cpus, loops, DriverPhases(), lastValue);
    RunKeepsInv(setup, acts);
    RunKeepsSetup(setup, acts);
    PhaseUsesItsFlags(setup, acts);
    var w := Execution(setup, acts);
    hide Execution;
    forall q | 0 <= q < |w.past|
      ensures |w.past[q]| == cpus
      ensures forall o :: 0 <= o < |w.past[q]| ==>
                |w.past[q][o].samples| == (if q < 2 then loops else 0) && w.past[q][o].calls == if q < 2 then 2 * loops else loops
    {
      assert PhaseDone(w.infos[q], w.past[q], w.results[q], w.loops, w.phases[q].check);
      assert w.phases[q].check == 0 <==> q >= 2;
    }
  }
}
