/** What every step of the test keeps.  Each invariant speaks of one phase's CPUs and test_info, and
    is preserved by a lemma of its own about one CPU's step. */
module WarpInvariants {
  import opened Words
  import opened ClocksourceCall
  import opened WarpTest

  // ---------- Sums over the CPUs ----------

  ghost function Total(cpus: seq<Worker>, f: Worker -> nat): nat {
    if cpus == [] then 0 else Total(cpus[..|cpus| - 1], f) + f(cpus[|cpus| - 1])
  }

  lemma {:induction false} TotalUpdate(cpus: seq<Worker>, c: nat, x: Worker, f: Worker -> nat)
    requires c < |cpus|
    ensures Total(cpus[c := x], f) == Total(cpus, f) - f(cpus[c]) + f(x)
  {
    var k := |cpus| - 1;
    if c == k {
      assert cpus[c := x][..k] == cpus[..k];
    } else {
      assert cpus[c := x][..k] == cpus[..k][c := x];
      TotalUpdate(cpus[..k], c, x, f);
    }
  }

  lemma {:induction false} TotalWithin(cpus: seq<Worker>, f: Worker -> nat, bound: nat)
    requires forall i :: 0 <= i < |cpus| ==> f(cpus[i]) <= bound
    ensures Total(cpus, f) <= |cpus| * bound
  {
    if cpus != [] {
      TotalWithin(cpus[..|cpus| - 1], f, bound);
      assert |cpus| * bound == (|cpus| - 1) * bound + bound;
    }
  }

  lemma {:induction false} TotalZero(cpus: seq<Worker>, f: Worker -> nat)
    ensures Total(cpus, f) == 0 <==> forall i :: 0 <= i < |cpus| ==> f(cpus[i]) == 0
  {
    if cpus != [] {
      var k := |cpus| - 1;
      TotalZero(cpus[..k], f);
      if forall i :: 0 <= i < k ==> f(cpus[..k][i]) == 0 {
        assert forall i :: 0 <= i < k ==> f(cpus[i]) == f(cpus[..k][i]);
      } else {
        var i :| 0 <= i < k && f(cpus[..k][i]) != 0;
        assert f(cpus[i]) != 0;
      }
    }
  }

  lemma {:induction false} TotalAgrees(cpus: seq<Worker>, f: Worker -> nat, g: Worker -> nat)
    requires forall i :: 0 <= i < |cpus| ==> f(cpus[i]) == g(cpus[i])
    ensures Total(cpus, f) == Total(cpus, g)
  {
    if cpus != [] {
      TotalAgrees(cpus[..|cpus| - 1], f, g);
    }
  }

  // ---------- Counting samples ----------

  ghost function Negatives(samples: seq<Sample>): nat {
    if samples == [] then 0
    else Negatives(samples[..|samples| - 1]) + if Delta(samples[|samples| - 1]) < 0 then 1 else 0
  }

  ghost function Zeros(samples: seq<Sample>): nat {
    if samples == [] then 0
    else Zeros(samples[..|samples| - 1]) + if Delta(samples[|samples| - 1]) == 0 then 1 else 0
  }

  lemma CountExtended(samples: seq<Sample>, s: Sample)
    ensures Negatives(samples + [s]) == Negatives(samples) + if Delta(s) < 0 then 1 else 0
    ensures Zeros(samples + [s]) == Zeros(samples) + if Delta(s) == 0 then 1 else 0
  {
    assert (samples + [s])[..|samples|] == samples;
  }

  lemma {:induction false} CountsWithin(samples: seq<Sample>)
    ensures Negatives(samples) <= |samples| && Zeros(samples) <= |samples|
    ensures Negatives(samples) > 0 <==> exists k :: 0 <= k < |samples| && Delta(samples[k]) < 0
    ensures Zeros(samples) > 0 <==> exists k :: 0 <= k < |samples| && Delta(samples[k]) == 0
  {
    if samples != [] {
      var before := samples[..|samples| - 1];
      CountsWithin(before);
      assert forall k :: 0 <= k < |before| ==> samples[k] == before[k];
    }
  }

  // ---------- Program points ----------

  predicate Holds(pc: Pc) {
    pc.Read1? || pc.LoadLast? || pc.Read2? || pc.StoreLast? || pc.Unlock1?
    || pc.LoadWarps? || pc.StoreWarps? || pc.LoadWorst? || pc.StoreWorst? || pc.Unlock2?
  }

  /** The current iteration's sample has been recorded. */
  predicate Sampled(pc: Pc) {
    pc.Judge? || pc.Lock2? || pc.LoadWarps? || pc.StoreWarps? || pc.LoadWorst? || pc.StoreWorst? || pc.Unlock2?
    || pc.LoadStalls? || pc.StoreStalls? || pc.Advance?
  }

  predicate OnNegative(pc: Pc) {
    pc.Lock2? || pc.LoadWarps? || pc.StoreWarps? || pc.LoadWorst? || pc.StoreWorst? || pc.Unlock2?
  }

  /** The last sample's warp is still to be counted. */
  predicate OwesWarp(w: Worker) {
    (w.pc.Judge? || w.pc.Lock2? || w.pc.LoadWarps? || w.pc.StoreWarps?) && Delta(Sample(w.t1, w.t0)) < 0
  }

  /** The last sample is still to be compared with `worst`. */
  predicate OwesWorst(pc: Pc) {
    pc.Judge? || pc.Lock2? || pc.LoadWarps? || pc.StoreWarps? || pc.LoadWorst? || pc.StoreWorst?
  }

  /** The last sample's stall is still to be counted. */
  predicate OwesStall(w: Worker) {
    (w.pc.Judge? || w.pc.LoadStalls? || w.pc.StoreStalls?) && Delta(Sample(w.t1, w.t0)) == 0
  }

  ghost function Minus(n: nat, owed: bool): nat { if owed && n > 0 then n - 1 else n }

  /** Negative samples already counted in `warps`. */
  ghost function Warped(w: Worker): nat { Minus(Negatives(w.samples), OwesWarp(w)) }

  /** Zero samples whose `++stalls` has been executed. */
  ghost function Stalled(w: Worker): nat { Minus(Zeros(w.samples), OwesStall(w)) }

  ghost function Unfinished(w: Worker): nat { if w.pc.Idle? then 0 else 1 }

  predicate Reading(pc: Pc) { pc.Read1? || pc.Read2? || pc.PlainRead? }

  // ---------- Shape: one CPU on its own ----------

  /** Clock reads of the current iteration already completed. */
  function ReadsOf(pc: Pc): nat {
    if pc.LoadLast? || pc.Read2? then 1 else if pc.StoreLast? || pc.Unlock1? || Sampled(pc) then 2 else 0
  }

  ghost predicate Shape(w: Worker, loops: nat, phase: nat, check: int) {
    && (!w.pc.Idle? ==> w.info == phase)
    && CallOk(w.call)
    && (Reading(w.pc) ==> !w.call.Done?)
    && (w.pc.Entry? ==> w.i == 0 && w.samples == [])
    && (!w.pc.Idle? && !w.pc.Entry? ==> w.check == check)
    && w.i <= loops
    && (w.pc.Finish? ==> w.i == loops)
    && (!w.pc.Idle? && !w.pc.Entry? && !w.pc.Loop? && !w.pc.Finish? ==> w.i < loops)
    && (w.pc.PlainRead? ==> w.check == 0)
    && (Holds(w.pc) || Sampled(w.pc) || w.pc.Lock1? ==> w.check != 0)
    && |w.samples| == (if w.check == 0 || w.pc.Entry? then 0 else w.i + if Sampled(w.pc) then 1 else 0)
    && w.calls == (if w.pc.Entry? then 0 else if w.check == 0 then w.i else 2 * w.i + ReadsOf(w.pc))
    && (Sampled(w.pc) ==> w.samples[|w.samples| - 1] == Sample(w.t1, w.t0))
    && (OnNegative(w.pc) ==> Delta(Sample(w.t1, w.t0)) < 0)
    && (w.pc.LoadStalls? || w.pc.StoreStalls? ==> Delta(Sample(w.t1, w.t0)) == 0)
  }

  // ---------- What one step of one CPU does, aspect by aspect ----------

  /** The CPU's own bookkeeping: shape, and its part in the `ncpus` countdown. */
  ghost predicate OwnEffect(w: Worker, sh: Shared, m: Moved, loops: nat, phase: nat) {
    && Shape(m.w, loops, phase, m.sh.ti.check) && m.sh.ti.check == sh.ti.check
    && (m.w.pc.Idle? ==> m.w == w || (m.w.i == loops && m.w.check == sh.ti.check))
    && m.sh.ti.ncpus == sh.ti.ncpus - Unfinished(w) + Unfinished(m.w)
    && m.w.samples == if w.pc.Unlock1? then w.samples + [Sample(w.t1, w.t0)] else w.samples
  }

  /** The lock is respected: its holder's fields do not change under it. */
  ghost predicate LockEffect(id: nat, w: Worker, sh: Shared, m: Moved) {
    && (Holds(m.w.pc) ==> m.sh.ti.lock == HeldBy(id))
    && forall o: nat :: o != id && sh.ti.lock == HeldBy(o) ==>
         && m.sh.ti.lock == HeldBy(o)
         && m.sh.ti.last == sh.ti.last && m.sh.ti.warps == sh.ti.warps && m.sh.ti.worst == sh.ti.worst
  }

  ghost predicate WarpEffect(w: Worker, sh: Shared, m: Moved) {
    && (w.pc.StoreWarps? ==> OwesWarp(w))
    && (OwesWarp(m.w) <==> (OwesWarp(w) && !w.pc.StoreWarps?) || (w.pc.Unlock1? && Delta(Sample(w.t1, w.t0)) < 0))
    && m.sh.ti.warps == (if w.pc.StoreWarps? then Successor(w.tmp) else sh.ti.warps)
    && (m.w.pc.StoreWarps? ==> !w.pc.StoreWarps? && m.w.tmp == sh.ti.warps)
  }

  ghost predicate StallEffect(w: Worker, sh: Shared, m: Moved) {
    && (w.pc.StoreStalls? ==> OwesStall(w))
    && (OwesStall(m.w) <==> (OwesStall(w) && !w.pc.StoreStalls?) || (w.pc.Unlock1? && Delta(Sample(w.t1, w.t0)) == 0))
    && m.sh.ti.stalls == (if w.pc.StoreStalls? then Successor(w.tmp) else sh.ti.stalls)
    && (m.w.pc.StoreStalls? ==> !w.pc.StoreStalls? && m.w.tmp == sh.ti.stalls)
  }

  ghost predicate WorstEffect(w: Worker, sh: Shared, m: Moved) {
    var delta := Delta(Sample(w.t1, w.t0));
    && m.sh.ti.worst == (if w.pc.StoreWorst? then delta else sh.ti.worst)
    && (OwesWorst(w.pc) ==> m.w.t1 == w.t1 && m.w.t0 == w.t0)
    && (OwesWorst(w.pc) && !OwesWorst(m.w.pc) && sh.ti.worst <= 0 ==> m.sh.ti.worst <= delta)
    && (OwesWorst(m.w.pc) && !OwesWorst(w.pc) ==> w.pc.Unlock1?)
    && (w.pc.Unlock1? ==> OwesWorst(m.w.pc))
    && (m.w.pc.StoreWorst? ==> w.pc.LoadWorst? && delta < sh.ti.worst)
  }

  /** Every aspect of one step. */
  ghost predicate Effects(id: nat, w: Worker, sh: Shared, m: Moved, loops: nat, phase: nat) {
    && OwnEffect(w, sh, m, loops, phase) && LockEffect(id, w, sh, m)
    && WarpEffect(w, sh, m) && StallEffect(w, sh, m) && WorstEffect(w, sh, m)
  }

  lemma LoopEffects(id: nat, loops: nat, flags: Flags, w: Worker, sh: Shared, raw: u64, hs: bool, phase: nat)
    requires Shape(w, loops, phase, sh.ti.check) && !InSample(w.pc) && !InCount(w.pc)
    ensures Effects(id, w, sh, LoopMove(loops, flags, w, sh, raw, hs), loops, phase)
  {
    var m := LoopMove(loops, flags, w, sh, raw, hs);
    assert Shape(m.w, loops, phase, m.sh.ti.check);
    assert LockEffect(id, w, sh, m);
    assert WarpEffect(w, sh, m);
    assert StallEffect(w, sh, m);
    assert WorstEffect(w, sh, m);
  }

  lemma SampleEffects(id: nat, loops: nat, flags: Flags, w: Worker, sh: Shared, raw: u64, hs: bool, phase: nat)
    requires Shape(w, loops, phase, sh.ti.check) && InSample(w.pc)
    requires Holds(w.pc) ==> sh.ti.lock == HeldBy(id)
    ensures Effects(id, w, sh, SampleMove(id, flags, w, sh, raw, hs), loops, phase)
  {
    var m := SampleMove(id, flags, w, sh, raw, hs);
    assert Shape(m.w, loops, phase, m.sh.ti.check);
    assert LockEffect(id, w, sh, m);
    assert WarpEffect(w, sh, m);
    assert StallEffect(w, sh, m);
    assert WorstEffect(w, sh, m);
  }

  lemma CountEffects(id: nat, loops: nat, w: Worker, sh: Shared, phase: nat)
    requires Shape(w, loops, phase, sh.ti.check) && InCount(w.pc)
    requires Holds(w.pc) ==> sh.ti.lock == HeldBy(id)
    ensures Effects(id, w, sh, CountMove(id, w, sh), loops, phase)
  {
    var m := CountMove(id, w, sh);
    assert Shape(m.w, loops, phase, m.sh.ti.check);
    assert LockEffect(id, w, sh, m);
    assert WarpEffect(w, sh, m);
    assert StallEffect(w, sh, m);
    assert WorstEffect(w, sh, m);
  }

  lemma MoveEffects(id: nat, loops: nat, flags: Flags, w: Worker, sh: Shared, raw: u64, hs: bool, phase: nat)
    requires Shape(w, loops, phase, sh.ti.check)
    requires Holds(w.pc) ==> sh.ti.lock == HeldBy(id)
    ensures Effects(id, w, sh, WorkerMove(id, loops, flags, w, sh, raw, hs), loops, phase)
  {
    if InSample(w.pc) {
      SampleEffects(id, loops, flags, w, sh, raw, hs, phase);
    } else if InCount(w.pc) {
      CountEffects(id, loops, w, sh, phase);
    } else {
      LoopEffects(id, loops, flags, w, sh, raw, hs, phase);
    }
  }

  lemma LastCounts(samples: seq<Sample>)
    requires samples != []
    ensures Delta(samples[|samples| - 1]) < 0 ==> Negatives(samples) > 0
    ensures Delta(samples[|samples| - 1]) == 0 ==> Zeros(samples) > 0
  {
  }

  /** A step completes a count exactly when it stores it. */
  lemma CountsFollow(w: Worker, sh: Shared, m: Moved, loops: nat, phase: nat)
    requires Shape(w, loops, phase, sh.ti.check) && OwnEffect(w, sh, m, loops, phase)
    requires WarpEffect(w, sh, m) && StallEffect(w, sh, m)
    ensures Warped(m.w) == Warped(w) + (if w.pc.StoreWarps? then 1 else 0)
    ensures Stalled(m.w) == Stalled(w) + (if w.pc.StoreStalls? then 1 else 0)
  {
    if w.pc.Unlock1? {
      CountExtended(w.samples, Sample(w.t1, w.t0));
    } else if Sampled(w.pc) {
      LastCounts(w.samples);
    }
  }

  // ---------- Mutual exclusion ----------

  ghost predicate LockOk(cpus: seq<Worker>, lock: Lock) {
    forall o :: 0 <= o < |cpus| && Holds(cpus[o].pc) ==> lock == HeldBy(o)
  }

  lemma LockKept(cpus: seq<Worker>, c: nat, sh: Shared, m: Moved)
    requires c < |cpus| && LockOk(cpus, sh.ti.lock) && LockEffect(c, cpus[c], sh, m)
    ensures LockOk(cpus[c := m.w], m.sh.ti.lock)
  {
  }

  // ---------- Warp accounting ----------

  ghost predicate WarpsOk(cpus: seq<Worker>, warps: u64) {
    && warps == Total(cpus, Warped) % TWO64
    && forall o :: 0 <= o < |cpus| && cpus[o].pc.StoreWarps? ==> cpus[o].tmp == warps
  }

  lemma WarpsKept(cpus: seq<Worker>, c: nat, sh: Shared, m: Moved)
    requires c < |cpus| && LockOk(cpus, sh.ti.lock) && WarpsOk(cpus, sh.ti.warps)
    requires LockEffect(c, cpus[c], sh, m) && WarpEffect(cpus[c], sh, m)
    requires Warped(m.w) == Warped(cpus[c]) + (if cpus[c].pc.StoreWarps? then 1 else 0)
    ensures WarpsOk(cpus[c := m.w], m.sh.ti.warps)
  {
    TotalUpdate(cpus, c, m.w, Warped);
  }

  // ---------- The worst warp ----------

  /** The index of a sample still to be compared is skipped. */
  ghost predicate Compared(w: Worker, k: int) {
    0 <= k < |w.samples| && !(OwesWorst(w.pc) && k == |w.samples| - 1)
  }

  /** `worst` is at most every sample already compared, and is 0 or one of the samples. */
  ghost predicate WorstOk(cpus: seq<Worker>, worst: int) {
    && worst <= 0
    && (forall o, k :: 0 <= o < |cpus| && Compared(cpus[o], k) ==> worst <= Delta(cpus[o].samples[k]))
    && (forall o :: 0 <= o < |cpus| && cpus[o].pc.StoreWorst? ==> Delta(Sample(cpus[o].t1, cpus[o].t0)) < worst)
    && (worst == 0 || Attained(cpus, worst))
  }

  ghost predicate Attained(cpus: seq<Worker>, worst: int) {
    exists o, k :: 0 <= o < |cpus| && 0 <= k < |cpus[o].samples| && Delta(cpus[o].samples[k]) == worst
  }

  lemma WorstKept(cpus: seq<Worker>, c: nat, loops: nat, phase: nat, sh: Shared, m: Moved)
    requires c < |cpus| && LockOk(cpus, sh.ti.lock) && WorstOk(cpus, sh.ti.worst)
    requires Shape(cpus[c], loops, phase, sh.ti.check) && OwnEffect(cpus[c], sh, m, loops, phase)
    requires LockEffect(c, cpus[c], sh, m) && WorstEffect(cpus[c], sh, m)
    ensures WorstOk(cpus[c := m.w], m.sh.ti.worst)
  {
    var x, cpus' := cpus[c], cpus[c := m.w];
    assert m.sh.ti.worst <= sh.ti.worst;
    forall o, k | 0 <= o < |cpus'| && Compared(cpus'[o], k) ensures m.sh.ti.worst <= Delta(cpus'[o].samples[k]) {
      if o != c || Compared(x, k) {
        assert Compared(cpus[o], k);
        assert cpus'[o].samples[k] == cpus[o].samples[k];
      } else {
        assert OwesWorst(x.pc) && !OwesWorst(m.w.pc);
        assert x.samples[k] == Sample(x.t1, x.t0);
      }
    }
    if m.sh.ti.worst == sh.ti.worst && sh.ti.worst != 0 {
      var o, k :| 0 <= o < |cpus| && 0 <= k < |cpus[o].samples| && Delta(cpus[o].samples[k]) == sh.ti.worst;
      assert Delta(cpus'[o].samples[k]) == sh.ti.worst;
    } else if x.pc.StoreWorst? {
      assert Delta(cpus'[c].samples[|x.samples| - 1]) == m.sh.ti.worst;
    }
  }

  // ---------- The unlocked stall counter ----------

  /** The counter never exceeds the increments executed, is not 0 once one was, and is exact when
      only one CPU runs. */
  ghost predicate StallsOk(cpus: seq<Worker>, stalls: u64) {
    var done := Total(cpus, Stalled);
    && stalls <= done
    && (done > 0 ==> stalls > 0)
    && (forall o :: 0 <= o < |cpus| && cpus[o].pc.StoreStalls? ==> cpus[o].tmp <= done)
    && (|cpus| == 1 ==> stalls == done && (cpus[0].pc.StoreStalls? ==> cpus[0].tmp == stalls))
  }

  lemma StallsKept(cpus: seq<Worker>, c: nat, loops: nat, sh: Shared, m: Moved)
    requires c < |cpus| && |cpus| * loops < TWO64
    requires |m.w.samples| <= loops && forall o :: 0 <= o < |cpus| ==> |cpus[o].samples| <= loops
    requires StallsOk(cpus, sh.ti.stalls) && StallEffect(cpus[c], sh, m)
    requires Stalled(m.w) == Stalled(cpus[c]) + (if cpus[c].pc.StoreStalls? then 1 else 0)
    ensures StallsOk(cpus[c := m.w], m.sh.ti.stalls)
  {
    var cpus' := cpus[c := m.w];
    TotalUpdate(cpus, c, m.w, Stalled);
    forall o | 0 <= o < |cpus'| ensures Stalled(cpus'[o]) <= loops {
      CountsWithin(cpus'[o].samples);
    }
    TotalWithin(cpus', Stalled, loops);
  }

  // ---------- The order the filter imposes ----------

  /** What one CPU knows of `last` and `last_value` at its program point. */
  ghost predicate OrderOk(w: Worker, last: u64, lastValue: u64) {
    && (w.pc.LoadLast? ==> last <= w.t1)
    && (w.pc.Read2? || w.pc.StoreLast? || w.pc.Unlock1? ==> w.t0 <= w.t1)
    && (w.pc.StoreLast? ==> w.t2 <= lastValue)
    && (forall k :: 0 <= k < |w.samples| ==> w.samples[k].t0 <= w.samples[k].t1)
  }

  ghost predicate Ordered(cpus: seq<Worker>, last: u64, lastValue: u64) {
    last <= lastValue && forall o :: 0 <= o < |cpus| ==> OrderOk(cpus[o], last, lastValue)
  }

  lemma ReadFacts(w: Worker, sh: Shared, flags: Flags, raw: u64, hs: bool)
    requires CallOk(w.call) && !w.call.Done?
    ensures var m := ReadMove(w, sh, flags, raw, hs);
            && m.w == w.(call := m.w.call, calls := m.w.calls) && m.sh.ti == sh.ti
            && sh.lastValue <= m.sh.lastValue
            && (m.w.call.Done? && !m.sh.bypassed ==> m.w.call.value == m.sh.lastValue)
  {
    if !w.call.Begin? {
      AccessFacts(w.call, sh.lastValue);
    }
  }

  /** The filter's order survives one step, unless this step's reading skipped the filter. */
  lemma OrderEffect(id: nat, loops: nat, flags: Flags, w: Worker, sh: Shared, raw: u64, hs: bool)
    requires CallOk(w.call) && (Reading(w.pc) ==> !w.call.Done?)
    requires OrderOk(w, sh.ti.last, sh.lastValue) && sh.ti.last <= sh.lastValue
    ensures var m := WorkerMove(id, loops, flags, w, sh, raw, hs);
            && sh.lastValue <= m.sh.lastValue
            && (m.sh.bypassed || (OrderOk(m.w, m.sh.ti.last, m.sh.lastValue) && m.sh.ti.last <= m.sh.lastValue))
  {
    if InSample(w.pc) {
      OrderInSample(id, flags, w, sh, raw, hs);
    } else if w.pc.PlainRead? {
      ReadFacts(w, sh, flags, raw, hs);
    }
  }

  lemma OrderInSample(id: nat, flags: Flags, w: Worker, sh: Shared, raw: u64, hs: bool)
    requires InSample(w.pc) && CallOk(w.call) && (Reading(w.pc) ==> !w.call.Done?)
    requires OrderOk(w, sh.ti.last, sh.lastValue) && sh.ti.last <= sh.lastValue
    ensures var m := SampleMove(id, flags, w, sh, raw, hs);
            && sh.lastValue <= m.sh.lastValue
            && (m.sh.bypassed || (OrderOk(m.w, m.sh.ti.last, m.sh.lastValue) && m.sh.ti.last <= m.sh.lastValue))
  {
    if Reading(w.pc) {
      ReadFacts(w, sh, flags, raw, hs);
    } else if w.pc.Unlock1? {
      assert forall k {:trigger w.samples[k]} :: 0 <= k < |w.samples| ==> (w.samples + [Sample(w.t1, w.t0)])[k] == w.samples[k];
    }
  }

  lemma OrderKept(cpus: seq<Worker>, c: nat, sh: Shared, m: Moved)
    requires c < |cpus| && LockOk(cpus, sh.ti.lock) && Ordered(cpus, sh.ti.last, sh.lastValue)
    requires LockEffect(c, cpus[c], sh, m) && sh.lastValue <= m.sh.lastValue
    requires OrderOk(m.w, m.sh.ti.last, m.sh.lastValue) && m.sh.ti.last <= m.sh.lastValue
    ensures Ordered(cpus[c := m.w], m.sh.ti.last, m.sh.lastValue)
  {
    forall o | 0 <= o < |cpus| && o != c ensures OrderOk(cpus[o], m.sh.ti.last, m.sh.lastValue) {
      assert OrderOk(cpus[o], sh.ti.last, sh.lastValue);
    }
  }

  // ---------- Ranges ----------

  /** Every clock value in play is below `bound`. */
  ghost predicate Below(w: Worker, bound: int) {
    && (w.call.Load? || w.call.Swap? ==> w.call.ret < bound)
    && (w.call.Done? ==> w.call.value < bound)
    && w.t1 < bound
    && forall k :: 0 <= k < |w.samples| ==> w.samples[k].t1 < bound
  }

  lemma ReadKeepsBelow(w: Worker, sh: Shared, flags: Flags, raw: u64, hs: bool, bound: int)
    requires Below(w, bound) && sh.lastValue < bound && raw < bound
    ensures var m := ReadMove(w, sh, flags, raw, hs);
            Below(m.w, bound) && m.sh.lastValue < bound && (m.w.call.Done? ==> m.w.call.value < bound)
  {
  }

  lemma MoveKeepsBelow(id: nat, loops: nat, flags: Flags, w: Worker, sh: Shared, raw: u64, hs: bool, bound: int)
    requires Below(w, bound) && sh.lastValue < bound && raw < bound
    ensures var m := WorkerMove(id, loops, flags, w, sh, raw, hs);
            Below(m.w, bound) && m.sh.lastValue < bound
  {
    if Reading(w.pc) {
      ReadKeepsBelow(w, sh, flags, raw, hs, bound);
    } else {
      QuietBelow(id, loops, flags, w, sh, raw, hs);
    }
  }

  /** Only reads touch `last_value`, and no other step brings in a new clock value. */
  lemma QuietBelow(id: nat, loops: nat, flags: Flags, w: Worker, sh: Shared, raw: u64, hs: bool)
    requires !Reading(w.pc)
    ensures var m := WorkerMove(id, loops, flags, w, sh, raw, hs);
            && m.sh.lastValue == sh.lastValue && m.w.t1 == w.t1 && (m.w.call == w.call || m.w.call == Begin)
            && (m.w.samples == w.samples || m.w.samples == w.samples + [Sample(w.t1, w.t0)])
  {
  }
}
