/** Any number of CPUs calling the filtered `pvclock_clocksource_read` in any interleaving.

    The concrete system makes one access of one call per step.  It refines an abstract object with
    two atomic actions per call: *publish* raises the shared value to at least the raw reading, and
    a later *observe* returns the shared value of that moment.  A single atomic fetch-and-max would
    be too strong a specification: see NotFetchMax. */
module MonotonicFilter {
  import opened Words
  import opened ClocksourceCall

  // ---------- The concrete system ----------

  /** A caller.  Besides the call in progress it carries history: the raw reading of that call, what
      its accesses found, whether one of its own exchanges succeeded, and how many calls had
      returned when it began. */
  datatype Caller = Caller(call: Call, raw: u64, seen: seq<u64>, published: bool, begunAt: nat)

  /** A finished call. */
  datatype Return = Return(caller: nat, raw: u64, value: u64, seen: seq<u64>, begunAt: nat)

  /** `returned` lists the finished calls in the order of their last accesses; `raws` collects the
      raw readings of all calls. */
  datatype System = System(lastValue: u64, callers: seq<Caller>, returned: seq<Return>, raws: set<u64>)

  /** Caller `who` makes its next access; a caller between calls begins one with reading `raw`. */
  datatype Turn = Turn(who: nat, raw: u64)

  function Initial(n: nat, lastValue: u64): System {
    System(lastValue, seq(n, i => Caller(Done(0), 0, [], false, 0)), [], {})
  }

  /** The next access of `c` is a cmpxchg that succeeds. */
  predicate Exchanges(c: Call, current: u64) {
    c.Swap? && c.last == current
  }

  /** Caller `c` after an access that found `current`. */
  function Accessed(c: Caller, current: u64): Caller
    requires c.call.Load? || c.call.Swap?
  {
    c.(call := Next(c.call, current).call,
       seen := c.seen + [current],
       published := c.published || Exchanges(c.call, current))
  }

  function Step(s: System, t: Turn): System {
    if t.who >= |s.callers| then s
    else
      var c := s.callers[t.who];
      if c.call.Done? then
        s.(callers := s.callers[t.who := Caller(Load(t.raw), t.raw, [], false, |s.returned|)],
           raws := s.raws + {t.raw})
      else if c.call.Begin? then s
      else
        var a := Next(c.call, s.lastValue);
        var c' := Accessed(c, s.lastValue);
        System(a.lastValue, s.callers[t.who := c'],
               if a.call.Done?
               then s.returned + [Return(t.who, c.raw, a.call.value, c'.seen, c.begunAt)]
               else s.returned,
               s.raws)
  }

  function Run(s: System, turns: seq<Turn>): System {
    if turns == [] then s
    else Step(Run(s, turns[..|turns| - 1]), turns[|turns| - 1])
  }

  // ---------- Invariant ----------

  /** Among the first n accesses each found strictly more than the one before. */
  ghost predicate Rising(seen: seq<u64>, n: int) {
    forall i :: 1 <= i < n && i < |seen| ==> seen[i - 1] < seen[i]
  }

  /** A bound on the cmpxchg operations performed so far, and the rest of a caller's invariant. */
  ghost predicate CallerOk(c: Caller, lastValue: u64, finished: nat, raws: set<u64>) {
    && c.begunAt <= finished
    && !c.call.Begin?
    && (!c.call.Done? ==> c.raw in raws && c.call.ret == c.raw && AfterAccesses(c.raw, c.seen) == c.call)
    && (c.call.Load? ==> c.seen == [] && !c.published)
    && (c.call.Swap? ==>
          && c.seen != [] && c.seen[|c.seen| - 1] == c.call.last
          && c.seen[0] <= c.call.last <= c.raw
          && c.call.last <= lastValue
          && (c.published ==>
                && c.call.last < c.raw <= lastValue
                && |c.seen| >= 2 && c.seen[|c.seen| - 2] == c.seen[|c.seen| - 1])
          && Rising(c.seen, if c.published then |c.seen| - 1 else |c.seen|)
          && |c.seen| - 1 <= if c.published then c.raw - c.seen[0] else c.call.last - c.seen[0])
  }

  /** What is promised of a finished call on its own. */
  ghost predicate ReturnOk(r: Return, index: nat, raws: set<u64>) {
    && r.begunAt <= index
    && r.raw in raws
    && r.raw <= r.value
    && r.seen != [] && r.value == r.seen[|r.seen| - 1]
    && AfterAccesses(r.raw, r.seen) == Done(r.value)
    && Rising(r.seen, |r.seen| - 2)
    && (|r.seen| >= 3 ==> r.seen[|r.seen| - 3] <= r.seen[|r.seen| - 2])
    && (|r.seen| >= 2 ==> r.seen[|r.seen| - 2] <= r.seen[|r.seen| - 1])
    && |r.seen| - 1 <= if r.seen[0] <= r.raw then r.raw - r.seen[0] + 1 else 0
  }

  /** What the invariant says of the finished calls. */
  ghost predicate ReturnsOk(s: System, base: u64) {
    && (forall k :: 0 <= k < |s.returned| ==>
          ReturnOk(s.returned[k], k, s.raws) && s.returned[k].value <= s.lastValue
          && (s.returned[k].value == base || s.returned[k].value in s.raws))
    && (forall j, k :: 0 <= j <= k < |s.returned| ==> s.returned[j].value <= s.returned[k].value)
  }

  ghost predicate Inv(s: System, base: u64) {
    && base <= s.lastValue
    && (s.lastValue == base || s.lastValue in s.raws)
    && (forall i :: 0 <= i < |s.callers| ==> CallerOk(s.callers[i], s.lastValue, |s.returned|, s.raws))
    && ReturnsOk(s, base)
  }

  lemma SeenExtends(c: Caller, current: u64)
    requires c.call.Load? || c.call.Swap?
    requires AfterAccesses(c.raw, c.seen) == c.call
    ensures AfterAccesses(c.raw, c.seen + [current]) == Next(c.call, current).call
  {
    assert (c.seen + [current])[..|c.seen|] == c.seen;
  }

  lemma AccessKeepsCaller(c: Caller, current: u64, finished: nat, raws: set<u64>)
    requires CallerOk(c, current, finished, raws) && !c.call.Done?
    ensures CallOk(c.call)
    ensures CallerOk(Accessed(c, current), Next(c.call, current).lastValue, finished, raws)
    ensures AfterAccesses(c.raw, c.seen + [current]) == Next(c.call, current).call
  {
    SeenExtends(c, current);
    hide AfterAccesses;
    AccessFacts(c.call, current);
  }

  lemma OtherCallerKept(c: Caller, current: u64, later: u64, finished: nat, raws: set<u64>, finished': nat, raws': set<u64>)
    requires CallerOk(c, current, finished, raws) && current <= later && finished <= finished' && raws <= raws'
    ensures CallerOk(c, later, finished', raws')
  {
    hide AfterAccesses;
  }

  lemma StepKeepsCallers(s: System, base: u64, t: Turn)
    requires Inv(s, base) && t.who < |s.callers|
    ensures var s' := Step(s, t);
            s.lastValue <= s'.lastValue &&
            forall i :: 0 <= i < |s'.callers| ==> CallerOk(s'.callers[i], s'.lastValue, |s'.returned|, s'.raws)
  {
    hide AfterAccesses, CallerOk;
    var c, s' := s.callers[t.who], Step(s, t);
    assert CallerOk(c, s.lastValue, |s.returned|, s.raws);
    CallerIsBusyOrDone(c, s.lastValue, |s.returned|, s.raws);
    if c.call.Done? {
      FreshCallerOk(t.raw, s'.lastValue, |s'.returned|, s'.raws);
    } else {
      AccessKeepsCaller(c, s.lastValue, |s.returned|, s.raws);
      AccessFacts(c.call, s.lastValue);
      OtherCallerKept(Accessed(c, s.lastValue), s'.lastValue, s'.lastValue, |s.returned|, s.raws, |s'.returned|, s'.raws);
      assert s'.callers[t.who] == Accessed(c, s.lastValue);
    }
    forall i | 0 <= i < |s'.callers| && i != t.who
      ensures CallerOk(s'.callers[i], s'.lastValue, |s'.returned|, s'.raws)
    {
      OtherCallerKept(s.callers[i], s.lastValue, s'.lastValue, |s.returned|, s.raws, |s'.returned|, s'.raws);
    }
  }

  lemma CallerIsBusyOrDone(c: Caller, lastValue: u64, finished: nat, raws: set<u64>)
    requires CallerOk(c, lastValue, finished, raws)
    ensures !c.call.Begin?
  {
  }

  lemma FreshCallerOk(raw: u64, lastValue: u64, finished: nat, raws: set<u64>)
    requires raw in raws
    ensures CallerOk(Caller(Load(raw), raw, [], false, finished), lastValue, finished, raws)
  {
  }

  /** The record a caller's last access leaves. */
  lemma LastAccessOk(c: Caller, who: nat, current: u64, finished: nat, raws: set<u64>)
    requires CallerOk(c, current, finished, raws) && !c.call.Done? && Next(c.call, current).call.Done?
    ensures Next(c.call, current).call.value == current
    ensures ReturnOk(Return(who, c.raw, current, c.seen + [current], c.begunAt), finished, raws)
  {
    AccessKeepsCaller(c, current, finished, raws);
    AccessFacts(c.call, current);
  }

  lemma ReturnOkWidens(r: Return, index: nat, raws: set<u64>, raws': set<u64>)
    requires ReturnOk(r, index, raws) && raws <= raws'
    ensures ReturnOk(r, index, raws')
  {
    hide AfterAccesses;
  }

  lemma StepKeepsReturns(s: System, base: u64, t: Turn)
    requires Inv(s, base) && t.who < |s.callers|
    ensures ReturnsOk(Step(s, t), base)
  {
    hide AfterAccesses, CallerOk, ReturnOk;
    var c, s' := s.callers[t.who], Step(s, t);
    assert CallerOk(c, s.lastValue, |s.returned|, s.raws);
    forall k | 0 <= k < |s.returned| ensures ReturnOk(s.returned[k], k, s'.raws) {
      ReturnOkWidens(s.returned[k], k, s.raws, s'.raws);
    }
    if !c.call.Done? {
      CallerIsBusyOrDone(c, s.lastValue, |s.returned|, s.raws);
      AccessKeepsCaller(c, s.lastValue, |s.returned|, s.raws);
      AccessFacts(c.call, s.lastValue);
      hide Next;
      if Next(c.call, s.lastValue).call.Done? {
        LastAccessOk(c, t.who, s.lastValue, |s.returned|, s.raws);
      }
    }
  }

  lemma StepKeepsInv(s: System, base: u64, t: Turn)
    requires Inv(s, base)
    ensures Inv(Step(s, t), base) && s.lastValue <= Step(s, t).lastValue
  {
    if t.who < |s.callers| {
      StepKeepsCallers(s, base, t);
      StepKeepsReturns(s, base, t);
      hide AfterAccesses, CallerOk, ReturnOk;
      var c := s.callers[t.who];
      assert CallerOk(c, s.lastValue, |s.returned|, s.raws);
      if !c.call.Done? {
        CallerIsBusyOrDone(c, s.lastValue, |s.returned|, s.raws);
        AccessKeepsCaller(c, s.lastValue, |s.returned|, s.raws);
        BusyRawKnown(c, s.lastValue, |s.returned|, s.raws);
        AccessFacts(c.call, s.lastValue);
      }
    }
  }

  lemma BusyRawKnown(c: Caller, lastValue: u64, finished: nat, raws: set<u64>)
    requires CallerOk(c, lastValue, finished, raws) && !c.call.Done?
    ensures c.call.ret in raws
  {
  }

  lemma {:induction false} RunKeepsInv(n: nat, base: u64, turns: seq<Turn>)
    ensures Inv(Run(Initial(n, base), turns), base)
  {
    if turns != [] {
      RunKeepsInv(n, base, turns[..|turns| - 1]);
      StepKeepsInv(Run(Initial(n, base), turns[..|turns| - 1]), base, turns[|turns| - 1]);
    }
  }

  // ---------- Whole-run properties ----------

  /** In no interleaving does any step lower `last_value`. */
  lemma {:induction false} LastValueNeverFalls(n: nat, base: u64, turns: seq<Turn>, k: nat)
    requires k <= |turns|
    ensures Run(Initial(n, base), turns[..k]).lastValue <= Run(Initial(n, base), turns).lastValue
    decreases |turns|
  {
    if k < |turns| {
      var before := turns[..|turns| - 1];
      assert before[..k] == turns[..k];
      LastValueNeverFalls(n, base, before, k);
      RunKeepsInv(n, base, before);
      StepKeepsInv(Run(Initial(n, base), before), base, turns[|turns| - 1]);
    } else {
      assert turns[..k] == turns;
    }
  }

  /** Every finished call returned a value that `last_value` held at the call's own last access, at
      least its raw reading, equal to some call's raw reading, and at least every value returned by
      a call that finished before this one began. */
  lemma ReturnedValues(n: nat, turns: seq<Turn>, k: nat)
    requires k < |Run(Initial(n, 0), turns).returned|
    ensures var s := Run(Initial(n, 0), turns);
            var r := s.returned[k];
            && r.raw <= r.value
            && r.value in r.seen
            && r.value in s.raws
            && (forall j :: 0 <= j < r.begunAt ==> j < k && s.returned[j].value <= r.value)
  {
    hide AfterAccesses, CallerOk;
    RunKeepsInv(n, 0, turns);
    var s := Run(Initial(n, 0), turns);
    assert ReturnOk(s.returned[k], k, s.raws);
  }

  /** The calls, in the order of their last accesses, returned a non-decreasing sequence. */
  lemma ReturnsAreSorted(n: nat, base: u64, turns: seq<Turn>)
    ensures var out := Run(Initial(n, base), turns).returned;
            forall j, k :: 0 <= j <= k < |out| ==> out[j].value <= out[k].value
  {
    RunKeepsInv(n, base, turns);
  }

  /** However the other CPUs interfere, a call whose atomic64_read found L executes at most
      raw - L + 1 cmpxchg operations, and none when L exceeds its raw reading.  No access finds less than
      the one before.  A cmpxchg succeeds when it finds the same value again, and one that does so without
      ending the call is followed by exactly one more: so every failed cmpxchg, wherever it stands, found
      strictly more than the access before it. */
  lemma CmpxchgBound(n: nat, base: u64, turns: seq<Turn>, k: nat)
    requires k < |Run(Initial(n, base), turns).returned|
    ensures var r := Run(Initial(n, base), turns).returned[k];
            && |r.seen| >= 1
            && |r.seen| - 1 <= (if r.seen[0] <= r.raw then r.raw - r.seen[0] + 1 else 0)
            && (forall i :: 1 <= i < |r.seen| ==> r.seen[i - 1] <= r.seen[i])
            && (forall i :: 1 <= i < |r.seen| - 1 && r.seen[i - 1] == r.seen[i] ==> i == |r.seen| - 2)
  {
    hide AfterAccesses, CallerOk;
    RunKeepsInv(n, base, turns);
    var s := Run(Initial(n, base), turns);
    assert ReturnOk(s.returned[k], k, s.raws);
  }

  // ---------- Publish-then-observe ----------

  datatype Stage = Idle | Called(raw: u64) | Published(raw: u64)

  datatype Outcome = Outcome(caller: nat, raw: u64, value: u64)

  /** The abstract object. */
  datatype Spec = Spec(value: u64, stages: seq<Stage>, outcomes: seq<Outcome>)

  datatype Action = Invoke(who: nat, raw: u64) | Publish(who: nat) | Observe(who: nat)

  /** An action that is not enabled changes nothing. */
  function Act(s: Spec, a: Action): Spec {
    if a.who >= |s.stages| then s
    else
      var stage := s.stages[a.who];
      match a
      case Invoke(who, raw) =>
        if stage.Idle? then s.(stages := s.stages[who := Called(raw)]) else s
      case Publish(who) =>
        if stage.Called?
        then s.(value := if s.value < stage.raw then stage.raw else s.value,
                stages := s.stages[who := Published(stage.raw)])
        else s
      case Observe(who) =>
        if stage.Published?
        then s.(stages := s.stages[who := Idle], outcomes := s.outcomes + [Outcome(who, stage.raw, s.value)])
        else s
  }

  function ActAll(s: Spec, actions: seq<Action>): Spec
    decreases |actions|
  {
    if actions == [] then s else ActAll(Act(s, actions[0]), actions[1..])
  }

  function StageOf(c: Caller): Stage {
    if c.call.Done? || c.call.Begin? then Idle
    else if c.published then Published(c.raw) else Called(c.raw)
  }

  function OutcomeOf(r: Return): Outcome {
    Outcome(r.caller, r.raw, r.value)
  }

  function Abstraction(s: System): Spec {
    Spec(s.lastValue,
         seq(|s.callers|, i requires 0 <= i < |s.callers| => StageOf(s.callers[i])),
         seq(|s.returned|, k requires 0 <= k < |s.returned| => OutcomeOf(s.returned[k])))
  }

  /** The abstract actions a concrete step stands for.  An exchange that replaces a smaller value
      publishes; the access that ends the call observes, publishing first if the call had not. */
  function Meaning(s: System, t: Turn): seq<Action> {
    if t.who >= |s.callers| then []
    else
      var c := s.callers[t.who];
      if c.call.Done? then [Invoke(t.who, t.raw)]
      else if c.call.Begin? then []
      else
        var ends := Next(c.call, s.lastValue).call.Done?;
        var publishes := ends || Exchanges(c.call, s.lastValue);
        (if publishes && !c.published then [Publish(t.who)] else []) + (if ends then [Observe(t.who)] else [])
  }

  lemma StepRefines(s: System, base: u64, t: Turn)
    requires Inv(s, base)
    ensures Abstraction(Step(s, t)) == ActAll(Abstraction(s), Meaning(s, t))
  {
    hide ReturnsOk, AfterAccesses, Rising;
    var a, s', m := Abstraction(s), Step(s, t), Meaning(s, t);
    if t.who < |s.callers| {
      var c := s.callers[t.who];
      assert CallerOk(c, s.lastValue, |s.returned|, s.raws);
      assert a.stages[t.who] == StageOf(c);
      if m == [] {
        assert Abstraction(s').stages == a.stages;
      } else {
        var a1 := Act(a, m[0]);
        assert ActAll(a1, m[1..]) == if |m| == 1 then a1 else Act(a1, m[1]) by {
          if |m| == 2 { assert m[1..] == [m[1]]; }
        }
        var a2 := if |m| == 1 then a1 else Act(a1, m[1]);
        assert Abstraction(s').stages == a2.stages;
        assert Abstraction(s').outcomes == a2.outcomes;
        assert Abstraction(s').value == a2.value;
      }
    }
  }

  function MeaningOfRun(s: System, turns: seq<Turn>): seq<Action> {
    if turns == [] then []
    else
      var before := turns[..|turns| - 1];
      MeaningOfRun(s, before) + Meaning(Run(s, before), turns[|turns| - 1])
  }

  lemma {:induction false} ActAllConcat(s: Spec, xs: seq<Action>, ys: seq<Action>)
    ensures ActAll(s, xs + ys) == ActAll(ActAll(s, xs), ys)
    decreases |xs|
  {
    if xs == [] {
      assert xs + ys == ys;
    } else {
      assert (xs + ys)[1..] == xs[1..] + ys;
      ActAllConcat(Act(s, xs[0]), xs[1..], ys);
    }
  }

  /** Every run of the concrete system is a run of the publish-then-observe object, with the same
      shared value and the same outcomes in the same order. */
  lemma {:induction false} FilterRefinesPublishThenObserve(n: nat, base: u64, turns: seq<Turn>)
    ensures var s := Initial(n, base);
            Abstraction(Run(s, turns)) == ActAll(Abstraction(s), MeaningOfRun(s, turns))
  {
    if turns != [] {
      var s, before := Initial(n, base), turns[..|turns| - 1];
      FilterRefinesPublishThenObserve(n, base, before);
      RunKeepsInv(n, base, before);
      StepRefines(Run(s, before), base, turns[|turns| - 1]);
      ActAllConcat(Abstraction(s), MeaningOfRun(s, before), Meaning(Run(s, before), turns[|turns| - 1]));
    }
  }

  // ---------- Why fetch-and-max is not the specification ----------

  /** The values three calls would return if each were one atomic fetch-and-max, executed in order
      from `value`. */
  function FetchMax(value: u64, raws: seq<u64>): seq<u64>
    decreases |raws|
  {
    if raws == [] then []
    else
      var v := if value < raws[0] then raws[0] else value;
      [v] + FetchMax(v, raws[1..])
  }

  /** CPU 0 publishes 10; CPU 1, reading 5, returns 10; CPU 2 publishes and returns 20; CPU 0's
      confirming cmpxchg then finds 20 and returns it. */
  function OvertakenSchedule(): seq<Turn> {
    [Turn(0, 10), Turn(0, 0), Turn(0, 0), Turn(1, 5), Turn(1, 0),
     Turn(2, 20), Turn(2, 0), Turn(2, 0), Turn(2, 0), Turn(0, 0)]
  }

  /** The state after `k` turns of that schedule. */
  function Overtaken(k: nat): System {
    var idle := Caller(Done(0), 0, [], false, 0);
    var a := Caller(Swap(10, 0), 10, [0, 0], true, 0);
    var b := Caller(Done(10), 5, [10], false, 0);
    var r1, r2 := Return(1, 5, 10, [10], 0), Return(2, 20, 20, [10, 10, 20], 1);
    match k
    case 0 => System(0, [idle, idle, idle], [], {})
    case 1 => System(0, [Caller(Load(10), 10, [], false, 0), idle, idle], [], {10})
    case 2 => System(0, [Caller(Swap(10, 0), 10, [0], false, 0), idle, idle], [], {10})
    case 3 => System(10, [a, idle, idle], [], {10})
    case 4 => System(10, [a, Caller(Load(5), 5, [], false, 0), idle], [], {10, 5})
    case 5 => System(10, [a, b, idle], [r1], {10, 5})
    case 6 => System(10, [a, b, Caller(Load(20), 20, [], false, 1)], [r1], {10, 5, 20})
    case 7 => System(10, [a, b, Caller(Swap(20, 10), 20, [10], false, 1)], [r1], {10, 5, 20})
    case 8 => System(20, [a, b, Caller(Swap(20, 10), 20, [10, 10], true, 1)], [r1], {10, 5, 20})
    case 9 => System(20, [a, b, Caller(Done(20), 20, [10, 10, 20], true, 1)], [r1, r2], {10, 5, 20})
    case _ => System(20, [Caller(Done(20), 10, [0, 0, 20], true, 0), b, Caller(Done(20), 20, [10, 10, 20], true, 1)],
                     [r1, r2, Return(0, 10, 20, [0, 0, 20], 0)], {10, 5, 20})
  }

  lemma OvertakenFirstHalf(k: nat)
    requires k < 5
    ensures Step(Overtaken(k), OvertakenSchedule()[k]) == Overtaken(k + 1)
  {
    var s', e := Step(Overtaken(k), OvertakenSchedule()[k]), Overtaken(k + 1);
    assert s'.callers[OvertakenSchedule()[k].who].seen == e.callers[OvertakenSchedule()[k].who].seen;
    assert s'.callers == e.callers;
    assert s'.returned == e.returned;
  }

  lemma OvertakenSecondHalf(k: nat)
    requires 5 <= k < 10
    ensures Step(Overtaken(k), OvertakenSchedule()[k]) == Overtaken(k + 1)
  {
    var s', e := Step(Overtaken(k), OvertakenSchedule()[k]), Overtaken(k + 1);
    assert s'.callers[OvertakenSchedule()[k].who].seen == e.callers[OvertakenSchedule()[k].who].seen;
    assert s'.callers == e.callers;
    assert s'.returned == e.returned;
  }

  lemma {:induction false} OvertakenRun(k: nat)
    requires k <= 10
    ensures Run(Initial(3, 0), OvertakenSchedule()[..k]) == Overtaken(k)
  {
    hide Step;
    if k == 0 {
      assert Initial(3, 0).callers == Overtaken(0).callers;
    } else {
      OvertakenRun(k - 1);
      if k - 1 < 5 { OvertakenFirstHalf(k - 1); } else { OvertakenSecondHalf(k - 1); }
      assert OvertakenSchedule()[..k][..k - 1] == OvertakenSchedule()[..k - 1];
    }
  }

  lemma OvertakenOutcomes()
    ensures Abstraction(Run(Initial(3, 0), OvertakenSchedule())).outcomes
            == [Outcome(1, 5, 10), Outcome(2, 20, 20), Outcome(0, 10, 20)]
  {
    OvertakenRun(10);
    assert OvertakenSchedule()[..10] == OvertakenSchedule();
  }

  /** In no order do three atomic fetch-and-max operations from 0 produce those outcomes. */
  lemma NotFetchMax(i: nat, j: nat, k: nat)
    requires i < 3 && j < 3 && k < 3 && i != j && j != k && i != k
    ensures var out := Abstraction(Run(Initial(3, 0), OvertakenSchedule())).outcomes;
            |out| == 3 && FetchMax(0, [out[i].raw, out[j].raw, out[k].raw]) != [out[i].value, out[j].value, out[k].value]
  {
    OvertakenOutcomes();
    var out := Abstraction(Run(Initial(3, 0), OvertakenSchedule())).outcomes;
    var x, y, z := out[i].raw, out[j].raw, out[k].raw;
    assert [x, y, z][1..] == [y, z] && [y, z][1..] == [z] && [z][1..] == [];
    var v1 := if y < x then x else y;
    var v2 := if z < v1 then v1 else z;
    assert FetchMax(v1, [z]) == [v2] + FetchMax(v2, []) == [v2];
    assert FetchMax(x, [y, z]) == [v1, v2];
    assert FetchMax(0, [x, y, z]) == [x, v1, v2];
  }
}
