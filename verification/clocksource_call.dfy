/** One call of `pvclock_clocksource_read`, one shared-memory access per step.

    The call takes a raw reading, and unless the "stable" bypass applies, passes it through the
    compare-and-swap loop on the global `last_value`.  Everything a call does between two accesses
    is local and belongs to the step of the first.  Other modules embed these steps: the system of
    arbitrary callers (MonotonicFilter) and the multi-CPU test (WarpTest). */
module ClocksourceCall {
  import opened Words

  /** The bits of `valid_flags` the driver ever sets. */
  datatype Flags = Flags(tscStable: bool, rawCycle: bool)

  datatype Call =
    | Begin                        // about to take the raw reading
    | Load(ret: u64)               // about to execute atomic64_read
    | Swap(ret: u64, last: u64)    // about to execute atomic64_cmpxchg(last, ret)
    | Done(value: u64)             // returned

  /** The outcome of one access: the call's next state and the new value of `last_value`. */
  datatype Access = Access(call: Call, lastValue: u64)

  /** Head of the do-while loop: return a larger value, or try the exchange. */
  function LoopHead(ret: u64, last: u64): Call {
    if ret < last then Done(last) else Swap(ret, last)
  }

  /** The bypass test; note that the raw-cycle bit plays no part in it. */
  predicate Bypasses(valid: Flags, hostStable: bool) {
    valid.tscStable && hostStable
  }

  /** The step that takes raw reading `raw` together with the host's flag byte. */
  function TakeReading(valid: Flags, raw: u64, hostStable: bool): Call {
    if Bypasses(valid, hostStable) then Done(raw) else Load(raw)
  }

  /** atomic64_cmpxchg(&last_value, last, ret) and the loop test on the value it returned. */
  function CompareExchange(ret: u64, last: u64, current: u64): Access {
    Access(if current == ret then Done(ret) else LoopHead(ret, current),
           if current == last then ret else current)
  }

  /** One access of a call that is past its raw reading. */
  function Next(c: Call, current: u64): Access
    requires c.Load? || c.Swap?
  {
    match c
    case Load(ret) => Access(LoopHead(ret, current), current)
    case Swap(ret, last) => CompareExchange(ret, last, current)
  }

  /** What the loop maintains about its own locals. */
  predicate CallOk(c: Call) {
    c.Swap? ==> c.last <= c.ret
  }

  /** Every access keeps the loop's invariant, never lowers `last_value`, and returns only a value
      that `last_value` holds at that very access and after it. */
  lemma AccessFacts(c: Call, current: u64)
    requires (c.Load? || c.Swap?) && CallOk(c)
    ensures var a := Next(c, current);
            && CallOk(a.call)
            && current <= a.lastValue
            && (a.call.Done? ==> a.call.value == current == a.lastValue && c.ret <= a.call.value)
            && (!a.call.Done? ==> a.call.Swap? && a.call.ret == c.ret)
            && (a.lastValue != current ==> a.lastValue == c.ret)
  {
  }

  /** The state of a call with raw reading `raw` whose successive accesses observed `seen`. */
  ghost function AfterAccesses(raw: u64, seen: seq<u64>): Call {
    if seen == [] then Load(raw)
    else
      var c := AfterAccesses(raw, seen[..|seen| - 1]);
      if c.Done? || c.Begin? then c else Next(c, seen[|seen| - 1]).call
  }

  /** The shared word `last_value`, as one CPU sees it.  `returned` is history: what this CPU's calls of
      `pvclock_clocksource_read` have returned. */
  class LastValue {
    var value: u64
    ghost var returned: seq<u64>

    method AtomicRead() returns (v: u64)
      ensures v == value
    {
      v := value;
    }

    method Cmpxchg(expected: u64, replacement: u64) returns (found: u64)
      modifies this`value
      ensures found == old(value)
      ensures value == if found == expected then replacement else found
    {
      found := value;
      if found == expected {
        value := replacement;
      }
    }

    /** Anything the other CPUs may do between two accesses of this one: MonotonicFilter.LastValueNeverFalls
        shows that no schedule of calls lowers the word. */
    method OtherCpus()
      modifies this`value
      ensures old(value) <= value
    {
      var v: u64 :| value <= v;
      value := v;
    }
  }

  /** `pvclock_clocksource_read` from its flag test on, under arbitrary interference.

      `seen` lists what each atomic access found; its first element is the initial atomic64_read and
      every later one a cmpxchg.  The returned value is at least the raw reading and at least
      `last_value` at entry; it was found by this call's own last access; and the number of
      cmpxchg operations is bounded by the distance between the reading and the first value found. */
  method ClocksourceRead(cell: LastValue, valid: Flags, raw: u64, hostStable: bool)
    returns (r: u64, ghost seen: seq<u64>)
    modifies cell
    ensures cell.returned == old(cell.returned) + [r]
    ensures Bypasses(valid, hostStable) ==> r == raw && seen == [] && cell.value == old(cell.value)
    ensures !Bypasses(valid, hostStable) ==>
              && seen != []
              && r == seen[|seen| - 1]
              && raw <= r && old(cell.value) <= r <= cell.value
              && AfterAccesses(raw, seen) == Done(r)
              && |seen| - 1 <= if seen[0] <= raw then raw - seen[0] + 1 else 0
  {
    seen := [];
    if valid.tscStable && hostStable {
      cell.returned := cell.returned + [raw];
      return raw, seen;
    }
    var ret := raw;
    cell.OtherCpus();
    var last := cell.AtomicRead();
    seen := [last];
    ghost var published := false;
    while true
      invariant seen != [] && seen[|seen| - 1] == last
      invariant AfterAccesses(raw, seen) == LoopHead(ret, last)
      invariant old(cell.value) <= last <= cell.value && cell.returned == old(cell.returned)
      invariant last <= ret ==> seen[0] <= last
      invariant ret < last ==> |seen| - 1 <= if seen[0] <= raw then raw - seen[0] + 1 else 0
      invariant last <= ret ==> |seen| - 1 <= if published then ret - seen[0] else last - seen[0]
      invariant published ==> ret <= cell.value && last != ret
      decreases if ret < last then 0 else if published then 1 else ret - last + 2
    {
      if ret < last {
        cell.returned := cell.returned + [last];
        return last, seen;
      }
      cell.OtherCpus();
      ghost var found := cell.value;
      assert (seen + [found])[..|seen|] == seen;
      published := published || cell.value == last;
      last := cell.Cmpxchg(last, ret);
      seen := seen + [last];
      if last == ret {
        break;
      }
    }
    r := ret;
    cell.returned := cell.returned + [r];
  }
}
