/** `cycle_test` and `kvm_clock_test` as the driver writes them, for a single CPU running the test while
    any other CPUs read the clock.  With nobody else touching the test_info every counter is exact. */
module WarpSingle {
  import opened Words
  import opened ClocksourceCall
  import opened WarpTest
  import opened WarpInvariants

  ghost function Least(samples: seq<Sample>, start: int): int {
    if samples == [] then start
    else
      var m := Least(samples[..|samples| - 1], start);
      var d := Delta(samples[|samples| - 1]);
      if d < 0 && d < m then d else m
  }

  /** Least is the minimum of `start` and the negative deltas. */
  lemma {:induction false} LeastIsMinimum(samples: seq<Sample>, start: int)
    ensures var m := Least(samples, start);
            && m <= start
            && (forall k :: 0 <= k < |samples| && Delta(samples[k]) < 0 ==> m <= Delta(samples[k]))
            && (m == start || exists k :: 0 <= k < |samples| && Delta(samples[k]) == m)
  {
    if samples != [] {
      var before := samples[..|samples| - 1];
      LeastIsMinimum(before, start);
      if Least(samples, start) == Least(before, start) != start {
        var k :| 0 <= k < |before| && Delta(before[k]) == Least(before, start);
        assert samples[k] == before[k];
      }
    }
  }

  lemma LeastExtended(samples: seq<Sample>, s: Sample, start: int)
    ensures Least(samples + [s], start)
            == if Delta(s) < 0 && Delta(s) < Least(samples, start) then Delta(s) else Least(samples, start)
  {
    assert (samples + [s])[..|samples|] == samples;
  }

  /** The samples account for the changes of the three statistics. */
  ghost predicate Accounted(samples: seq<Sample>, warps0: u64, warps: u64, stalls0: u64, stalls: u64, worst0: int, worst: int) {
    && warps == Wrap64(warps0 + Negatives(samples))
    && stalls == Wrap64(stalls0 + Zeros(samples))
    && worst == Least(samples, worst0)
  }

  lemma SuccessorWraps(x: nat)
    ensures Successor(Wrap64(x)) == Wrap64(x + 1)
  {
  }

  lemma AccountedExtends(samples: seq<Sample>, s: Sample, warps0: u64, warps: u64, stalls0: u64, stalls: u64, worst0: int, worst: int)
    requires Accounted(samples, warps0, warps, stalls0, stalls, worst0, worst)
    ensures Accounted(samples + [s], warps0, if Delta(s) < 0 then Successor(warps) else warps,
                      stalls0, if Delta(s) == 0 then Successor(stalls) else stalls,
                      worst0, if Delta(s) < 0 && Delta(s) < worst then Delta(s) else worst)
  {
    CountExtended(samples, s);
    LeastExtended(samples, s, worst0);
    SuccessorWraps(warps0 + Negatives(samples));
    SuccessorWraps(stalls0 + Zeros(samples));
  }

  /** A reading of the clock page: the raw value and the host's stable bit. */
  datatype Reading = Reading(raw: u64, hostStable: bool)

  /** The clock page of the running CPU: whatever the host publishes.  `taken` is history: the readings
      of this CPU, in order. */
  class ClockPage {
    var valid: Flags
    ghost var taken: seq<Reading>

    method Read() returns (raw: u64, hostStable: bool)
      modifies this`taken
      ensures taken == old(taken) + [Reading(raw, hostStable)]
    {
      raw, hostStable := *, *;
      taken := taken + [Reading(raw, hostStable)];
    }
  }

  /** What the test compares when its clock reads return `values`: every other one, starting with the
      first, with the one before it, the first of all with `last`. */
  ghost function Pairs(values: seq<u64>, last: u64): (s: seq<Sample>)
    ensures |s| == |values| / 2
    ensures forall k :: 0 <= k < |s| ==> s[k].t1 == values[2 * k] && s[k].t0 == if k == 0 then last else values[2 * k - 1]
  {
    seq(|values| / 2, k requires 0 <= k < |values| / 2 => Sample(values[2 * k], if k == 0 then last else values[2 * k - 1]))
  }

  lemma PairsExtended(values: seq<u64>, t1: u64, t2: u64, last: u64)
    requires |values| % 2 == 0
    ensures Pairs(values + [t1] + [t2], last)
            == Pairs(values, last) + [Sample(t1, Latest(values, last))]
  {
  }

  /** Each value is the reading itself if that skipped the filter, and no less than it otherwise. */
  ghost predicate ReadFrom(valid: Flags, taken: seq<Reading>, values: seq<u64>) {
    && |taken| == |values|
    && forall k :: 0 <= k < |values| ==>
         if Bypasses(valid, taken[k].hostStable) then values[k] == taken[k].raw else taken[k].raw <= values[k]
  }

  ghost predicate AllFiltered(valid: Flags, taken: seq<Reading>) {
    forall k :: 0 <= k < |taken| ==> !Bypasses(valid, taken[k].hostStable)
  }

  /** The values never fall, from `least` up to `most`. */
  ghost predicate Climbs(values: seq<u64>, least: u64, most: u64) {
    && least <= most
    && (forall k :: 0 <= k < |values| ==> least <= values[k] <= most)
    && forall j, k :: 0 <= j < k < |values| ==> values[j] <= values[k]
  }

  /** What is known of any number of clock reads during which `last_value` went from `least` to `most`. */
  ghost predicate History(valid: Flags, taken: seq<Reading>, values: seq<u64>, least: u64, most: u64) {
    ReadFrom(valid, taken, values) && (AllFiltered(valid, taken) ==> Climbs(values, least, most))
  }

  lemma HistoryExtends(valid: Flags, taken: seq<Reading>, values: seq<u64>, least: u64, most: u64, r: Reading, v: u64, now: u64)
    requires History(valid, taken, values, least, most)
    requires if Bypasses(valid, r.hostStable) then v == r.raw else r.raw <= v && most <= v <= now
    ensures History(valid, taken + [r], values + [v], least, now)
  {
    if AllFiltered(valid, taken + [r]) {
      assert AllFiltered(valid, taken) by {
        assert forall k :: 0 <= k < |taken| ==> taken[k] == (taken + [r])[k];
      }
      assert (taken + [r])[|taken|] == r;
    }
  }

  lemma NoStepBack(valid: Flags, taken: seq<Reading>, values: seq<u64>, last: u64, least: u64, most: u64)
    requires History(valid, taken, values, least, most)
    ensures AllFiltered(valid, taken) ==> least <= most
    ensures AllFiltered(valid, taken) && last <= least ==>
              Latest(values, last) <= most && forall k :: 0 <= k < |values| / 2 ==> Pairs(values, last)[k].t0 <= Pairs(values, last)[k].t1
  {
  }

  /** The last of the values, or what was there before them. */
  ghost function Latest(values: seq<u64>, last: u64): u64 {
    if values == [] then last else values[|values| - 1]
  }

  /** The value read first in iteration k is below the one before it: the signed 64-bit difference is
      negative. */
  ghost predicate Falls(values: seq<u64>, k: nat)
    requires 2 * k < |values|
  {
    var previous: int := if k == 0 then 0 else values[2 * k - 1];
    Signed64(Wrap64(values[2 * k] - previous)) < 0
  }

  lemma FallsIsNegative(values: seq<u64>)
    ensures forall k :: 0 <= k < |values| / 2 ==> (Falls(values, k) <==> Delta(Pairs(values, 0)[k]) < 0)
  {
    forall k | 0 <= k < |values| / 2 ensures Falls(values, k) <==> Delta(Pairs(values, 0)[k]) < 0 {
      DeltaIsTwosComplement(Pairs(values, 0)[k]);
    }
  }

  class Info {
    var warps: u64
    var stalls: u64
    var worst: int
    var last: u64
    var ncpus: int
    var check: int

    /** The zero-initialised global. */
    constructor ()
      ensures warps == 0 && stalls == 0 && worst == 0 && last == 0
    {
      warps, stalls, worst, last, ncpus, check := 0, 0, 0, 0, 0, 0;
    }

    /** The verdict on one sample: lines 258-269 of kvmclock_test.c. */
    method Judge(s: Sample)
      modifies this`warps, this`worst, this`stalls
      ensures warps == if Delta(s) < 0 then Successor(old(warps)) else old(warps)
      ensures worst == if Delta(s) < 0 && Delta(s) < old(worst) then Delta(s) else old(worst)
      ensures stalls == if Delta(s) == 0 then Successor(old(stalls)) else old(stalls)
    {
      var delta := Delta(s);
      if delta < 0 {
        warps := Successor(warps);
        if delta < worst {
          worst := delta;
        }
      }
      if delta == 0 {
        stalls := Successor(stalls);
      }
    }

    /** kvm_clock_test: takes two readings an iteration, or one if it is not to check. */
    method KvmClockTest(loops: nat, page: ClockPage, cell: LastValue)
      modifies this, cell, page`taken
      ensures old(page.taken) <= page.taken && old(cell.returned) <= cell.returned
      ensures ncpus == old(ncpus) - 1 && check == old(check)
      ensures var taken, values := page.taken[|old(page.taken)|..], cell.returned[|old(cell.returned)|..];
              && |values| == (if check == 0 then loops else 2 * loops)
              && History(page.valid, taken, values, old(cell.value), cell.value)
              && last == (if check == 0 then old(last) else Latest(values, old(last)))
              && Accounted(if check == 0 then [] else Pairs(values, old(last)),
                           old(warps), warps, old(stalls), stalls, old(worst), worst)
              && (AllFiltered(page.valid, taken) && old(last <= cell.value) ==>
                    last <= cell.value && forall k :: 0 <= k < |values| / 2 ==>
                      Pairs(values, old(last))[k].t0 <= Pairs(values, old(last))[k].t1)
    {
      hide History, Accounted, Pairs, Delta, AllFiltered;
      ghost var taken: seq<Reading>, values: seq<u64> := [], [];
      assert History(page.valid, [], [], cell.value, cell.value) by { NoReads(page.valid, cell.value); }
      assert Accounted([], warps, warps, stalls, stalls, worst, worst) && Pairs([], last) == [] by { NothingYet(warps, stalls, worst); }
      var i := 0;
      while i < loops
        invariant i <= loops && page.taken == old(page.taken) + taken && cell.returned == old(cell.returned) + values
        invariant ncpus == old(ncpus) && check == old(check)
        invariant |values| == (if check == 0 then i else 2 * i)
        invariant History(page.valid, taken, values, old(cell.value), cell.value)
        invariant last == (if check == 0 then old(last) else Latest(values, old(last)))
        invariant Accounted(if check == 0 then [] else Pairs(values, old(last)),
                            old(warps), warps, old(stalls), stalls, old(worst), worst)
      {
        var raw, hostStable := page.Read();
        ghost var seen, most := [], cell.value;
        var t1;
        t1, seen := ClocksourceRead(cell, page.valid, raw, hostStable);
        ghost var before := values;
        HistoryExtends(page.valid, taken, values, old(cell.value), most, Reading(raw, hostStable), t1, cell.value);
        taken, values := taken + [Reading(raw, hostStable)], values + [t1];
        if check != 0 {
          var t0 := last;
          raw, hostStable := page.Read();
          most := cell.value;
          var t2;
          t2, seen := ClocksourceRead(cell, page.valid, raw, hostStable);
          HistoryExtends(page.valid, taken, values, old(cell.value), most, Reading(raw, hostStable), t2, cell.value);
          taken, values := taken + [Reading(raw, hostStable)], values + [t2];
          last := t2;
          PairsExtended(before, t1, t2, old(last));
          AccountedExtends(Pairs(before, old(last)), Sample(t1, t0), old(warps), warps, old(stalls), stalls, old(worst), worst);
          Judge(Sample(t1, t0));
        }
        i := i + 1;
      }
      ncpus := ncpus - 1;
      NoStepBack(page.valid, taken, values, old(last), old(cell.value), cell.value);
      assert page.taken[|old(page.taken)|..] == taken && cell.returned[|old(cell.returned)|..] == values;
    }

    /** cycle_test with ncpus == 1 on a zeroed test_info: the wait loop finds the countdown at 0, and
        the result is 1 exactly if some value read first in its iteration is, as a signed difference,
        below the one read before it (0 before the first). */
    method CycleTest(checking: int, loops: nat, page: ClockPage, cell: LastValue) returns (r: int)
      requires loops < TWO64 && warps == 0 && stalls == 0 && worst == 0 && last == 0
      modifies this, cell, page`taken
      ensures ncpus == 0 && (r == 0 || r == 1)
      ensures old(page.taken) <= page.taken && old(cell.returned) <= cell.returned
      ensures var taken, values := page.taken[|old(page.taken)|..], cell.returned[|old(cell.returned)|..];
              && |values| == (if checking == 0 then loops else 2 * loops)
              && History(page.valid, taken, values, old(cell.value), cell.value)
              && (r == 1 <==> checking != 0 && exists k :: 0 <= k < loops && Falls(values, k))
              && (warps > 0 <==> worst < 0)
              && Accounted(if checking == 0 then [] else Pairs(values, 0), 0, warps, 0, stalls, 0, worst)
    {
      hide History, Falls;
      ncpus := 1;
      check := checking;
      KvmClockTest(loops, page, cell);
      ghost var values := cell.returned[|old(cell.returned)|..];
      Verdict(if checking == 0 then [] else Pairs(values, 0), warps, stalls, worst);
      FallsIsNegative(values);
      r := if warps != 0 then 1 else 0;
    }
  }

  lemma NoReads(valid: Flags, v: u64)
    ensures History(valid, [], [], v, v)
  {
  }

  lemma NothingYet(warps: u64, stalls: u64, worst: int)
    ensures Accounted([], warps, warps, stalls, stalls, worst, worst) && forall last :: Pairs([], last) == []
  {
  }

  /** The statistics of a run from zero, in terms of its samples. */
  lemma Verdict(samples: seq<Sample>, warps: u64, stalls: u64, worst: int)
    requires |samples| < TWO64 && Accounted(samples, 0, warps, 0, stalls, 0, worst)
    ensures warps == Negatives(samples) && stalls == Zeros(samples)
    ensures warps > 0 <==> exists k :: 0 <= k < |samples| && Delta(samples[k]) < 0
    ensures warps > 0 <==> worst < 0
  {
    CountsWithin(samples);
    LeastIsMinimum(samples, 0);
  }
}
