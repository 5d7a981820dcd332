/** Wall-clock time: the published boot time plus the filtered clock, split into seconds and
    nanoseconds by `pvclock_read_wallclock`. */
module Wallclock {
  import opened Words
  import opened ClocksourceCall
  import MonotonicFilter
  import VersionedRead

  const NSEC_PER_SEC: int := 1_000_000_000

  datatype Timespec = Timespec(sec: int, nsec: int)

  /** The kernel's set_normalized_timespec: the same instant with nsec in range. */
  function Normalized(sec: int, nsec: int): Timespec {
    Timespec(sec + nsec / NSEC_PER_SEC, nsec % NSEC_PER_SEC)
  }

  /** Normalisation keeps the instant and brings the nanoseconds into range. */
  lemma NormalizedKeepsInstant(sec: int, nsec: int)
    ensures Nanoseconds(Normalized(sec, nsec)) == sec * NSEC_PER_SEC + nsec
    ensures 0 <= Normalized(sec, nsec).nsec < NSEC_PER_SEC
  {
  }

  /** 64-bit addition of the published time to the time since boot. */
  function Sum64(boot: u64, sec: int, nsec: int): u64 {
    Wrap64(boot + Wrap64(Wrap64(sec * NSEC_PER_SEC) + nsec))
  }

  /** What `pvclock_read_wallclock` stores, given the record it read and the clock value. */
  function TimeOf(boot: u64, sec: int, nsec: int): Timespec {
    var delta := Sum64(boot, sec, nsec);
    Normalized(delta / NSEC_PER_SEC, delta % NSEC_PER_SEC)
  }

  predicate LexLe(a: Timespec, b: Timespec) {
    a.sec < b.sec || (a.sec == b.sec && a.nsec <= b.nsec)
  }

  function Nanoseconds(t: Timespec): int {
    t.sec * NSEC_PER_SEC + t.nsec
  }

  lemma DivisionIsExact(delta: u64)
    ensures var t := Normalized(delta / NSEC_PER_SEC, delta % NSEC_PER_SEC);
            t == Timespec(delta / NSEC_PER_SEC, delta % NSEC_PER_SEC) && 0 <= t.nsec < NSEC_PER_SEC
            && Nanoseconds(t) == delta
  {
  }

  /** The arithmetic is exact precisely when the 64-bit sum does not wrap.  Whatever the sum, the
      nanoseconds are in range, so the final normalisation is the identity. */
  lemma ExactIffNoWrap(boot: u64, sec: u32, nsec: u32)
    ensures var t := TimeOf(boot, sec, nsec);
            && (Nanoseconds(t) == boot + sec * NSEC_PER_SEC + nsec <==> boot + sec * NSEC_PER_SEC + nsec < TWO64)
            && 0 <= t.nsec < NSEC_PER_SEC
            && t == Timespec(Sum64(boot, sec, nsec) / NSEC_PER_SEC, Sum64(boot, sec, nsec) % NSEC_PER_SEC)
  {
    DivisionIsExact(Sum64(boot, sec, nsec));
    assert 0 <= sec * NSEC_PER_SEC + nsec < TWO63;
  }

  /** For a boot time below 2^63 ns no 32-bit record can make the sum wrap. */
  lemma NeverWrapsBelow63Bits(boot: u64, sec: u32, nsec: u32)
    requires boot < TWO63
    ensures Nanoseconds(TimeOf(boot, sec, nsec)) == boot + sec * NSEC_PER_SEC + nsec
  {
    ExactIffNoWrap(boot, sec, nsec);
  }

  lemma LexIsNumeric(a: Timespec, b: Timespec)
    requires 0 <= a.nsec < NSEC_PER_SEC && 0 <= b.nsec < NSEC_PER_SEC
    ensures LexLe(a, b) <==> Nanoseconds(a) <= Nanoseconds(b)
  {
  }

  /** While the sum does not wrap, times order exactly as the clock values behind them. */
  lemma TimeOrdersAsClock(boot1: u64, boot2: u64, sec: u32, nsec: u32)
    requires boot1 + sec * NSEC_PER_SEC + nsec < TWO64 && boot2 + sec * NSEC_PER_SEC + nsec < TWO64
    ensures LexLe(TimeOf(boot1, sec, nsec), TimeOf(boot2, sec, nsec)) <==> boot1 <= boot2
  {
    ExactIffNoWrap(boot1, sec, nsec);
    ExactIffNoWrap(boot2, sec, nsec);
    LexIsNumeric(TimeOf(boot1, sec, nsec), TimeOf(boot2, sec, nsec));
  }

  /** In every interleaving of any number of CPUs, while the host's record (sec, nsec) stands and no
      sum wraps, a wall-clock read that begins after another has finished returns no earlier time. */
  lemma WallclockNeverFallsBack(n: nat, turns: seq<MonotonicFilter.Turn>, j: nat, k: nat, sec: u32, nsec: u32)
    requires var out := MonotonicFilter.Run(MonotonicFilter.Initial(n, 0), turns).returned;
             k < |out| && j < out[k].begunAt && out[k].value + sec * NSEC_PER_SEC + nsec < TWO64
    ensures var out := MonotonicFilter.Run(MonotonicFilter.Initial(n, 0), turns).returned;
            j < |out| && LexLe(TimeOf(out[j].value, sec, nsec), TimeOf(out[k].value, sec, nsec))
  {
    MonotonicFilter.ReturnedValues(n, turns, k);
    var out := MonotonicFilter.Run(MonotonicFilter.Initial(n, 0), turns).returned;
    TimeOrdersAsClock(out[j].value, out[k].value, sec, nsec);
  }

  /** `pvclock_read_wallclock` after its retry loop.  The clock is read while the other CPUs run. */
  method ReadWallclock(page: VersionedRead.HostPage, cell: LastValue, valid: Flags, raw: u64, hostStable: bool,
                       attempts: nat)
    returns (ok: bool, ts: Timespec, ghost boot: u64, ghost tries: seq<(nat, nat)>)
    requires VersionedRead.HostOk(page.host) && |page.host.words| == 2
    modifies page, cell
    ensures VersionedRead.Evolves(old(page.host), page.host)
    ensures |tries| <= attempts && (ok <==> |tries| > 0 && VersionedRead.Undisturbed(tries[|tries| - 1]))
    ensures !ok ==> |tries| == attempts
    ensures cell.returned == if ok then old(cell.returned) + [boot] else old(cell.returned)
    ensures ok && Bypasses(valid, hostStable) ==> boot == raw
    ensures ok && !Bypasses(valid, hostStable) ==> raw <= boot && old(cell.value) <= boot <= cell.value
    ensures ok ==> exists e ::
              && old(page.host.epoch) <= e <= page.host.epoch && e % 2 == 0
              && |page.host.published[e / 2]| == 2
              && ts == TimeOf(boot, page.host.published[e / 2][0], page.host.published[e / 2][1])
  {
    var got;
    ok, got, tries := page.ReadRecord(attempts);
    ts, boot := Timespec(0, 0), 0;
    if ok {
      var nowSec, nowNsec := got[0], got[1];
      ghost var seen;
      var delta: u64;
      delta, seen := ClocksourceRead(cell, valid, raw, hostStable);
      boot := delta;
      delta := Wrap64(delta + Wrap64(Wrap64(nowSec * NSEC_PER_SEC) + nowNsec));
      nowNsec := delta % NSEC_PER_SEC;
      delta := delta / NSEC_PER_SEC;
      nowSec := delta;
      ts := Normalized(nowSec, nowNsec);
    }
  }
}
