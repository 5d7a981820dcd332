/** The versioned read of a host-published record: the do-while loops of `pvclock_read_wallclock`
    and `pvclock_clocksource_read`.

    The host makes the 32-bit version odd, writes the words of the record, and makes the version
    even again.  The reader loads the version, then the words one at a time, and then tests that the
    version is even and still the one it loaded; each of the two tests loads the version again. */
module VersionedRead {
  import opened Words

  // ---------- The host ----------

  /** `epoch` counts the changes of the version without wrap-around; `published` is the history of
      complete records, indexed by half the even epoch that published them. */
  datatype Host = Host(epoch: nat, words: seq<int>, published: seq<seq<int>>)

  datatype HostAction = Toggle | Write(index: nat, value: int)

  function Version(h: Host): u32 { h.epoch % TWO32 }

  /** Words change only while the version is odd. */
  function HostStep(h: Host, a: HostAction): Host {
    match a
    case Toggle =>
      Host(h.epoch + 1, h.words, if h.epoch % 2 == 1 then h.published + [h.words] else h.published)
    case Write(i, v) =>
      if h.epoch % 2 == 1 && i < |h.words| then h.(words := h.words[i := v]) else h
  }

  ghost predicate HostOk(h: Host) {
    && |h.published| == h.epoch / 2 + 1
    && (forall k :: 0 <= k < |h.published| ==> |h.published[k]| == |h.words|)
    && (h.epoch % 2 == 0 ==> h.published[h.epoch / 2] == h.words)
  }

  /** `later` is reachable from `h`: nothing published is forgotten or altered. */
  ghost predicate Evolves(h: Host, later: Host) {
    && HostOk(h) && HostOk(later)
    && h.epoch <= later.epoch
    && |h.words| == |later.words|
    && h.published <= later.published
    && (h.epoch % 2 == 0 && later.epoch == h.epoch ==> later.words == h.words)
  }

  lemma HostStepEvolves(h: Host, a: HostAction)
    requires HostOk(h)
    ensures Evolves(h, HostStep(h, a))
  {
  }

  // ---------- The reader ----------

  datatype Reader =
    | Start                                           // about to load the version
    | Fields(version: u32, got: seq<int>)             // about to load word number |got|
    | TestOdd(version: u32, got: seq<int>)            // about to load the version for the first test
    | TestSame(version: u32, got: seq<int>, evenAt: nat) // about to load it for the second test
    | Out(got: seq<int>, acceptedAt: nat)

  /** `from` is the epoch at which the current attempt loaded the version. */
  datatype World = World(host: Host, reader: Reader, from: nat)

  datatype Action = ByHost(act: HostAction) | ByReader

  function NextField(version: u32, got: seq<int>, width: nat): Reader {
    if |got| < width then Fields(version, got) else TestOdd(version, got)
  }

  function ReaderStep(w: World): World {
    var h := w.host;
    match w.reader
    case Start => World(h, NextField(Version(h), [], |h.words|), h.epoch)
    case Fields(v, got) =>
      if |got| < |h.words| then w.(reader := NextField(v, got + [h.words[|got|]], |h.words|)) else w
    case TestOdd(v, got) =>
      w.(reader := if Version(h) % 2 == 1 then Start else TestSame(v, got, h.epoch))
    case TestSame(v, got, _) =>
      w.(reader := if v != Version(h) then Start else Out(got, h.epoch))
    case Out(_, _) => w
  }

  function Step(w: World, a: Action): World {
    match a
    case ByHost(act) => w.(host := HostStep(w.host, act))
    case ByReader => ReaderStep(w)
  }

  function Run(w: World, acts: seq<Action>): World
    decreases |acts|
  {
    if acts == [] then w else Run(Step(w, acts[0]), acts[1..])
  }

  /** Words loaded in an attempt that began at an even epoch and has not been disturbed since are
      words of the record published at that epoch. */
  ghost predicate GotOk(h: Host, from: nat, version: u32, got: seq<int>) {
    && version == from % TWO32
    && from <= h.epoch
    && |got| <= |h.words|
    && (from % 2 == 0 && h.epoch == from ==> got <= h.words)
  }

  ghost predicate Inv(w: World, begin: nat) {
    && HostOk(w.host)
    && begin <= w.host.epoch
    && match w.reader
       case Start => true
       case Fields(v, got) => begin <= w.from && GotOk(w.host, w.from, v, got) && |got| < |w.host.words|
       case TestOdd(v, got) => begin <= w.from && GotOk(w.host, w.from, v, got) && |got| == |w.host.words|
       case TestSame(v, got, evenAt) =>
         begin <= w.from && GotOk(w.host, w.from, v, got) && |got| == |w.host.words|
         && evenAt % 2 == 0 && w.from <= evenAt <= w.host.epoch
       case Out(got, acceptedAt) =>
         begin <= w.from && w.from <= acceptedAt <= w.host.epoch
         && (acceptedAt - w.from < TWO32 ==>
               && acceptedAt == w.from && w.from % 2 == 0
               && w.from / 2 < |w.host.published| && got == w.host.published[w.from / 2])
  }

  lemma SameVersion(x: nat, y: nat)
    requires x <= y < x + TWO32
    ensures x % TWO32 == y % TWO32 <==> x == y
  {
  }

  lemma VersionParity(x: nat)
    ensures x % TWO32 % 2 == x % 2
  {
  }

  lemma StepKeepsInv(w: World, begin: nat, a: Action)
    requires Inv(w, begin)
    ensures Inv(Step(w, a), begin)
  {
    if a.ByHost? {
      HostStepEvolves(w.host, a.act);
    } else if w.reader.TestSame? {
      if w.host.epoch - w.from < TWO32 {
        SameVersion(w.from, w.host.epoch);
      }
    } else if w.reader.TestOdd? {
      VersionParity(w.host.epoch);
    }
  }

  lemma {:induction false} RunKeepsInv(w: World, begin: nat, acts: seq<Action>)
    requires Inv(w, begin)
    ensures Inv(Run(w, acts), begin)
    decreases |acts|
  {
    if acts != [] {
      StepKeepsInv(w, begin, acts[0]);
      RunKeepsInv(Step(w, acts[0]), begin, acts[1..]);
    }
  }

  /** No torn record, in any interleaving with the host: if the loop exits and fewer than 2^31
      updates touched its last attempt (so fewer than 2^32 version changes), everything it loaded is
      one published record, the one current throughout that attempt, and no older than the call. */
  lemma NeverTorn(h: Host, acts: seq<Action>)
    requires HostOk(h)
    ensures var w := Run(World(h, Start, 0), acts);
            w.reader.Out? && w.reader.acceptedAt - w.from < TWO32 ==>
              && w.from == w.reader.acceptedAt && w.from % 2 == 0 && h.epoch <= w.from
              && w.from / 2 < |w.host.published|
              && w.reader.got == w.host.published[w.from / 2]
  {
    RunKeepsInv(World(h, Start, 0), h.epoch, acts);
  }

  /** The double load of the version costs nothing: at the second test the attempt is accepted
      exactly when the host has not changed the version since the attempt began. */
  lemma AcceptsIffUndisturbed(h: Host, acts: seq<Action>)
    requires HostOk(h)
    ensures var w := Run(World(h, Start, 0), acts);
            w.reader.TestSame? && w.host.epoch - w.from < TWO32 ==>
              (ReaderStep(w).reader.Out? <==> w.host.epoch == w.from)
  {
    RunKeepsInv(World(h, Start, 0), h.epoch, acts);
    var w := Run(World(h, Start, 0), acts);
    if w.reader.TestSame? && w.host.epoch - w.from < TWO32 {
      SameVersion(w.from, w.host.epoch);
    }
  }

  lemma {:induction false} QuietFields(w: World, n: nat)
    requires HostOk(w.host) && w.host.epoch % 2 == 0 && w.from == w.host.epoch
    requires n <= |w.host.words|
    requires w.reader == NextField(Version(w.host), w.host.words[..|w.host.words| - n], |w.host.words|)
    ensures Run(w, seq(n + 2, _ => ByReader)) == World(w.host, Out(w.host.words, w.host.epoch), w.from)
    decreases n
  {
    var acts: seq<Action> := seq(n + 2, _ => ByReader);
    var k := |w.host.words| - n;
    assert acts[1..] == seq(n + 1, _ => ByReader);
    if n == 0 {
      VersionParity(w.host.epoch);
      assert w.host.words[..k] == w.host.words;
      var w1 := ReaderStep(w);
      var w2 := ReaderStep(w1);
      assert acts[1..][1..] == [];
      assert Run(w1, acts[1..]) == Run(w2, []);
    } else {
      assert w.host.words[..k] + [w.host.words[k]] == w.host.words[..k + 1];
      QuietFields(ReaderStep(w), n - 1);
    }
  }

  /** Acceptance is reachable: an attempt that begins at an even version and is left alone returns
      the current record after loading each word once. */
  lemma QuietAttemptAccepted(h: Host)
    requires HostOk(h) && h.epoch % 2 == 0
    ensures Run(World(h, Start, 0), seq(|h.words| + 3, _ => ByReader)).reader == Out(h.words, h.epoch)
    ensures h.words == h.published[h.epoch / 2]
  {
    var acts: seq<Action> := seq(|h.words| + 3, _ => ByReader);
    assert acts[1..] == seq(|h.words| + 2, _ => ByReader);
    assert h.words[..0] == [];
    QuietFields(ReaderStep(World(h, Start, 0)), |h.words|);
  }

  // ---------- The 2^31 limit is exact ----------

  function Update(x: int, y: int): seq<Action> {
    [ByHost(Toggle), ByHost(Write(0, x)), ByHost(Write(1, y)), ByHost(Toggle)]
  }

  function Updates(x: int, y: int, n: nat): seq<Action> {
    if n == 0 then [] else Update(x, y) + Updates(x, y, n - 1)
  }

  lemma {:induction false} RunConcat(w: World, xs: seq<Action>, ys: seq<Action>)
    ensures Run(w, xs + ys) == Run(Run(w, xs), ys)
    decreases |xs|
  {
    if xs == [] {
      assert xs + ys == ys;
    } else {
      assert (xs + ys)[1..] == xs[1..] + ys;
      RunConcat(Step(w, xs[0]), xs[1..], ys);
    }
  }

  lemma FourSteps(w: World, a: Action, b: Action, c: Action, d: Action)
    ensures Run(w, [a, b, c, d]) == Step(Step(Step(Step(w, a), b), c), d)
  {
    hide Step;
    assert [a, b, c, d][1..] == [b, c, d] && [b, c, d][1..] == [c, d] && [c, d][1..] == [d] && [d][1..] == [];
    var w1 := Step(w, a);
    var w2 := Step(w1, b);
    var w3 := Step(w2, c);
    assert Run(w, [a, b, c, d]) == Run(w1, [b, c, d]) == Run(w2, [c, d]) == Run(w3, [d]) == Run(Step(w3, d), []);
  }

  lemma ToggleEffect(w: World)
    ensures Step(w, ByHost(Toggle))
            == w.(host := Host(w.host.epoch + 1, w.host.words,
                               if w.host.epoch % 2 == 1 then w.host.published + [w.host.words] else w.host.published))
  {
  }

  lemma WriteEffect(w: World, i: nat, v: int)
    requires w.host.epoch % 2 == 1 && i < |w.host.words|
    ensures Step(w, ByHost(Write(i, v))) == w.(host := w.host.(words := w.host.words[i := v]))
  {
  }

  lemma UpdateEffect(w: World, x: int, y: int)
    requires w.host.epoch % 2 == 0 && |w.host.words| == 2
    ensures Run(w, Update(x, y))
            == w.(host := Host(w.host.epoch + 2, [x, y], w.host.published + [[x, y]]))
  {
    hide Run, Step;
    FourSteps(w, ByHost(Toggle), ByHost(Write(0, x)), ByHost(Write(1, y)), ByHost(Toggle));
    var w1 := Step(w, ByHost(Toggle));
    ToggleEffect(w);
    assert w1.host.epoch % 2 == 1;
    WriteEffect(w1, 0, x);
    var w2 := Step(w1, ByHost(Write(0, x)));
    WriteEffect(w2, 1, y);
    var w3 := Step(w2, ByHost(Write(1, y)));
    assert w3.host.words == [x, y];
    ToggleEffect(w3);
  }

  lemma {:induction false} UpdatesEffect(w: World, x: int, y: int, n: nat)
    requires w.host.epoch % 2 == 0 && |w.host.words| == 2 && n >= 1
    ensures var w' := Run(w, Updates(x, y, n));
            && w'.host.epoch == w.host.epoch + 2 * n && w'.host.words == [x, y]
            && w'.reader == w.reader && w'.from == w.from
            && forall p :: p in w'.host.published ==> p in w.host.published || p == [x, y]
    decreases n
  {
    RunConcat(w, Update(x, y), Updates(x, y, n - 1));
    UpdateEffect(w, x, y);
    if n > 1 {
      UpdatesEffect(Run(w, Update(x, y)), x, y, n - 1);
    }
  }

  /** With exactly 2^31 updates inside one attempt the version wraps back to the value first loaded,
      and the loop returns a record the host never published. */
  lemma TornAtTheLimit(a: int, b: int, x: int, y: int)
    requires a != x && b != y
    ensures var h := Host(0, [a, b], [[a, b]]);
            var acts := [ByReader, ByReader] + Updates(x, y, TWO31) + [ByReader, ByReader, ByReader];
            var w := Run(World(h, Start, 0), acts);
            && HostOk(h)
            && w.reader == Out([a, y], TWO32) && w.from == 0
            && [a, y] !in w.host.published
  {
    var h := Host(0, [a, b], [[a, b]]);
    var w0 := World(h, Start, 0);
    var pre, mid, post := [ByReader, ByReader], Updates(x, y, TWO31), [ByReader, ByReader, ByReader];
    RunConcat(w0, pre + mid, post);
    RunConcat(w0, pre, mid);
    var w1 := World(h, Fields(0, [a]), 0);
    assert pre[1..] == [ByReader] && pre[1..][1..] == [];
    assert Run(w0, pre) == Run(Step(w0, ByReader), [ByReader]) == Run(w1, []) by {
      assert [] + [a] == [a];
    }
    UpdatesEffect(w1, x, y, TWO31);
    var w2 := Run(w1, mid);
    assert w2.host.epoch == TWO32;
    assert post[1..] == [ByReader, ByReader] && post[1..][1..] == [ByReader] && [ByReader][1..] == [];
    var w3 := ReaderStep(w2);
    assert w3.reader == TestOdd(0, [a, y]) by { assert [a] + [y] == [a, y]; }
    var w4 := ReaderStep(w3);
    var w5 := ReaderStep(w4);
    assert Run(w2, post) == Run(w3, [ByReader, ByReader]) == Run(w4, [ByReader]) == Run(w5, []);
    assert [a, y] != [a, b] && [a, y] != [x, y] by {
      assert [a, y][0] == a && [x, y][0] == x && [a, y][1] == y && [a, b][1] == b;
    }
  }

  /** Every record accepted by an attempt that saw fewer than `changes` changes of the version was
      published. */
  ghost predicate SoundBelow(changes: nat) {
    forall h: Host, acts: seq<Action> ::
      var w := Run(World(h, Start, 0), acts);
      HostOk(h) && w.reader.Out? && w.reader.acceptedAt - w.from < changes ==> w.reader.got in w.host.published
  }

  /** 2^32 changes, that is 2^31 updates, is the exact limit of the version test. */
  lemma LargestSoundLimit(changes: nat)
    ensures SoundBelow(changes) <==> changes <= TWO32
  {
    if changes <= TWO32 {
      forall h: Host, acts: seq<Action> |
        var w := Run(World(h, Start, 0), acts); HostOk(h) && w.reader.Out? && w.reader.acceptedAt - w.from < changes
        ensures var w := Run(World(h, Start, 0), acts); w.reader.Out? && w.reader.got in w.host.published
      {
        NeverTorn(h, acts);
      }
    } else {
      TornAtTheLimit(0, 0, 1, 1);
    }
  }

  // ---------- The retry loop as the driver runs it ----------

  /** An attempt that began at this even epoch ended at it. */
  ghost predicate Undisturbed(attempt: (nat, nat)) {
    attempt.0 % 2 == 0 && attempt.1 == attempt.0
  }

  /** The shared page, with the host's history beside it. */
  class HostPage {
    var host: Host

    method LoadVersion() returns (version: u32)
      ensures version == Version(host)
    {
      version := host.epoch % TWO32;
    }

    method LoadWord(index: nat) returns (word: int)
      requires index < |host.words|
      ensures word == host.words[index]
    {
      word := host.words[index];
    }

    /** The host runs for any number of steps, taking the version through no change beyond `limit`. */
    method HostRuns(limit: nat)
      requires HostOk(host) && host.epoch <= limit
      modifies this
      ensures Evolves(old(host), host) && host.epoch <= limit
    {
      var steps: nat := *;
      while steps > 0
        invariant Evolves(old(host), host) && host.epoch <= limit
      {
        var toggle: bool, index: nat, value: int := *, *, *;
        var act := if toggle then Toggle else Write(index, value);
        if !toggle || host.epoch < limit {
          HostStepEvolves(host, act);
          host := HostStep(host, act);
        }
        steps := steps - 1;
      }
    }

    /** One pass through the loop's body and test, during which the host changes the version fewer
        than 2^32 times.  It accepts exactly when it began at an even version that has not changed. */
    method Attempt() returns (ok: bool, got: seq<int>)
      requires HostOk(host)
      modifies this
      ensures Evolves(old(host), host)
      ensures ok <==> old(host.epoch) % 2 == 0 && host.epoch == old(host.epoch)
      ensures ok ==> got == host.published[host.epoch / 2]
    {
      ok, got := false, [];
      var limit := host.epoch + TWO32 - 1;
      var version := LoadVersion();
      while |got| < |host.words|
        invariant Evolves(old(host), host) && host.epoch <= limit
        invariant GotOk(host, old(host.epoch), version, got)
        decreases old(|host.words|) - |got|
      {
        HostRuns(limit);
        var word := LoadWord(|got|);
        got := got + [word];
      }
      HostRuns(limit);
      var test := LoadVersion();
      VersionParity(host.epoch);
      if test % 2 == 0 {
        HostRuns(limit);
        test := LoadVersion();
        SameVersion(old(host.epoch), host.epoch);
        ok := version == test;
      }
    }

    /** The do-while loop, cut off after `attempts` failed attempts (the driver has no cut-off).  An
        accepted record is one the host published, current at some moment between call and return.
        `tries` are the epochs at which the attempts began and ended: the loop ends with the first
        attempt that begins at an even version and is not disturbed. */
    method ReadRecord(attempts: nat) returns (ok: bool, got: seq<int>, ghost tries: seq<(nat, nat)>)
      requires HostOk(host)
      modifies this
      ensures Evolves(old(host), host)
      ensures ok ==> exists e :: old(host.epoch) <= e <= host.epoch && e % 2 == 0 && got == host.published[e / 2]
      ensures |tries| <= attempts && (if ok then |tries| > 0 else |tries| == attempts)
      ensures forall k :: 0 <= k < |tries| ==>
                old(host.epoch) <= tries[k].0 <= tries[k].1 <= host.epoch
                && (Undisturbed(tries[k]) <==> ok && k == |tries| - 1)
    {
      ok, got, tries := false, [], [];
      var left := attempts;
      while left > 0 && !ok
        invariant Evolves(old(host), host) && |tries| + left == attempts && (ok ==> |tries| > 0)
        invariant ok ==> host.epoch % 2 == 0 && got == host.published[host.epoch / 2]
        invariant forall k :: 0 <= k < |tries| ==>
                    old(host.epoch) <= tries[k].0 <= tries[k].1 <= host.epoch
                    && (Undisturbed(tries[k]) <==> ok && k == |tries| - 1)
        decreases left
      {
        HostRuns(host.epoch + TWO32);
        ghost var from := host.epoch;
        ok, got := Attempt();
        tries := tries + [(from, host.epoch)];
        left := left - 1;
      }
    }
  }
}
