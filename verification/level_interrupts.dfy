/** The level-triggered interrupt tests, for an IOAPIC line that sends an interrupt whenever the line is
    high, unmasked and not already being serviced; the end-of-interrupt write ends the service.  Every
    schedule of the main program's steps and the handler's runs is considered. */
module LevelInterrupts {

  /** `servicing` is the remote IRR bit: an interrupt was sent and not yet ended.  `pending`: it has not
      been taken by the CPU yet.  `rises` is history: how often the line has gone from low to high. */
  datatype Line = Line(high: bool, masked: bool, servicing: bool, pending: bool, rises: nat)

  function Settle(d: Line): Line {
    if d.high && !d.masked && !d.servicing then d.(servicing := true, pending := true) else d
  }

  function SetIrqLine(d: Line, high: bool): Line {
    Settle(d.(high := high, rises := if high && !d.high then d.rises + 1 else d.rises))
  }

  function SetMask(d: Line, masked: bool): Line { Settle(d.(masked := masked)) }

  function Eoi(d: Line): Line { Settle(d.(servicing := false)) }

  datatype Handler = Isr98 | Isr99 | Isr9a | Isr83

  datatype State = State(dev: Line, count: nat)

  /** The handlers; they run with interrupts disabled, so as one step. */
  function Handle(h: Handler, s: State): State {
    var n := s.count + 1;
    match h
    case Isr98 =>
      var d := if n == 1 then SetIrqLine(SetIrqLine(s.dev, false), true) else s.dev;
      State(Eoi(SetIrqLine(d, false)), n)
    case Isr99 => State(Eoi(SetIrqLine(s.dev, false)), n)
    case Isr9a => State(Eoi(if n == 2 then SetIrqLine(s.dev, false) else s.dev), n)
    case Isr83 => State(Eoi(SetMask(s.dev, true)), n)
  }

  datatype Event = Raise | Lower | Mask | Unmask | Deliver

  /** One event: a step of the main program, or the CPU taking a pending interrupt. */
  function Step(h: Handler, s: State, e: Event): State {
    match e
    case Raise => s.(dev := SetIrqLine(s.dev, true))
    case Lower => s.(dev := SetIrqLine(s.dev, false))
    case Mask => s.(dev := SetMask(s.dev, true))
    case Unmask => s.(dev := SetMask(s.dev, false))
    case Deliver => if s.dev.pending then Handle(h, s.(dev := s.dev.(pending := false))) else s
  }

  function Run(h: Handler, s: State, events: seq<Event>): State {
    if events == [] then s else Step(h, Run(h, s, events[..|events| - 1]), events[|events| - 1])
  }

  /** After set_ioapic_redir: unmasked, and nothing has happened. */
  function Initial(): State { State(Line(false, false, false, false, 0), 0) }

  /** How often the main program has done e. */
  function Times(events: seq<Event>, e: Event): nat {
    if events == [] then 0
    else Times(events[..|events| - 1], e) + if events[|events| - 1] == e then 1 else 0
  }

  /** The main program only raises the line. */
  predicate OnlyRaises(events: seq<Event>) {
    forall e :: e in events ==> e.Raise? || e.Deliver?
  }

  lemma PrefixRaises(events: seq<Event>)
    requires events != [] && OnlyRaises(events)
    ensures OnlyRaises(events[..|events| - 1]) && (events[|events| - 1].Raise? || events[|events| - 1].Deliver?)
  {
    assert events[|events| - 1] in events;
    assert forall e :: e in events[..|events| - 1] ==> e in events;
  }

  /** Whatever the handler and the schedule, a handler starts in service: what it is delivered for has
      been sent and not ended. */
  lemma {:induction false} DeliveredInService(h: Handler, events: seq<Event>)
    ensures var d := Run(h, Initial(), events).dev; d.pending ==> d.servicing
  {
    if events != [] {
      DeliveredInService(h, events[..|events| - 1]);
    }
  }

  /** After one raise, `ioapic_isr_9a` is re-entered at its first end-of-interrupt and lowers the line
      the second time: in every schedule it runs at most twice, and once nothing is pending it has run
      exactly twice and left the line low. */
  lemma {:induction false} RetriggerRunsTwice(events: seq<Event>)
    requires OnlyRaises(events) && Times(events, Raise) <= 1
    ensures var s := Run(Isr9a, Initial(), events);
            && (Times(events, Raise) == 0 ==> s == Initial())
            && (Times(events, Raise) == 1 ==>
                  && s.count <= 2
                  && (s.dev.pending <==> s.count < 2)
                  && s.dev == Line(s.count < 2, false, s.count < 2, s.count < 2, 1))
  {
    if events != [] {
      PrefixRaises(events);
      RetriggerRunsTwice(events[..|events| - 1]);
    }
  }

  /** After one raise, `ioapic_isr_98` runs once although it toggles the line, which then has risen twice:
      in service, the new edge is not noticed. */
  lemma {:induction false} CoalescedRunsOnce(events: seq<Event>)
    requires OnlyRaises(events) && Times(events, Raise) <= 1
    ensures var s := Run(Isr98, Initial(), events);
            && (Times(events, Raise) == 0 ==> s == Initial())
            && (Times(events, Raise) == 1 ==>
                  && s.count <= 1
                  && (s.dev.pending <==> s.count < 1)
                  && s.dev == Line(s.count < 1, false, s.count < 1, s.count < 1, 1 + s.count))
  {
    if events != [] {
      PrefixRaises(events);
      CoalescedRunsOnce(events[..|events| - 1]);
    }
  }

  /** Raises that found the line low: the first, and each one after a delivery since the last raise. */
  function RisingEdges(events: seq<Event>): nat {
    if events == [] then 0
    else
      var before := events[..|events| - 1];
      RisingEdges(before) + if events[|events| - 1].Raise? && RaisedLow(before) then 1 else 0
  }

  /** The last event that matters is a delivery, or there is none. */
  predicate RaisedLow(events: seq<Event>) {
    events == [] || events[|events| - 1].Deliver?
  }

  /** However often the line is raised, `ioapic_isr_99` runs once per rising edge. */
  lemma {:induction false} SequentialCountsEdges(events: seq<Event>)
    requires OnlyRaises(events)
    ensures var s := Run(Isr99, Initial(), events);
            && s.count + (if s.dev.pending then 1 else 0) == RisingEdges(events)
            && s.dev == Line(s.dev.pending, false, s.dev.pending, s.dev.pending, RisingEdges(events))
            && (s.dev.pending <==> !RaisedLow(events))
  {
    if events != [] {
      PrefixRaises(events);
      SequentialCountsEdges(events[..|events| - 1]);
    }
  }

  /** `test_ioapic_level_sequential` raises the line twice with interrupts enabled.  Its handler runs
      once if both raises come before the delivery, and twice as soon as a delivery comes between. */
  lemma SequentialRuns(before: nat, between: nat, after: nat)
    requires after > 0
    ensures var events := seq(before, _ => Deliver) + [Raise] + seq(between, _ => Deliver) + [Raise] + seq(after, _ => Deliver);
            var s := Run(Isr99, Initial(), events);
            && !s.dev.pending && !s.dev.high
            && s.count == if between == 0 then 1 else 2
  {
    var d0, d1, d2 := seq(before, _ => Deliver), seq(between, _ => Deliver), seq(after, _ => Deliver);
    var e1 := d0 + [Raise];
    var e2 := e1 + d1;
    var e3 := e2 + [Raise];
    var events := e3 + d2;
    assert OnlyRaises(events);
    SequentialCountsEdges(events);
    EdgesOfDeliveries([], before);
    assert [] + d0 == d0;
    assert e1[..|e1| - 1] == d0;
    EdgesOfDeliveries(e1, between);
    assert e3[..|e3| - 1] == e2;
    EdgesOfDeliveries(e3, after);
    assert RaisedLow(d0);
    assert RaisedLow(e2) <==> between > 0 by {
      if between > 0 { assert e2[|e2| - 1] == d1[between - 1]; } else { assert e2 == e1; }
    }
    assert events[|events| - 1] == d2[after - 1];
  }

  lemma {:induction false} EdgesOfDeliveries(events: seq<Event>, n: nat)
    ensures RisingEdges(events + seq(n, _ => Deliver)) == RisingEdges(events)
    decreases n
  {
    var d: seq<Event> := seq(n, _ => Deliver);
    if n == 0 {
      assert events + d == events;
    } else {
      assert (events + d)[..|events + d| - 1] == events + seq(n - 1, _ => Deliver);
      EdgesOfDeliveries(events, n - 1);
    }
  }

  /** Whatever the main program does with line and mask, `ioapic_isr_83`, which masks its own line,
      runs at most once per unmasking (set_ioapic_redir being the first). */
  lemma {:induction false} SelfMaskingRunsOncePerUnmasking(events: seq<Event>)
    ensures var s := Run(Isr83, Initial(), events);
            s.count + (if !s.dev.masked || s.dev.pending then 1 else 0) <= 1 + Times(events, Unmask)
  {
    if events != [] {
      DeliveredInService(Isr83, events[..|events| - 1]);
      SelfMaskingRunsOncePerUnmasking(events[..|events| - 1]);
    }
  }

  // ---------- What every schedule leaves ----------

  /** In every schedule the line settles: with no interrupt in service it is low or masked. */
  lemma {:induction false} SettledIsLowOrMasked(h: Handler, events: seq<Event>)
    ensures var d := Run(h, Initial(), events).dev;
            !d.servicing ==> !d.high || d.masked
  {
    if events != [] {
      SettledIsLowOrMasked(h, events[..|events| - 1]);
    }
  }

  predicate SetsLevel(e: Event) { e.Raise? || e.Lower? }

  predicate SetsMask(e: Event) { e.Mask? || e.Unmask? }

  /** Whether a run of the handler, the count going to n, lowers the line. */
  predicate Lowers(h: Handler, n: nat) {
    h.Isr98? || h.Isr99? || (h.Isr9a? && n == 2)
  }

  /** The line's level is what the last Raise or Lower made it, unless a handler run since then has
      lowered it: `ioapic_isr_98` and `ioapic_isr_99` do whenever they run, `ioapic_isr_9a` when its count
      goes to 2, and `ioapic_isr_83` never. */
  lemma {:induction false} LevelIsTheLastSet(h: Handler, before: seq<Event>, e: Event, since: seq<Event>)
    requires SetsLevel(e) && forall x :: x in since ==> !SetsLevel(x)
    ensures var from, s := Run(h, Initial(), before + [e]), Run(h, Initial(), before + [e] + since);
            && from.count <= s.count
            && (s.dev.high <==> e.Raise? && forall n :: from.count < n <= s.count ==> !Lowers(h, n))
    decreases |since|
  {
    var events := before + [e] + since;
    if since == [] {
      assert events == before + [e] && events[..|events| - 1] == before;
    } else {
      var rest, last := since[..|since| - 1], since[|since| - 1];
      assert events[..|events| - 1] == before + [e] + rest && events[|events| - 1] == last;
      LevelIsTheLastSet(h, before, e, rest);
      assert last in since;
      DeliveryCounts(h, Run(h, Initial(), before + [e] + rest), last);
    }
  }

  /** The mask is what the last Mask or Unmask made it, unless `ioapic_isr_83` has run since then. */
  lemma {:induction false} MaskIsTheLastSet(h: Handler, before: seq<Event>, e: Event, since: seq<Event>)
    requires SetsMask(e) && forall x :: x in since ==> !SetsMask(x)
    ensures var from, s := Run(h, Initial(), before + [e]), Run(h, Initial(), before + [e] + since);
            && from.count <= s.count
            && (s.dev.masked <==> e.Mask? || (h.Isr83? && from.count < s.count))
    decreases |since|
  {
    var events := before + [e] + since;
    if since == [] {
      assert events == before + [e] && events[..|events| - 1] == before;
    } else {
      var rest, last := since[..|since| - 1], since[|since| - 1];
      assert events[..|events| - 1] == before + [e] + rest && events[|events| - 1] == last;
      MaskIsTheLastSet(h, before, e, rest);
      assert last in since;
      DeliveryCounts(h, Run(h, Initial(), before + [e] + rest), last);
    }
  }

  /** The count goes up by one for each pending interrupt the CPU takes, and for nothing else. */
  lemma DeliveryCounts(h: Handler, s: State, e: Event)
    ensures Step(h, s, e).count == s.count + if e.Deliver? && s.dev.pending then 1 else 0
    ensures !SetsLevel(e) ==> (Step(h, s, e).dev.high <==> s.dev.high && !(e.Deliver? && s.dev.pending && Lowers(h, s.count + 1)))
    ensures !SetsMask(e) ==> (Step(h, s, e).dev.masked <==> s.dev.masked || (e.Deliver? && s.dev.pending && h.Isr83?))
  {
  }

  // ---------- The mask tests ----------

  function Deliveries(n: nat): seq<Event> { seq(n, _ => Deliver) }

  /** n deliveries: the first runs the handler if it is pending, and with a handler that leaves nothing
      pending the others do nothing. */
  lemma {:induction false} FirstDeliveryOnly(h: Handler, events: seq<Event>, n: nat)
    requires var d := Step(h, Run(h, Initial(), events), Deliver).dev; !d.pending
    ensures Run(h, Initial(), events + Deliveries(n))
            == if n == 0 then Run(h, Initial(), events) else Step(h, Run(h, Initial(), events), Deliver)
    decreases n
  {
    var all := events + Deliveries(n);
    if n == 0 {
      assert all == events;
    } else {
      assert all[..|all| - 1] == events + Deliveries(n - 1) && all[|all| - 1] == Deliver;
      FirstDeliveryOnly(h, events, n - 1);
    }
  }

  lemma RunOne(h: Handler, events: seq<Event>, e: Event)
    ensures Run(h, Initial(), events + [e]) == Step(h, Run(h, Initial(), events), e)
  {
    assert (events + [e])[..|events|] == events;
  }

  /** `test_ioapic_level_retrigger_mask`, in every schedule of deliveries: the line stays high, so the
      unmasking sends the interrupt again.  The handler runs twice, or once if the first interrupt was
      still pending when the line was unmasked, and leaves the line masked; lowering and then unmasking
      it at the end causes no further run. */
  lemma RetriggerMaskRuns(a: nat, b: nat, c: nat)
    requires b > 0
    ensures var shown := Run(Isr83, Initial(), [Raise] + Deliveries(a) + [Unmask] + Deliveries(b));
            var end := Run(Isr83, Initial(), [Raise] + Deliveries(a) + [Unmask] + Deliveries(b) + [Lower] + [Unmask] + Deliveries(c));
            && shown == State(Line(true, true, false, false, 1), if a == 0 then 1 else 2)
            && end == State(Line(false, false, false, false, 1), shown.count)
  {
    var e1 := [Raise];
    var e2 := e1 + Deliveries(a);
    var e3 := e2 + [Unmask];
    var e4 := e3 + Deliveries(b);
    var e5 := e4 + [Lower];
    var e6 := e5 + [Unmask];
    assert [] + [Raise] == e1;
    RunOne(Isr83, [], Raise);
    FirstDeliveryOnly(Isr83, e1, a);
    RunOne(Isr83, e2, Unmask);
    FirstDeliveryOnly(Isr83, e3, b);
    RunOne(Isr83, e4, Lower);
    RunOne(Isr83, e5, Unmask);
    FirstDeliveryOnly(Isr83, e6, c);
  }

  /** `test_ioapic_level_mask`, whose handler `ioapic_isr_82` does what `ioapic_isr_99` does: raising the
      masked line runs nothing, however often the CPU looks; unmasking it gives one run, which leaves the
      line low. */
  lemma MaskedLineWaits(a: nat, b: nat, c: nat)
    requires c > 0
    ensures Run(Isr99, Initial(), Deliveries(a) + [Mask] + [Raise] + Deliveries(b)) == State(Line(true, true, false, false, 1), 0)
    ensures Run(Isr99, Initial(), Deliveries(a) + [Mask] + [Raise] + Deliveries(b) + [Unmask] + Deliveries(c))
            == State(Line(false, false, false, false, 1), 1)
  {
    var e1 := Deliveries(a);
    var e2 := e1 + [Mask];
    var e3 := e2 + [Raise];
    var e4 := e3 + Deliveries(b);
    var e5 := e4 + [Unmask];
    assert [] + Deliveries(a) == e1;
    FirstDeliveryOnly(Isr99, [], a);
    RunOne(Isr99, e1, Mask);
    RunOne(Isr99, e2, Raise);
    FirstDeliveryOnly(Isr99, e3, b);
    RunOne(Isr99, e4, Unmask);
    FirstDeliveryOnly(Isr99, e5, c);
  }

  // ---------- The handlers as the driver writes them ----------

  class Interrupts {
    var dev: Line
    var g98: nat
    var g99: nat
    var g9a: nat
    var g83: nat

    method Set(high: bool)
      modifies this`dev
      ensures dev == SetIrqLine(old(dev), high)
    {
      dev := Settle(dev.(high := high, rises := if high && !dev.high then dev.rises + 1 else dev.rises));
    }

    method EndOfInterrupt()
      modifies this`dev
      ensures dev == Eoi(old(dev))
    {
      dev := Settle(dev.(servicing := false));
    }

    /** The CPU has taken this line's interrupt and the handler has not ended it yet. */
    ghost predicate InService()
      reads this`dev
    {
      dev.servicing && !dev.pending
    }

    /** The first run makes the line rise once more; every run leaves it low, with nothing sent again. */
    method IoapicIsr98()
      modifies this`dev, this`g98
      ensures g98 == old(g98) + 1
      ensures old(InService()) ==>
                dev == old(dev).(high := false, servicing := false, rises := if g98 == 1 then old(dev.rises) + 1 else old(dev.rises))
      ensures State(dev, g98) == Handle(Isr98, State(old(dev), old(g98)))
    {
      g98 := g98 + 1;
      if g98 == 1 {
        Set(false);
        Set(true);
      }
      Set(false);
      EndOfInterrupt();
    }

    /** The line ends low, with nothing sent again. */
    method IoapicIsr99()
      modifies this`dev, this`g99
      ensures g99 == old(g99) + 1
      ensures old(InService()) ==> dev == old(dev).(high := false, servicing := false)
      ensures State(dev, g99) == Handle(Isr99, State(old(dev), old(g99)))
    {
      g99 := g99 + 1;
      Set(false);
      EndOfInterrupt();
    }

    /** Every run but the second leaves the line as it is, and the interrupt is sent again at once if the
        line is high and unmasked; the second leaves it low, with nothing sent again. */
    method IoapicIsr9a()
      modifies this`dev, this`g9a
      ensures g9a == old(g9a) + 1 && dev.masked == old(dev.masked)
      ensures dev.high <==> old(dev.high) && g9a != 2
      ensures old(InService()) ==>
                dev.pending == dev.servicing == (old(dev.high) && !old(dev.masked) && g9a != 2)
      ensures State(dev, g9a) == Handle(Isr9a, State(old(dev), old(g9a)))
    {
      g9a := g9a + 1;
      if g9a == 2 {
        Set(false);
      }
      EndOfInterrupt();
    }

    /** The line ends masked, so nothing is sent again however high it stays. */
    method IoapicIsr83()
      modifies this`dev, this`g83
      ensures g83 == old(g83) + 1
      ensures old(InService()) ==> dev == old(dev).(masked := true, servicing := false)
      ensures State(dev, g83) == Handle(Isr83, State(old(dev), old(g83)))
    {
      g83 := g83 + 1;
      dev := SetMask(dev, true);
      EndOfInterrupt();
    }
  }
}
