/**
 * The probe as it runs over the virtual COM port, with the host behind it: the relay on its rings, the board's FIFO
 * and line, the host's decoder. Whatever they do is a history of the path.
 */
module ProbeRun {
  import opened Bytes
  import opened Framing
  import opened RelayModel
  import opened RelayRings
  import opened ByteFifos
  import opened BoardTx
  import opened Deframing
  import opened VcpPath
  import Delivery

  // ---- A relay run as a history ----

  function HappeningOf(e: Event): Happening {
    match e
    case Rx(b, ts) => Arrive(b, ts)
    case Note(k) => Lose(k)
    case Tick(_) => Consume
  }

  function HappeningsOf(evs: seq<Event>): seq<Happening> {
    seq(|evs|, i requires 0 <= i < |evs| => HappeningOf(evs[i]))
  }

  /** A step that offers nothing does not depend on the sink. */
  lemma {:induction false} NoOfferNoMatter(s: RelayModel.State, ok: bool)
    requires !Offered(s.c).Offer?
    ensures Step(s, Tick(ok)) == Step(s, Tick(false))
  {
  }

  lemma {:induction false} EventHappens(s: System, e: Event)
    requires e.Tick? && Offered(s.relay.c).Offer? ==> (e.ok <==> Taken(s.relay.c, s.fifo))
    ensures Happen(s, HappeningOf(e)) ==
            s.(relay := Step(s.relay, e),
               fifo := if e.Tick? && e.ok && Offered(s.relay.c).Offer?
                       then s.fifo + Offered(s.relay.c).f.Wire() else s.fifo)
  {
    hide Step, Frame.Wire;
    if e.Tick? && !Offered(s.relay.c).Offer? { NoOfferNoMatter(s.relay, e.ok); }
  }

  /** If the FIFO has answered for itself, the run of the relay is a history of the path. */
  lemma {:induction false} RunIsHistory(s: System, evs: seq<Event>, y: seq<byte>)
    requires Told(s.relay, evs, s.fifo, y, FIFO_USABLE + 1)
    ensures History(s, HappeningsOf(evs)) == s.(relay := Run(s.relay, evs), fifo := y)
    decreases |evs|
  {
    hide Happen, Step, Frame.Wire;
    if evs != [] {
      var n := |evs| - 1;
      var front, e := evs[..n], evs[n];
      var y' := s.fifo + Accepted(Answers(s.relay, front));
      FrontTold(s.relay, evs, s.fifo, y, FIFO_USABLE + 1);
      RunIsHistory(s, front, y');
      var t := s.(relay := Run(s.relay, front), fifo := y');
      assert HappeningsOf(evs)[..n] == HappeningsOf(front);
      EventHappens(t, e);
    }
  }

  /** The last answer of a run, and the run before it. */
  lemma {:induction false} FrontTold(s: RelayModel.State, evs: seq<Event>, x: seq<byte>, y: seq<byte>, cap: nat)
    requires evs != [] && Told(s, evs, x, y, cap)
    ensures var front, e := evs[..|evs| - 1], evs[|evs| - 1];
            var y', c := x + Accepted(Answers(s, front)), Run(s, front).c;
            && Told(s, front, x, y', cap)
            && (e.Tick? && Offered(c).Offer? ==>
                  Offered(c).f.Fits() && (e.ok <==> |Offered(c).f.Wire()| <= cap - 1 - |y'|))
            && y == y' + if e.Tick? && Offered(c).Offer? && e.ok then Offered(c).f.Wire() else []
  {
    hide Run, Frame.Wire;
    var front, e := evs[..|evs| - 1], evs[|evs| - 1];
    var before, c := Answers(s, front), Run(s, front).c;
    if e.Tick? && Offered(c).Offer? {
      var a := Answer(Offered(c).f, e.ok);
      assert Answers(s, evs) == before + [a];
      assert (before + [a])[..|before|] == before;
      ConcatAssociative(x, Accepted(before), if a.ok then a.f.Wire() else []);
    } else {
      assert Answers(s, evs) == before;
    }
  }

  // ---- What the main loop and the host do, one call at a time ----

  datatype Act = Interrupting | Polling | Draining(ready: nat) | Hearing(k: nat)

  /** A poll, into the FIFO of 256 bytes. */
  ghost predicate PolledFrom(s: System, t: System, head: nat, n: nat, e: nat) {
    && t == s.(relay := t.relay, fifo := t.fifo) && Grows(s.relay.p, t.relay.p)
    && Polled(s.relay, t.relay, s.fifo, t.fifo, 256, head, n, e)
  }

  /** The oldest `k` bytes of the FIFO go out on the line. */
  function Moved(s: System, k: nat): System
    requires k <= |s.fifo|
  {
    s.(fifo := s.fifo[k..], line := s.line + s.fifo[..k])
  }

  ghost predicate Does(a: Act, s: System, t: System) {
    match a
    case Interrupting => t == s.(relay := t.relay) && t.relay.c == s.relay.c && Grows(s.relay.p, t.relay.p)
    case Polling => exists head, n, e :: PolledFrom(s, t, head, n, e)
    case Draining(ready) => t == Moved(s, if ready <= |s.fifo| then ready else |s.fifo|)
    case Hearing(k) => t == Happen(s, Happening.Hear(k))
  }

  /** A trace of the path, one state before the first act and one after each. */
  ghost predicate Traced(acts: seq<Act>, trace: seq<System>) {
    && |trace| == |acts| + 1
    && (forall i :: 0 <= i < |trace| ==> SystemInv(trace[i]))
    && (forall i :: 0 <= i < |acts| ==> Does(acts[i], trace[i], trace[i + 1]))
  }

  lemma {:induction false} TraceBegins(s: System)
    requires SystemInv(s)
    ensures Traced([], [s])
  {
    hide SystemInv, Does;
  }

  lemma {:induction false} TraceGoesOn(acts: seq<Act>, i: nat, trace: seq<System>, t: System)
    requires i < |acts| && Traced(acts[..i], trace) && SystemInv(t) && Does(acts[i], trace[i], t)
    ensures Traced(acts[..i + 1], trace + [t])
  {
    hide SystemInv, Does;
  }

  // ---- The objects ----

  class Probe {
    const relay: Relay
    const board: Board
    const host: Deframer
    var heard: nat
    var reports: seq<Report>
    ghost var path: System

    ghost predicate Valid()
      reads this, relay, relay.data, relay.markPos, relay.markTs, relay.tx, board, board.tx, board.tx.buf, host
    {
      && relay.Valid() && board.Valid() && relay.tx == board.tx && relay.m.c.pc.Idle?
      && path.relay == relay.m && path.fifo == board.tx.Contents() && path.line == board.line
      && path.heard == heard <= |board.line| && path.host == host.Now() && path.reports == reports
      && SystemInv(path)
    }

    lemma {:induction false} SystemIn()
      requires Valid()
      ensures SystemInv(path)
    {
      hide SystemInv, Relay.Valid, ByteFifo.Contents;
    }

    constructor ()
      ensures Valid() && path == POWER_ON
      ensures fresh(relay) && fresh(relay.data) && fresh(relay.markPos) && fresh(relay.markTs)
      ensures fresh(board) && fresh(board.tx) && fresh(board.tx.buf) && fresh(host)
    {
      hide SystemInv, Inv, Relay.Valid, ByteFifo.Contents;
      PowerOnInv();
      var b := new Board();
      board := b;
      relay := new Relay(b.tx);
      host := new Deframer();
      heard, reports, path := 0, [], POWER_ON;
    }

    /** Bytes come in and losses are noted, between two polls. */
    method Interrupt() returns (ghost hs: seq<Happening>)
      requires Valid()
      modifies this, relay, relay.data, relay.markPos, relay.markTs
      ensures Valid() && path == History(old(path), hs) && Does(Interrupting, old(path), path)
    {
      hide SystemInv, Inv, History, Step, Run, ByteFifo.Contents, ByteFifo.Valid, Relay.Valid, Told;
      ghost var queued := board.tx.Contents();
      ghost var evs := relay.Interfere();
      ProducerRunKeepsConsumer(path.relay, evs);
      InterruptTold(path.relay, evs, queued, FIFO_USABLE + 1);
      RunIsHistory(path, evs, queued);
      hs := HappeningsOf(evs);
      HistoryKeepsInv(path, hs);
      path := path.(relay := relay.m);
    }

    method Poll() returns (e: nat, ghost hs: seq<Happening>, ghost head: nat, ghost n: nat)
      requires Valid()
      modifies this, relay, relay.data, relay.markPos, relay.markTs, board.tx, board.tx.buf
      ensures Valid() && path == History(old(path), hs)
      ensures PolledFrom(old(path), path, head, n, e)
    {
      hide SystemInv, Inv, History, Step, Run, ByteFifo.Contents, ByteFifo.Valid, Relay.Valid, Told, Polled;
      ghost var evs;
      e, evs, head, n := relay.Poll();
      relay.SinkIsValid();
      RunIsHistory(path, evs, board.tx.Contents());
      RunGrows(path.relay, evs);
      hs := HappeningsOf(evs);
      HistoryKeepsInv(path, hs);
      path := path.(relay := relay.m, fifo := board.tx.Contents());
    }

    /** The transmit register is found empty `ready` times. */
    method Drain(ready: nat) returns (ghost hs: seq<Happening>)
      requires Valid()
      modifies this, board, board.tx
      ensures Valid() && path == History(old(path), hs)
      ensures Does(Draining(ready), old(path), path)
    {
      hide SystemInv, Inv, History, ByteFifo.Contents, Drains, Relay.Valid;
      board.PcPoll(ready, path);
      relay.SinkMoved();
      hs := Drains(if ready <= |path.fifo| then ready else |path.fifo|);
      HistoryKeepsInv(path, hs);
      path := path.(fifo := board.tx.Contents(), line := board.line);
    }

    /** The host reads up to `k` bytes and feeds them to its decoder. */
    method Hear(k: nat) returns (ghost hs: seq<Happening>)
      requires Valid()
      modifies this, host
      ensures Valid() && path == History(old(path), hs) && Does(Hearing(k), old(path), path)
    {
      hide SystemInv, Inv, After, Reports, ByteFifo.Contents, ByteFifo.Valid, Relay.Valid;
      var upTo := if heard + k <= |board.line| then heard + k else |board.line|;
      var out := host.Feed(board.line[heard..upTo]);
      hs := [Happening.Hear(k)];
      Delivery.HistoryOne(path, Happening.Hear(k));
      HistoryKeepsInv(path, hs);
      path := Happen(path, Happening.Hear(k));
      heard, reports := upTo, reports + out;
    }

    method Perform(a: Act) returns (ghost hs: seq<Happening>)
      requires Valid()
      modifies this, relay, relay.data, relay.markPos, relay.markTs, board, board.tx, board.tx.buf, host
      ensures Valid() && path == History(old(path), hs) && Does(a, old(path), path)
    {
      hide Valid, History, PolledFrom, Moved;
      match a
      case Interrupting => hs := Interrupt();
      case Polling =>
        var e;
        ghost var head, n;
        e, hs, head, n := Poll();
      case Draining(ready) => hs := Drain(ready);
      case Hearing(k) => hs := Hear(k);
    }

    /** Interrupts, polls, drains and reads, in any order. */
    method AnyRun(acts: seq<Act>) returns (ghost hs: seq<Happening>, ghost trace: seq<System>)
      requires Valid()
      modifies this, relay, relay.data, relay.markPos, relay.markTs, board, board.tx, board.tx.buf, host
      ensures Valid() && path == History(old(path), hs)
      ensures |trace| == |acts| + 1 && Traced(acts, trace) && trace[0] == old(path) && trace[|acts|] == path
    {
      SystemIn();
      hide Valid, History, Does, SystemInv, Traced;
      TraceBegins(path);
      ghost var start := path;
      Delivery.NoHistory(start);
      hs, trace := [], [path];
      for i := 0 to |acts|
        invariant Valid() && path == History(start, hs)
        invariant |trace| == i + 1 && Traced(acts[..i], trace) && trace[0] == start && trace[i] == path
      {
        ghost var more := Perform(acts[i]);
        SystemIn();
        Delivery.HistorySplits(start, hs, more);
        TraceGoesOn(acts, i, trace, path);
        hs, trace := hs + more, trace + [path];
      }
      assert acts[..|acts|] == acts;
    }
  }

  lemma {:induction false} InterruptTold(s: RelayModel.State, evs: seq<Event>, x: seq<byte>, cap: nat)
    requires ProducerOnly(evs)
    ensures Told(s, evs, x, x, cap)
  {
    NoAnswers(s, evs);
    hide Answers;
  }

  /**
   * End to end for the code's own objects: after any run of interrupts, polls, drains and host reads, the host has seen
   * no error, and the stamped bytes it has are a prefix of the stamped bytes the relay has accepted.
   */
  method AnyProbeRun(acts: seq<Act>) returns (probe: Probe, ghost hs: seq<Happening>, ghost trace: seq<System>)
    ensures probe.Valid() && probe.path == History(POWER_ON, hs)
    ensures |trace| == |acts| + 1 && Traced(acts, trace) && trace[0] == POWER_ON && trace[|acts|] == probe.path
    ensures forall r :: r in probe.reports ==> !r.IsError()
    ensures HostCells(probe.reports) <= Stamped(probe.relay.m.p)
  {
    hide Report.IsError, Stamped, HostCells, History, Does;
    probe := new Probe();
    hs, trace := probe.AnyRun(acts);
    EndToEnd(hs);
  }

  // ---- The main loop delivers ----

  /** With an empty FIFO a poll makes headway as long as anything is unread. */
  lemma {:induction false} PollMakesHeadway(s: System, t: System)
    requires SystemInv(s) && SystemInv(t) && Does(Polling, s, t) && s.fifo == []
    ensures Grows(s.relay.p, t.relay.p)
    ensures |s.relay.p.bytes| > s.relay.c.tail ==> t.relay.c.tail > s.relay.c.tail
    ensures t.relay.c.tail >= s.relay.c.tail
  {
    Delivery.RelayOf(s);
    Delivery.RelayOf(t);
    hide SystemInv, Inv, Polled, Grows;
    var head, n, e :| PolledFrom(s, t, head, n, e);
    PollDelivers(s.relay, t.relay, s.fifo, t.fifo, 256, head, n, e);
    TailNeverBack(s.relay, t.relay, s.fifo, t.fifo, 256, head, n, e);
  }

  lemma {:induction false} TailNeverBack(s: RelayModel.State, t: RelayModel.State, x: seq<byte>, y: seq<byte>, cap: nat,
                                         head: nat, n: nat, e: nat)
    requires Polled(s, t, x, y, cap, head, n, e)
    ensures t.c.tail >= s.c.tail
  {
    hide Frame.Wire, NextNo, StampAt, HasMark;
  }

  /** The main loop with a line that keeps up, the receive interrupt in between. */
  function Iterations(k: nat): (acts: seq<Act>)
    ensures |acts| == 4 * k
  {
    if k == 0 then [] else Iterations(k - 1) + [Polling, Interrupting, Draining(255), Interrupting]
  }

  lemma {:induction false} FifoFits(s: System)
    requires SystemInv(s)
    ensures |s.fifo| <= 255
  {
    hide Inv, AllFit, WireAll, After, Reports;
  }

  lemma {:induction false} GrowsOn(p: Producer, q: Producer, r: Producer)
    requires Grows(p, q) && Grows(q, r)
    ensures Grows(p, r)
  {
  }

  /** One iteration empties the FIFO, and writes something unread if the FIFO was empty before. */
  lemma {:induction false} IterationMakesHeadway(a: System, b: System, c: System, d: System, e: System)
    requires SystemInv(a) && SystemInv(b) && SystemInv(c)
    requires Does(Polling, a, b) && Does(Interrupting, b, c) && Does(Draining(255), c, d) && Does(Interrupting, d, e)
    ensures e.fifo == [] && Grows(a.relay.p, e.relay.p) && e.relay.c.tail >= a.relay.c.tail
    ensures a.fifo == [] && |a.relay.p.bytes| > a.relay.c.tail ==> e.relay.c.tail > a.relay.c.tail
  {
    hide SystemInv, Does, Grows;
    BackAtIdle(a, b);
    if a.fifo == [] { PollMakesHeadway(a, b); }
    OnlyArrivals(b, c);
    DrainEmpties(c, d);
    OnlyArrivals(d, e);
    GrowsOn(a.relay.p, b.relay.p, d.relay.p);
    GrowsOn(a.relay.p, d.relay.p, e.relay.p);
  }

  lemma {:induction false} OnlyArrivals(s: System, t: System)
    requires Does(Interrupting, s, t)
    ensures t.fifo == s.fifo && t.relay.c == s.relay.c && Grows(s.relay.p, t.relay.p)
  {
    hide Grows;
  }

  lemma {:induction false} DrainEmpties(s: System, t: System)
    requires SystemInv(s) && Does(Draining(255), s, t)
    ensures t.fifo == [] && t.relay == s.relay
  {
    FifoFits(s);
    hide SystemInv;
  }

  lemma {:induction false} BackAtIdle(a: System, b: System)
    requires Does(Polling, a, b)
    ensures Grows(a.relay.p, b.relay.p) && b.relay.c.tail >= a.relay.c.tail
  {
    hide Polled, Grows;
    var head, n, e :| PolledFrom(a, b, head, n, e);
    TailNeverBack(a.relay, b.relay, a.fifo, b.fifo, 256, head, n, e);
  }

  lemma {:induction false} LoopMakesHeadway(k: nat, trace: seq<System>)
    requires |trace| == 4 * k + 1 && Traced(Iterations(k), trace)
    ensures var s, t := trace[0], trace[4 * k];
            && Grows(s.relay.p, t.relay.p) && t.relay.c.tail >= s.relay.c.tail
            && (k > 0 ==> t.fifo == [] && (t.relay.c.tail >= |s.relay.p.bytes|
                                           || t.relay.c.tail >= s.relay.c.tail + k - 1))
    decreases k
  {
    hide SystemInv, Does, Grows;
    if k == 0 {
      SelfGrows(trace[0].relay.p);
    } else {
      var n := 4 * (k - 1);
      var acts := Iterations(k);
      assert acts[..n] == Iterations(k - 1);
      LoopMakesHeadway(k - 1, trace[..n + 1]);
      assert acts[n] == Polling && acts[n + 1] == Interrupting && acts[n + 2] == Draining(255)
             && acts[n + 3] == Interrupting;
      IterationMakesHeadway(trace[n], trace[n + 1], trace[n + 2], trace[n + 3], trace[n + 4]);
      GrowsOn(trace[0].relay.p, trace[n].relay.p, trace[n + 4].relay.p);
      Longer(trace[0].relay.p, trace[n].relay.p);
    }
  }

  lemma {:induction false} SelfGrows(p: Producer)
    ensures Grows(p, p)
  {
  }

  lemma {:induction false} Longer(p: Producer, q: Producer)
    requires Grows(p, q)
    ensures |p.bytes| <= |q.bytes|
  {
  }

  /** What has come in later does not change the stamped bytes that were there. */
  lemma {:induction false} StampedGrows(p: Producer, q: Producer, n: nat)
    requires Grows(p, q) && |p.bytes| <= n <= |q.bytes|
    ensures Stamped(p) <= Stamped(q)[..n]
  {
    hide StampAt;
    forall i | 0 <= i < |p.bytes|
      ensures Stamped(q)[i] == Stamped(p)[i]
    {
      StampStays(p.marks, q.marks, i);
    }
  }

  /**
   * The main loop delivers: from any state the probe can be in, one more iteration than there are unread bytes, on a
   * line that takes what is in the FIFO each time, and the host has every byte that had come in, stamped, whatever
   * comes in meanwhile.
   */
  lemma {:induction false} MainLoopDelivers(k: nat, heard: nat, trace: seq<System>)
    requires |trace| == 4 * k + 2 && Traced(Iterations(k) + [Hearing(heard)], trace)
    requires k > |trace[0].relay.p.bytes| - trace[0].relay.c.tail && heard >= |trace[4 * k].line|
    ensures Stamped(trace[0].relay.p) <= HostCells(trace[4 * k + 1].reports)
  {
    hide SystemInv, Does, Grows, Stamped, HostCells, Inv;
    var acts := Iterations(k) + [Hearing(heard)];
    var s, t, u := trace[0], trace[4 * k], trace[4 * k + 1];
    Delivery.RelayOf(s);
    Occupancy(s.relay);
    assert acts[..4 * k] == Iterations(k);
    assert forall i :: 0 <= i < 4 * k ==> acts[i] == Iterations(k)[i];
    LoopMakesHeadway(k, trace[..4 * k + 1]);
    assert acts[4 * k] == Hearing(heard);
    HeardAll(t, u, heard);
    HostHasWritten(u);
    StampedGrows(s.relay.p, u.relay.p, Written(u.relay.c));
  }

  lemma {:induction false} HeardAll(t: System, u: System, k: nat)
    requires SystemInv(t) && Does(Hearing(k), t, u) && k >= |t.line|
    ensures u.fifo == t.fifo && u.line == t.line && u.relay == t.relay && u.heard == |u.line|
  {
    hide Inv, AllFit, WireAll, After, Reports;
  }
}
