/**
 * A serial port four times as fast as the target line keeps up: time is cut into slots of one target byte, in each
 * of which at most one byte arrives, four leave the FIFO and at least one whole poll takes place, in any interleaving.
 */
module Throughput {
  import opened Bytes
  import opened Framing
  import opened RelayModel
  import opened VcpPath
  import Deframing

  /** The whole poll required of each slot. */
  datatype Phase = NotBegun | Begun | Done

  /**
   * A system in the middle of a slot. The other fields only observe: arrivals and drains since the relay last found
   * the ring empty or offered a data frame, arrivals since the current poll read the head index, and how many bytes
   * and marks there were when the burst under way began.
   */
  datatype Pace = Pace(sys: System, arrived: nat, drained: nat, poll: Phase, recent: nat, pops: nat, since: nat,
                       bytes0: nat, marks0: nat)

  datatype Beat = Do(h: Happening) | NextSlot

  predicate Empty(s: RelayModel.State) { s.c.tail == |s.p.bytes| }

  /** Between polls, with an empty ring and every loss reported; the FIFO may hold anything. */
  ghost predicate Ready(s: System) {
    SystemInv(s) && s.relay.c.pc.Idle? && Empty(s.relay) && s.relay.c.reported == s.relay.p.dropped
  }

  function StartPace(s: System): Pace {
    Pace(s, 0, 0, NotBegun, 0, 0, 0, |s.relay.p.bytes|, |s.relay.p.marks|)
  }

  /**
   * At most one arrival a slot, and a burst starts on an empty ring; four drains a slot; no slot ends before it has
   * seen a whole poll.
   */
  predicate Allowed(p: Pace, b: Beat) {
    match b
    case NextSlot => p.drained == 4 && p.poll.Done?
    case Do(Arrive(_, ts)) => p.arrived == 0 && (Empty(p.sys.relay) || !StartsBurst(p.sys.relay.p, ts))
    case Do(Lose(_)) => false
    case Do(Drain) => p.drained < 4
    case Do(_) => true
  }

  /** The relay finds the ring empty, or offers a data frame. */
  predicate Resolves(s: RelayModel.State) {
    (s.c.pc.ReadHead? && |s.p.bytes| <= s.c.tail) || (s.c.pc.Copy? && |s.c.pc.got| >= s.c.pc.n)
  }

  function Progress(p: Pace, after: Pc): Phase {
    if p.poll.NotBegun? && p.sys.relay.c.pc.Idle? then Begun
    else if p.poll.Begun? && after.Idle? then Done
    else p.poll
  }

  function Go(p: Pace, b: Beat): Pace {
    match b
    case NextSlot => p.(arrived := 0, drained := 0, poll := NotBegun)
    case Do(h) =>
      var q := p.(sys := Happen(p.sys, h));
      match h
      case Arrive(_, ts) =>
        var first := StartsBurst(p.sys.relay.p, ts);
        q.(arrived := p.arrived + 1, recent := p.recent + 1, since := p.since + 1,
           bytes0 := if first then |p.sys.relay.p.bytes| else p.bytes0,
           marks0 := if first then |p.sys.relay.p.marks| else p.marks0)
      case Drain => q.(drained := p.drained + 1, pops := p.pops + 1)
      case Consume =>
        q.(poll := Progress(p, q.sys.relay.c.pc),
           recent := if Resolves(p.sys.relay) then 0 else p.recent,
           pops := if Resolves(p.sys.relay) then 0 else p.pops,
           since := if p.sys.relay.c.pc.ReadHead? then 0 else p.since)
      case _ => q
  }

  function Paced(start: System, beats: seq<Beat>): Pace {
    if beats == [] then StartPace(start) else Go(Paced(start, beats[..|beats| - 1]), beats[|beats| - 1])
  }

  /** Every beat was allowed when it came. */
  predicate InPace(start: System, beats: seq<Beat>) {
    beats != [] ==>
      InPace(start, beats[..|beats| - 1]) && Allowed(Paced(start, beats[..|beats| - 1]), beats[|beats| - 1])
  }

  /** Accepted bytes not yet written to the FIFO. */
  function Waiting(s: RelayModel.State): int { |s.p.bytes| - Written(s.c) }

  /** Nothing more has been lost, and all there was before is reported. */
  ghost predicate Clean(s: RelayModel.State, start: RelayModel.State) {
    && s.p.dropped == start.p.dropped && s.p.refused == start.p.refused && s.p.lostAt == start.p.lostAt
    && s.c.reported == s.p.dropped && !s.c.pc.Report?
  }

  /** The burst under way has one mark at most, and it is that of its first byte. */
  ghost predicate OneMark(s: RelayModel.State, bytes0: nat, marks0: nat) {
    && bytes0 <= s.c.tail && marks0 <= s.c.mtail
    && marks0 <= |s.p.marks| <= marks0 + 1
    && (|s.p.marks| > marks0 ==> s.p.marks[marks0].pos == bytes0)
  }

  /** The chunk under way is everything that waited when the head index was read. */
  ghost predicate Whole(p: Pace) {
    var c := p.sys.relay.c;
    match c.pc
    case Adopt(v) => v + p.since == Waiting(p.sys.relay)
    case AdoptPos(v) => v + p.since == Waiting(p.sys.relay)
    case AdoptTs(v) => v + p.since == Waiting(p.sys.relay)
    case AdoptFree(v) => v + p.since == Waiting(p.sys.relay)
    case Cut(v) => v + p.since == Waiting(p.sys.relay)
    case CutPos(_) => false
    case Copy(n, _) => n + p.since == Waiting(p.sys.relay)
    case Release(n) => n <= 15 && Waiting(p.sys.relay) <= 2 + p.recent
    case _ => true
  }

  /** How old the observations can be. */
  ghost predicate Ages(p: Pace) {
    && p.arrived <= 1 && p.drained <= 4
    && (if p.poll.Done? then p.recent <= p.arrived && p.pops <= p.drained
        else p.recent <= 1 + p.arrived && p.pops <= 4 + p.drained)
    && (p.poll.Begun? && p.sys.relay.c.pc.Release? ==> p.recent <= p.arrived && p.pops <= p.drained)
    && (p.poll.Begun? ==> !p.sys.relay.c.pc.Idle?)
    && (!p.sys.relay.c.pc.Idle? && !p.sys.relay.c.pc.ReadHead? ==>
          p.since <= if p.poll.NotBegun? then 1 + p.arrived else p.arrived)
  }

  /** FIFO fill plus four times the waiting bytes stays bounded; a rejection needs a nearly full FIFO. */
  ghost predicate Levels(p: Pace) {
    var f, r := |p.sys.fifo|, Waiting(p.sys.relay);
    && f + 4 * r <= 263 + 4 * p.arrived - p.drained
    && (r <= 2 + p.recent || (r <= 13 + p.recent && f + p.pops >= 214))
  }

  ghost predicate PaceInv(p: Pace, start: RelayModel.State) {
    && SystemInv(p.sys) && Clean(p.sys.relay, start) && OneMark(p.sys.relay, p.bytes0, p.marks0)
    && Whole(p) && Ages(p) && Levels(p)
  }

  lemma {:induction false} RelayFacts(s: System)
    requires SystemInv(s)
    ensures Inv(s.relay) && |s.fifo| <= FIFO_USABLE
    ensures Empty(s.relay) ==> s.relay.c.mtail == |s.relay.p.marks|
    ensures s.relay.c.mtail <= |s.relay.p.marks|
    ensures Written(s.relay.c) <= |s.relay.p.bytes|
  {
    var m := s.relay.c.mtail;
    assert m < |s.relay.p.marks| ==> s.relay.c.tail <= s.relay.p.marks[m].pos < |s.relay.p.bytes|;
  }

  lemma {:induction false} ArriveKeepsPace(p: Pace, start: RelayModel.State, b: byte, ts: u32)
    requires PaceInv(p, start) && Allowed(p, Do(Arrive(b, ts)))
    ensures PaceInv(Go(p, Do(Arrive(b, ts))), start)
  {
    hide SystemInv, Inv;
    ArriveKeepsInv(p.sys, Rx(b, ts));
    RelayFacts(p.sys);
  }

  lemma {:induction false} DrainKeepsPace(p: Pace, start: RelayModel.State)
    requires PaceInv(p, start) && Allowed(p, Do(Drain))
    ensures PaceInv(Go(p, Do(Drain)), start)
  {
    hide SystemInv, Clean, OneMark, Inv;
    DrainKeepsInv(p.sys);
    assert Happen(p.sys, Drain).relay == p.sys.relay;
  }

  lemma {:induction false} HearKeepsPace(p: Pace, start: RelayModel.State, k: nat)
    requires PaceInv(p, start)
    ensures PaceInv(Go(p, Do(Hear(k))), start)
  {
    hide SystemInv, Clean, OneMark, Deframing.After, Deframing.Reports;
    HearKeepsInv(p.sys, k);
    assert Happen(p.sys, Hear(k)).relay == p.sys.relay && Happen(p.sys, Hear(k)).fifo == p.sys.fifo;
  }

  lemma {:induction false} NextSlotKeepsPace(p: Pace, start: RelayModel.State)
    requires PaceInv(p, start) && Allowed(p, NextSlot)
    ensures PaceInv(Go(p, NextSlot), start)
  {
    hide SystemInv, Clean, OneMark;
  }

  // ---- Consumer steps ----

  /** Steps that neither write nor find the ring empty. */
  lemma {:induction false} QuietKeepsPace(p: Pace, start: RelayModel.State)
    requires PaceInv(p, start) && !Resolves(p.sys.relay)
    ensures PaceInv(Go(p, Do(Consume)), start)
  {
    hide SystemInv, Inv, Frame.Wire;
    ConsumeKeepsInv(p.sys);
    RelayFacts(p.sys);
    NoSecondMark(p.sys.relay, p.bytes0, p.marks0);
    assert !Taken(p.sys.relay.c, p.sys.fifo);
  }

  lemma {:induction false} NoSecondMark(s: RelayModel.State, bytes0: nat, marks0: nat)
    requires Inv(s) && OneMark(s, bytes0, marks0)
    ensures !s.c.pc.CutPos?
    ensures s.c.pc.Cut? ==> s.c.mtail == |s.p.marks|
    ensures s.c.pc.Copy? ==> 1 <= s.c.pc.n <= MAX_CHUNK
  {
  }

  /** The frame on offer takes at most twice its data and 16 bytes. */
  lemma {:induction false} OfferLength(s: RelayModel.State)
    requires Inv(s) && s.c.pc.Copy? && |s.c.pc.got| >= s.c.pc.n
    ensures Offered(s.c).Offer? && Offered(s.c).f.Fits() && |Offered(s.c).f.Wire()| <= 2 * s.c.pc.n + 16
  {
    hide Frame.Wire;
    DataFrameLength(Offered(s.c).f);
  }

  lemma {:induction false} EmptyKeepsPace(p: Pace, start: RelayModel.State)
    requires PaceInv(p, start) && Resolves(p.sys.relay) && p.sys.relay.c.pc.ReadHead?
    ensures PaceInv(Go(p, Do(Consume)), start)
  {
    hide SystemInv, Inv, Frame.Wire;
    ConsumeKeepsInv(p.sys);
    RelayFacts(p.sys);
  }

  /** A rejection: the FIFO is nearly full, so few bytes can be waiting. */
  lemma {:induction false} RejectKeepsPace(p: Pace, start: RelayModel.State)
    requires PaceInv(p, start) && p.sys.relay.c.pc.Copy? && Resolves(p.sys.relay) && !Taken(p.sys.relay.c, p.sys.fifo)
    ensures PaceInv(Go(p, Do(Consume)), start)
  {
    hide SystemInv, Inv, Frame.Wire;
    ConsumeKeepsInv(p.sys);
    RelayFacts(p.sys);
    OfferLength(p.sys.relay);
    assert |p.sys.fifo| + 2 * p.sys.relay.c.pc.n + 16 > FIFO_USABLE;
  }

  /** A frame taken: what still waits came after the head index was read. */
  lemma {:induction false} AcceptKeepsPace(p: Pace, start: RelayModel.State)
    requires PaceInv(p, start) && p.sys.relay.c.pc.Copy? && Resolves(p.sys.relay) && Taken(p.sys.relay.c, p.sys.fifo)
    ensures PaceInv(Go(p, Do(Consume)), start)
  {
    hide SystemInv, Inv, Frame.Wire;
    ConsumeKeepsInv(p.sys);
    RelayFacts(p.sys);
    NoSecondMark(p.sys.relay, p.bytes0, p.marks0);
    RelayFacts(Happen(p.sys, Consume));
  }

  lemma {:induction false} BeatKeepsPace(p: Pace, start: RelayModel.State, b: Beat)
    requires PaceInv(p, start) && Allowed(p, b)
    ensures PaceInv(Go(p, b), start)
  {
    hide PaceInv, Go, Taken;
    match b
    case NextSlot => NextSlotKeepsPace(p, start);
    case Do(Arrive(x, ts)) => ArriveKeepsPace(p, start, x, ts);
    case Do(Drain) => DrainKeepsPace(p, start);
    case Do(Hear(k)) => HearKeepsPace(p, start, k);
    case Do(Consume) =>
      if !Resolves(p.sys.relay) {
        QuietKeepsPace(p, start);
      } else if p.sys.relay.c.pc.ReadHead? {
        EmptyKeepsPace(p, start);
      } else if Taken(p.sys.relay.c, p.sys.fifo) {
        AcceptKeepsPace(p, start);
      } else {
        RejectKeepsPace(p, start);
      }
  }

  lemma {:induction false} PacedInv(start: System, beats: seq<Beat>)
    requires Ready(start) && InPace(start, beats)
    ensures PaceInv(Paced(start, beats), start.relay)
    decreases |beats|
  {
    if beats == [] {
      StartInPace(start);
    } else {
      hide PaceInv, Ready;
      PacedInv(start, beats[..|beats| - 1]);
      BeatKeepsPace(Paced(start, beats[..|beats| - 1]), start.relay, beats[|beats| - 1]);
    }
  }

  lemma {:induction false} StartInPace(start: System)
    requires Ready(start)
    ensures PaceInv(StartPace(start), start.relay)
  {
    hide SystemInv, Inv;
    RelayFacts(start);
  }

  lemma {:induction false} PowerOnIsReady()
    ensures Ready(POWER_ON)
  {
    PowerOnInv();
  }

  /**
   * At four times the target's speed, from any drained ring with nothing unreported and whatever is in the FIFO, the
   * data ring never holds more than 19 bytes and nothing more is ever lost, for a run of any length and any number of
   * bursts that each start on an empty ring.
   */
  lemma {:induction false} NoOverflow(start: System, beats: seq<Beat>)
    requires Ready(start) && InPace(start, beats)
    ensures var s := Paced(start, beats).sys.relay;
            && |s.p.bytes| - s.c.tail <= 19
            && s.p.dropped == start.relay.p.dropped && s.p.refused == start.relay.p.refused
            && s.p.lostAt == start.relay.p.lostAt
  {
    PacedInv(start, beats);
    LevelBound(Paced(start, beats), start.relay);
    hide SystemInv, Inv, Paced, InPace, PaceInv;
  }

  lemma {:induction false} LevelBound(p: Pace, start: RelayModel.State)
    requires PaceInv(p, start)
    ensures var s := p.sys.relay;
            && |s.p.bytes| - s.c.tail <= 19
            && s.p.dropped == start.p.dropped && s.p.refused == start.p.refused && s.p.lostAt == start.p.lostAt
  {
    RelayFacts(p.sys);
    hide SystemInv, Inv;
  }
}
