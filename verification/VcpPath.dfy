/**
 * The whole path over the virtual COM port: relay, transmit FIFO, serial line, host decoder. Bytes arrive, the main
 * loop steps, the FIFO drains and the host reads chunks of any size, in any order.
 */
module VcpPath {
  import opened Bytes
  import opened Framing
  import opened RelayModel
  import opened Deframing

  /** What a 256-byte FIFO holds: one slot stays empty. */
  const FIFO_USABLE: nat := 255

  datatype System = System(
    relay: RelayModel.State,
    fifo: seq<byte>,
    line: seq<byte>,            // everything popped and sent
    heard: nat,                 // how much of it the host has read
    host: Deframing.State,
    reports: seq<Report>)       // everything the decoder has reported

  const POWER_ON := System(INIT, [], [], 0, START, [])

  datatype Happening =
    | Arrive(b: byte, ts: u32)
    | Lose(lost: u32)
    | Consume                   // one step of the relay's main-loop side
    | Drain                     // one byte from the FIFO to the line
    | Hear(k: nat)              // the host reads the next k bytes, or what there is

  /** All-or-nothing: the frame is taken exactly if the whole of it fits. */
  predicate Taken(c: Consumer, fifo: seq<byte>) {
    Offered(c).Offer? && Offered(c).f.Fits() && |Offered(c).f.Wire()| <= FIFO_USABLE - |fifo|
  }

  function Happen(s: System, h: Happening): System {
    match h
    case Arrive(b, ts) => s.(relay := Step(s.relay, Rx(b, ts)))
    case Lose(lost) => s.(relay := Step(s.relay, Note(lost)))
    case Consume =>
      var ok := Taken(s.relay.c, s.fifo);
      s.(relay := Step(s.relay, Tick(ok)), fifo := if ok then s.fifo + Offered(s.relay.c).f.Wire() else s.fifo)
    case Drain =>
      if s.fifo == [] then s else s.(fifo := s.fifo[1..], line := s.line + [s.fifo[0]])
    case Hear(k) =>
      var upTo := Min(s.heard + k, |s.line|);
      if s.heard <= upTo then
        var chunk := s.line[s.heard..upTo];
        s.(heard := upTo, host := After(s.host, chunk), reports := s.reports + Reports(s.host, chunk))
      else s
  }

  function History(s: System, hs: seq<Happening>): System {
    if hs == [] then s else Happen(History(s, hs[..|hs| - 1]), hs[|hs| - 1])
  }

  ghost predicate SystemInv(s: System) {
    && Inv(s.relay)
    && AllFit(s.relay.c.out) && s.line + s.fifo == WireAll(s.relay.c.out)
    && |s.fifo| <= FIFO_USABLE
    && s.heard <= |s.line|
    && s.host == After(START, s.line[..s.heard]) && s.reports == Reports(START, s.line[..s.heard])
  }

  lemma {:induction false} OfferIsWritten(s: RelayModel.State, fifo: seq<byte>)
    ensures var t := Step(s, Tick(Taken(s.c, fifo)));
            t.c.out == if Taken(s.c, fifo) then s.c.out + [Offered(s.c).f] else s.c.out
  {
    hide Low8, Frame.Wire;
  }

  lemma {:induction false} ConsumeKeepsInv(s: System)
    requires SystemInv(s)
    ensures SystemInv(Happen(s, Consume))
  {
    hide Inv, Frame.Wire, WireAll, Offered, After, Reports, Step, FIFO_USABLE;
    var ok := Taken(s.relay.c, s.fifo);
    StepKeepsInv(s.relay, Tick(ok));
    OfferIsWritten(s.relay, s.fifo);
    if ok {
      var f := Offered(s.relay.c).f;
      WireAllAppend(s.relay.c.out, [f]);
      WireAllOne(f);
      ConcatAssociative(s.line, s.fifo, f.Wire());
    }
  }

  lemma {:induction false} HearKeepsInv(s: System, k: nat)
    requires SystemInv(s)
    ensures SystemInv(Happen(s, Hear(k)))
  {
    hide Inv, WireAll, AllFit, After, Reports;
    var upTo := Min(s.heard + k, |s.line|);
    var chunk := s.line[s.heard..upTo];
    FeedAppend(START, s.line[..s.heard], chunk);
    assert s.line[..s.heard] + chunk == s.line[..upTo];
  }

  lemma {:induction false} DrainKeepsInv(s: System)
    requires SystemInv(s)
    ensures SystemInv(Happen(s, Drain))
  {
    hide Inv, WireAll, AllFit, After, Reports;
    if s.fifo != [] {
      var t := Happen(s, Drain);
      assert t.line + t.fifo == s.line + s.fifo;
      assert t.line[..s.heard] == s.line[..s.heard];
    }
  }

  lemma {:induction false} ArriveKeepsInv(s: System, e: Event)
    requires SystemInv(s) && !e.Tick?
    ensures SystemInv(s.(relay := Step(s.relay, e)))
  {
    hide Inv, WireAll, AllFit, After, Reports;
    StepKeepsInv(s.relay, e);
  }

  lemma {:induction false} HistoryKeepsInv(s: System, hs: seq<Happening>)
    requires SystemInv(s)
    ensures SystemInv(History(s, hs))
    decreases |hs|
  {
    if hs != [] {
      hide SystemInv, Happen;
      var t, h := History(s, hs[..|hs| - 1]), hs[|hs| - 1];
      HistoryKeepsInv(s, hs[..|hs| - 1]);
      HappenKeepsInv(t, h);
    }
  }

  lemma {:induction false} HappenKeepsInv(t: System, h: Happening)
    requires SystemInv(t)
    ensures SystemInv(Happen(t, h))
  {
    hide SystemInv;
    match h
    case Arrive(b, ts) => ArriveKeepsInv(t, Rx(b, ts));
    case Lose(lost) => ArriveKeepsInv(t, Note(lost));
    case Consume => ConsumeKeepsInv(t);
    case Drain => DrainKeepsInv(t);
    case Hear(k) => HearKeepsInv(t, k);
  }

  lemma {:induction false} PowerOnInv()
    ensures SystemInv(POWER_ON)
  {
    InitInv();
    hide Inv;
  }

  // ---- End to end ----

  /** Everything the data reports carry, in order. */
  function HostCells(rs: seq<Report>): seq<Cell> {
    if rs == [] then []
    else
      var r := rs[|rs| - 1];
      HostCells(rs[..|rs| - 1]) + (if r.DataReport? then Cells(r.data, r.ts) else [])
  }

  lemma {:induction false} HostCellsArePayload(out: seq<Frame>)
    ensures HostCells(DecodedAll(out)) == Payload(out)
    decreases |out|
  {
    hide Cells;
    if out != [] {
      var n := |out| - 1;
      HostCellsArePayload(out[..n]);
      assert DecodedAll(out)[..n] == DecodedAll(out[..n]);
    }
  }

  lemma {:induction false} PayloadPrefix(out: seq<Frame>, k: nat)
    requires k <= |out|
    ensures Payload(out[..k]) <= Payload(out)
    decreases |out|
  {
    if k < |out| {
      var n := |out| - 1;
      PayloadPrefix(out[..n], k);
      assert out[..n][..k] == out[..k];
    } else {
      assert out[..k] == out;
    }
  }

  /**
   * Whatever the interleaving of arrivals, main-loop steps, drains and host reads, the host sees no error, sees
   * the frames in order, and the stamped bytes it has got are a prefix of the stamped bytes the relay accepted.
   */
  lemma {:induction false} EndToEnd(hs: seq<Happening>)
    ensures var s := History(POWER_ON, hs);
            && s.reports <= DecodedAll(s.relay.c.out)
            && (forall r :: r in s.reports ==> !r.IsError())
            && HostCells(s.reports) <= Stamped(s.relay.p)
  {
    var s := History(POWER_ON, hs);
    PowerOnInv();
    hide Inv, WireAll, Stamped, After, Reports, History, Payload, Decoded, Report.IsError;
    HistoryKeepsInv(POWER_ON, hs);
    WrittenPart(s.relay);
    var p := s.line[..s.heard];
    assert p <= WireAll(s.relay.c.out);
    PrefixDecodes(s.relay.c.out, p);
    var k := |s.reports|;
    assert s.reports == DecodedAll(s.relay.c.out[..k]);
    NoErrors(s.relay.c.out[..k]);
    HostCellsArePayload(s.relay.c.out[..k]);
    PayloadPrefix(s.relay.c.out, k);
  }

  lemma {:induction false} NoErrors(out: seq<Frame>)
    ensures forall r :: r in DecodedAll(out) ==> !r.IsError()
  {
  }

  lemma {:induction false} WrittenPart(s: RelayModel.State)
    requires Inv(s)
    ensures Written(s.c) <= |s.p.bytes| && Payload(s.c.out) == Stamped(s.p)[..Written(s.c)]
  {
  }

  /** Once the FIFO is empty and the host has read the line, it has got every byte the relay has written, stamped. */
  lemma {:induction false} HostHasWritten(s: System)
    requires SystemInv(s) && s.fifo == [] && s.heard == |s.line|
    ensures s.reports == DecodedAll(s.relay.c.out) && Written(s.relay.c) <= |s.relay.p.bytes|
    ensures HostCells(s.reports) == Stamped(s.relay.p)[..Written(s.relay.c)]
  {
    hide Inv, WireAll, Stamped, After, Reports, Payload, Decoded;
    WrittenPart(s.relay);
    assert s.line[..s.heard] == s.line == s.line + s.fifo;
    PrefixDecodes(s.relay.c.out, s.line);
    HostCellsArePayload(s.relay.c.out);
  }

  /** So it is in every reachable state. */
  lemma {:induction false} NothingIsStuck(hs: seq<Happening>)
    requires var s := History(POWER_ON, hs); s.fifo == [] && s.heard == |s.line|
    ensures var s := History(POWER_ON, hs);
            && s.reports == DecodedAll(s.relay.c.out)
            && Written(s.relay.c) <= |s.relay.p.bytes|
            && HostCells(s.reports) == Stamped(s.relay.p)[..Written(s.relay.c)]
  {
    PowerOnInv();
    hide SystemInv, Stamped, History, Decoded;
    HistoryKeepsInv(POWER_ON, hs);
    HostHasWritten(History(POWER_ON, hs));
  }
}
