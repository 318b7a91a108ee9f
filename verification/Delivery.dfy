/** Whatever has happened so far, main loop, line and host can always deliver every byte accepted so far. */
module Delivery {
  import opened Bytes
  import opened Framing
  import opened RelayModel
  import opened VcpPath
  import BoardTx
  import Deframing
  import RelayDrain

  /** Nothing comes in from the target. */
  predicate Quiet(hs: seq<Happening>) { forall h :: h in hs ==> h.Consume? || h.Drain? || h.Hear? }

  lemma {:induction false} HistorySplits(s: System, xs: seq<Happening>, ys: seq<Happening>)
    ensures History(s, xs + ys) == History(History(s, xs), ys)
    decreases |ys|
  {
    hide Happen;
    if ys == [] {
      assert xs + ys == xs;
    } else {
      HistorySplits(s, xs, ys[..|ys| - 1]);
      assert (xs + ys)[..|xs + ys| - 1] == xs + ys[..|ys| - 1];
    }
  }

  lemma {:induction false} HistoryOne(s: System, h: Happening)
    ensures History(s, [h]) == Happen(s, h)
  {
    assert [h][..0] == [];
  }

  /** Whatever the relay offers fits an empty FIFO. */
  lemma {:induction false} OfferFits(s: RelayModel.State)
    requires Inv(s) && Offered(s.c).Offer?
    ensures Offered(s.c).f.Fits() && |Offered(s.c).f.Wire()| <= FIFO_USABLE
  {
    hide Frame.Wire;
    var f := Offered(s.c).f;
    if f.Data? {
      RelayDrain.Bounds(s);
      OfferIsChunk(s);
      DataFrameLength(f);
    } else {
      StatusLength(f);
    }
  }

  lemma {:induction false} StatusLength(f: Frame)
    requires f.Status?
    ensures |f.Wire()| <= FIFO_USABLE
  {
    hide LE32;
    EncodedLength(STATUS_TYPE, f.no, f.Arg());
  }

  lemma {:induction false} OfferIsChunk(s: RelayModel.State)
    requires Inv(s) && Offered(s.c).Offer? && Offered(s.c).f.Data?
    ensures |Offered(s.c).f.data| <= MAX_CHUNK
  {
    hide PayloadInv, OutInv, GapsMarked;
  }

  /** With an empty FIFO a poll step is one with an accepting sink. */
  lemma {:induction false} EmptyFifoAccepts(s: System)
    requires Inv(s.relay) && s.fifo == []
    ensures Happen(s, Consume).relay == Step(s.relay, Tick(true))
  {
    hide Inv, Frame.Wire;
    if Offered(s.relay.c).Offer? { OfferFits(s.relay); }
  }

  lemma {:induction false} RelayOf(s: System)
    requires SystemInv(s)
    ensures Inv(s.relay)
  {
  }

  /** All that is in the FIFO goes out on the line. */
  lemma {:induction false} Emptied(s: System) returns (hs: seq<Happening>)
    requires SystemInv(s)
    ensures var t := History(s, hs);
            Quiet(hs) && SystemInv(t) && t.fifo == [] && t.relay == s.relay
  {
    hs := BoardTx.Drains(|s.fifo|);
    hide SystemInv, History;
    BoardTx.DrainsMove(s, |s.fifo|);
    HistoryKeepsInv(s, hs);
  }

  /** Polls and drains until every accepted byte has been written. */
  lemma {:induction false} AllWritten(s: System) returns (hs: seq<Happening>)
    requires SystemInv(s)
    ensures var t := History(s, hs);
            && Quiet(hs) && SystemInv(t) && t.relay.p == s.relay.p && Written(t.relay.c) == |s.relay.p.bytes|
    decreases |s.relay.p.bytes| - Written(s.relay.c), RelayDrain.Stage(s.relay.c.pc),
              |s.relay.p.marks| - s.relay.c.mtail, RelayDrain.Rest(s.relay.c.pc)
  {
    hide SystemInv, Inv, Happen, History;
    RelayOf(s);
    RelayDrain.Bounds(s.relay);
    if Written(s.relay.c) == |s.relay.p.bytes| {
      hs := [];
      NoHistory(s);
    } else {
      var drains := Emptied(s);
      var t := History(s, drains);
      EmptyFifoAccepts(t);
      ConsumeKeepsInv(t);
      var u := Happen(t, Consume);
      RelayOf(u);
      RelayDrain.Bounds(u.relay);
      var rest := AllWritten(u);
      HistoryOne(t, Consume);
      HistorySplits(t, [Consume], rest);
      HistorySplits(s, drains, [Consume] + rest);
      hs := drains + ([Consume] + rest);
    }
  }

  lemma {:induction false} NoHistory(s: System)
    ensures History(s, []) == s
  {
  }

  /** The host reads everything there is on the line. */
  lemma {:induction false} AllHeard(s: System) returns (hs: seq<Happening>)
    requires SystemInv(s) && s.fifo == []
    ensures var t := History(s, hs);
            Quiet(hs) && SystemInv(t) && t.fifo == [] && t.heard == |t.line| && t.relay == s.relay
  {
    hide SystemInv, Deframing.After, Deframing.Reports, History, WireAll, Inv;
    HeardIsSent(s);
    hs := [Hear(|s.line| - s.heard)];
    HearKeepsInv(s, |s.line| - s.heard);
    HistoryOne(s, Hear(|s.line| - s.heard));
  }

  lemma {:induction false} HeardIsSent(s: System)
    requires SystemInv(s)
    ensures s.heard <= |s.line|
  {
    hide Inv, WireAll, AllFit, Deframing.After, Deframing.Reports;
  }

  /**
   * From every reachable state, with the sink as full as it may be and a poll under way, there is a way on without
   * further arrivals after which the host has exactly the stamped bytes the relay has accepted.
   */
  lemma {:induction false} EverythingCanBeDelivered(hs: seq<Happening>) returns (more: seq<Happening>)
    ensures Quiet(more)
    ensures var s, t := History(POWER_ON, hs), History(POWER_ON, hs + more);
            && t.relay.p == s.relay.p
            && HostCells(t.reports) == Stamped(s.relay.p)
  {
    hide SystemInv, History, HostCells, Stamped, Inv, Deframing.Decoded;
    PowerOnInv();
    HistoryKeepsInv(POWER_ON, hs);
    var s := History(POWER_ON, hs);
    var a := AllWritten(s);
    var b := Emptied(History(s, a));
    var c := AllHeard(History(History(s, a), b));
    HistorySplits(s, a, b);
    HistorySplits(s, a + b, c);
    more := a + b + c;
    HistorySplits(POWER_ON, hs, more);
    NothingIsStuck(hs + more);
    AllOf(s.relay.p, Written(History(s, more).relay.c));
  }

  lemma {:induction false} AllOf(p: Producer, n: nat)
    requires n == |p.bytes|
    ensures Stamped(p)[..n] == Stamped(p)
  {
  }
}
