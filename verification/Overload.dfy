/** Bursts that come too close: no schedule of polls saves a target whose every byte starts a burst of its own. */
module Overload {
  import opened Bytes
  import opened Framing
  import opened RelayModel
  import opened VcpPath
  import Deframing
  import RelayRings

  /** When the target's bytes arrive, by the wrapping clock. */
  function Arrivals(hs: seq<Happening>): seq<u32> {
    if hs == [] then []
    else Arrivals(hs[..|hs| - 1]) + if hs[|hs| - 1].Arrive? then [hs[|hs| - 1].ts] else []
  }

  function Drained(hs: seq<Happening>): nat {
    if hs == [] then 0 else Drained(hs[..|hs| - 1]) + if hs[|hs| - 1].Drain? then 1 else 0
  }

  /** Every arriving byte comes more than the gap after its predecessor. */
  predicate Spaced(ts: seq<u32>) {
    forall i :: 0 < i < |ts| ==> Wrap(ts[i] as int - ts[i - 1]) > GAP_US
  }

  predicate Lossless(p: Producer) { p.refused == 0 && p.lostAt == [] }

  /** Every byte has its mark, and every data frame carries one byte. */
  ghost predicate OneByOne(s: RelayModel.State) {
    && |s.p.marks| == |s.p.bytes|
    && (forall i :: 0 <= i < |s.p.marks| ==> s.p.marks[i].pos == i)
    && (forall f :: f in s.c.out && f.Data? ==> |f.data| == 1)
  }

  lemma {:induction false} ChunkOfOne(s: RelayModel.State)
    requires Inv(s) && OneByOne(s) && s.c.pc.Copy?
    ensures |s.c.pc.got| <= s.c.pc.n == 1
  {
    hide PayloadInv, OutInv, GapsMarked, ProducerInv;
    assert s.c.mtail < |s.p.marks| ==> s.p.marks[s.c.mtail].pos == s.c.mtail;
    assert s.p.marks[s.c.mtail - 1].pos == s.c.mtail - 1;
  }

  lemma {:induction false} ReceiveKeepsOne(s: RelayModel.State, b: byte, ts: u32)
    requires OneByOne(s) && StartsBurst(s.p, ts) && Lossless(Step(s, Rx(b, ts)).p)
    ensures OneByOne(Step(s, Rx(b, ts))) && |Step(s, Rx(b, ts)).p.bytes| == |s.p.bytes| + 1 && Lossless(s.p)
  {
  }

  lemma {:induction false} PollKeepsOne(s: RelayModel.State, ok: bool)
    requires Inv(s) && OneByOne(s)
    ensures OneByOne(Step(s, Tick(ok)))
  {
    hide Low8, PayloadInv, OutInv, GapsMarked, ProducerInv, MarksOrdered, RingInv, PcInv;
    if s.c.pc.Copy? { ChunkOfOne(s); }
    hide Inv;
    PollAddsOne(s, ok);
    assert Step(s, Tick(ok)).p == s.p;
  }

  lemma {:induction false} PollAddsOne(s: RelayModel.State, ok: bool)
    requires s.c.pc.Copy? ==> |s.c.pc.got| <= s.c.pc.n == 1
    requires forall f :: f in s.c.out && f.Data? ==> |f.data| == 1
    ensures forall f :: f in Step(s, Tick(ok)).c.out && f.Data? ==> |f.data| == 1
  {
    hide Low8;
  }

  lemma {:induction false} LineGrowsByDrains(s: System, h: Happening)
    ensures |Happen(s, h).line| <= |s.line| + if h.Drain? then 1 else 0
  {
    hide Step, Frame.Wire, Deframing.After, Deframing.Reports;
  }

  lemma {:induction false} HappenKeepsOne(s: System, h: Happening)
    requires SystemInv(s) && OneByOne(s.relay) && Lossless(Happen(s, h).relay.p)
    requires h.Arrive? ==> StartsBurst(s.relay.p, h.ts)
    ensures var t := Happen(s, h);
            OneByOne(t.relay) && |t.relay.p.bytes| == |s.relay.p.bytes| + if h.Arrive? then 1 else 0
  {
    hide SystemInv, Inv, OneByOne, Lossless, Receive, Advance, StartsBurst, Frame.Wire, Taken;
    hide Deframing.After, Deframing.Reports;
    RelayIn(s);
    match h
    case Arrive(b, ts) =>
      ReceiveKeepsOne(s.relay, b, ts);
    case Lose(k) =>
      NoteKeepsOne(s.relay, k);
    case Consume =>
      PollKeepsOne(s.relay, Taken(s.relay.c, s.fifo));
    case _ =>
  }

  lemma {:induction false} RelayIn(s: System)
    requires SystemInv(s)
    ensures Inv(s.relay)
  {
  }

  lemma {:induction false} NoteKeepsOne(s: RelayModel.State, k: u32)
    requires OneByOne(s)
    ensures OneByOne(Step(s, Note(k))) && |Step(s, Note(k)).p.bytes| == |s.p.bytes|
  {
  }

  lemma {:induction false} LossStays(s: System, h: Happening)
    requires Lossless(Happen(s, h).relay.p)
    ensures Lossless(s.relay.p)
  {
    hide Frame.Wire, Deframing.After, Deframing.Reports;
  }

  /** The producer's clock is that of the last arrival. */
  predicate Clocked(p: Producer, ts: seq<u32>) {
    if ts == [] then !p.haveLast else p.haveLast && p.lastTs == ts[|ts| - 1]
  }

  lemma {:induction false} HappenKeepsClock(s: System, h: Happening, ts: seq<u32>)
    requires Clocked(s.relay.p, ts) && Lossless(Happen(s, h).relay.p)
    ensures Clocked(Happen(s, h).relay.p, ts + if h.Arrive? then [h.ts] else [])
    ensures h.Arrive? && Spaced(ts + [h.ts]) ==> StartsBurst(s.relay.p, h.ts)
  {
    hide Frame.Wire, Deframing.After, Deframing.Reports;
    if h.Arrive? && ts != [] && Spaced(ts + [h.ts]) {
      var all := ts + [h.ts];
      assert Wrap(all[|ts|] as int - all[|ts| - 1]) > GAP_US;
    }
  }

  lemma {:induction false} SpacedFront(hs: seq<Happening>)
    requires hs != [] && Spaced(Arrivals(hs))
    ensures Spaced(Arrivals(hs[..|hs| - 1]))
  {
    var front := Arrivals(hs[..|hs| - 1]);
    forall i | 0 < i < |front|
      ensures Wrap(front[i] as int - front[i - 1]) > GAP_US
    {
      assert Arrivals(hs)[i] == front[i] && Arrivals(hs)[i - 1] == front[i - 1];
    }
  }

  /** While nothing is lost: one mark and at most one frame per byte, and what has gone out is bounded by the drains. */
  lemma {:induction false} LosslessRun(hs: seq<Happening>)
    requires Spaced(Arrivals(hs)) && Lossless(History(POWER_ON, hs).relay.p)
    ensures var s := History(POWER_ON, hs);
            && SystemInv(s) && OneByOne(s.relay) && Clocked(s.relay.p, Arrivals(hs))
            && |s.relay.p.bytes| == |Arrivals(hs)| && |s.line| <= Drained(hs)
    decreases |hs|
  {
    hide SystemInv, OneByOne, Happen, Lossless, StartsBurst, Clocked, Spaced;
    PowerOnInv();
    HistoryKeepsInv(POWER_ON, hs);
    if hs == [] {
      Start();
    } else {
      var n := |hs| - 1;
      var s := History(POWER_ON, hs[..n]);
      HistoryKeepsInv(POWER_ON, hs[..n]);
      LossStays(s, hs[n]);
      SpacedFront(hs);
      LosslessRun(hs[..n]);
      HappenKeepsClock(s, hs[n], Arrivals(hs[..n]));
      HappenKeepsOne(s, hs[n]);
      LineGrowsByDrains(s, hs[n]);
    }
  }

  lemma {:induction false} Start()
    ensures OneByOne(POWER_ON.relay) && |POWER_ON.relay.p.bytes| == 0 && |POWER_ON.line| == 0
    ensures Clocked(POWER_ON.relay.p, [])
  {
  }

  /** A byte on its own costs eleven on the wire. */
  lemma {:induction false} ElevenPerByte(out: seq<Frame>)
    requires AllFit(out) && forall f :: f in out && f.Data? ==> |f.data| == 1
    ensures |WireAll(out)| >= 11 * |Payload(out)|
    decreases |out|
  {
    hide Frame.Wire, Cells;
    if out != [] {
      var n := |out| - 1;
      assert out[n] in out;
      ElevenPerByte(out[..n]);
      if out[n].Data? {
        DataFrameLength(out[n]);
        OneCell(out[n]);
      }
    }
  }

  lemma {:induction false} OneCell(f: Frame)
    requires f.Data? && |f.data| == 1
    ensures |Cells(f.data, f.ts)| == 1
  {
  }

  /** The mark ring holds back at most 33 bytes. */
  lemma {:induction false} FewWaiting(s: RelayModel.State)
    requires Inv(s) && OneByOne(s)
    ensures |s.p.bytes| <= |Payload(s.c.out)| + MARKS + 1
  {
    hide OutInv, GapsMarked, ProducerInv, Payload, StampAt;
    if s.c.mtail > 0 { assert s.p.marks[s.c.mtail - 1].pos == s.c.mtail - 1; }
  }

  /**
   * If the target's bytes come more than the gap apart and fewer than eleven bytes drain for each, then whatever the
   * polls do, after enough bytes some byte or some mark has been lost.
   */
  lemma {:induction false} CloseBurstsLose(hs: seq<Happening>)
    requires Spaced(Arrivals(hs)) && 11 * |Arrivals(hs)| > Drained(hs) + FIFO_USABLE + 11 * (MARKS + 1)
    ensures !Lossless(History(POWER_ON, hs).relay.p)
  {
    if Lossless(History(POWER_ON, hs).relay.p) {
      LosslessRun(hs);
      WireBound(History(POWER_ON, hs));
      assert false;
    }
  }

  lemma {:induction false} WireBound(s: System)
    requires SystemInv(s) && OneByOne(s.relay)
    ensures 11 * |s.relay.p.bytes| <= |s.line| + FIFO_USABLE + 11 * (MARKS + 1)
  {
    hide Inv, Payload, WireAll, Deframing.After, Deframing.Reports;
    FewWaiting(s.relay);
    ElevenPerByte(s.relay.c.out);
  }

  // ---- A target that is too fast ----

  /** A byte every 201 microseconds, ten drains for each, and any number of poll steps in between. */
  function Rounds(polls: seq<nat>): seq<Happening> {
    if polls == [] then []
    else
      var n := |polls| - 1;
      Rounds(polls[..n]) + ([Arrive(0, Wrap(201 * n))] + Many(Drain, 10) + Many(Consume, polls[n]))
  }

  function Many(h: Happening, k: nat): seq<Happening> {
    if k == 0 then [] else Many(h, k - 1) + [h]
  }

  lemma {:induction false} Joined(xs: seq<Happening>, ys: seq<Happening>)
    ensures Arrivals(xs + ys) == Arrivals(xs) + Arrivals(ys) && Drained(xs + ys) == Drained(xs) + Drained(ys)
    decreases |ys|
  {
    if ys == [] {
      assert xs + ys == xs;
    } else {
      Joined(xs, ys[..|ys| - 1]);
      DropLastOfConcat(xs, ys);
    }
  }

  lemma {:induction false} ManyCounts(h: Happening, k: nat)
    ensures !h.Arrive? ==> Arrivals(Many(h, k)) == []
    ensures Drained(Many(h, k)) == if h.Drain? then k else 0
  {
    if k > 0 {
      ManyCounts(h, k - 1);
      assert Many(h, k)[..|Many(h, k)| - 1] == Many(h, k - 1);
    }
  }

  lemma {:induction false} OneRound(ts: u32, polls: nat)
    ensures var round := [Arrive(0, ts)] + Many(Drain, 10) + Many(Consume, polls);
            Arrivals(round) == [ts] && Drained(round) == 10
  {
    hide Many;
    ManyCounts(Drain, 10);
    ManyCounts(Consume, polls);
    Joined([Arrive(0, ts)], Many(Drain, 10));
    Joined([Arrive(0, ts)] + Many(Drain, 10), Many(Consume, polls));
    assert [Arrive(0, ts)][..0] == [];
    assert Arrivals([Arrive(0, ts)]) == [ts] && Drained([Arrive(0, ts)]) == 0;
  }

  lemma {:induction false} RoundsAre(polls: seq<nat>)
    ensures |Arrivals(Rounds(polls))| == |polls| && Drained(Rounds(polls)) == 10 * |polls|
    ensures forall i :: 0 <= i < |polls| ==> Arrivals(Rounds(polls))[i] == Wrap(201 * i)
    decreases |polls|
  {
    hide Arrivals, Drained, Many, Wrap;
    if polls == [] {
      NoArrivals();
    } else {
      var n := |polls| - 1;
      RoundsAre(polls[..n]);
      OneRound(Wrap(201 * n), polls[n]);
      Joined(Rounds(polls[..n]), [Arrive(0, Wrap(201 * n))] + Many(Drain, 10) + Many(Consume, polls[n]));
    }
  }

  lemma {:induction false} NoArrivals()
    ensures Arrivals([]) == [] && Drained([]) == 0
  {
  }

  lemma {:induction false} SpacedSteps(ts: seq<u32>)
    requires forall i :: 0 <= i < |ts| ==> ts[i] == Wrap(201 * i)
    ensures Spaced(ts)
  {
    hide Wrap;
    forall i | 0 < i < |ts|
      ensures Wrap(ts[i] as int - ts[i - 1]) > GAP_US
    {
      RelayRings.WrappedDifference(201 * i, 201 * (i - 1));
    }
  }

  /**
   * At the configured rates the line takes fewer than ten bytes in 201 microseconds. A target that sends a byte that
   * often loses something within 619 bytes, however often the relay is polled.
   */
  lemma {:induction false} ByteEachGapLoses(polls: seq<nat>)
    requires |polls| >= 619
    ensures !Lossless(History(POWER_ON, Rounds(polls)).relay.p)
  {
    hide Lossless, History, Arrivals, Drained, Spaced, Rounds, Wrap;
    RoundsAre(polls);
    SpacedSteps(Arrivals(Rounds(polls)));
    CloseBurstsLose(Rounds(polls));
  }
}
