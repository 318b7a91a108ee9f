/** Over USB too, main loop, host and interrupt can always deliver every byte accepted so far. */
module UsbDelivery {
  import opened Bytes
  import opened Framing
  import opened RelayModel
  import opened Deframing
  import opened UsbDevice
  import opened UsbInFlight
  import opened UsbStream
  import opened UsbPath
  import VcpPath
  import Delivery
  import RelayDrain
  import UsbCtrl
  import Pma

  /** The main loop steps and polls, the host takes packets, the interrupt serves them; nothing else happens. */
  predicate Quiet(hs: seq<UsbHappening>) {
    forall h :: h in hs ==> h.Consume? || (h.Act? && Transfers(h.e))
  }

  predicate Transfers(e: Ev) { e.EvPoll? || e.EvIn1? || e.Serve1? }

  function Acts(evs: seq<Ev>): seq<UsbHappening> { seq(|evs|, i requires 0 <= i < |evs| => Act(evs[i])) }

  lemma {:induction false} CourseSplits(s: Path, xs: seq<UsbHappening>, ys: seq<UsbHappening>)
    ensures Course(s, xs + ys) == Course(Course(s, xs), ys)
    decreases |ys|
  {
    hide Go;
    if ys == [] {
      assert xs + ys == xs;
    } else {
      CourseSplits(s, xs, ys[..|ys| - 1]);
      DropLastOfConcat(xs, ys);
    }
  }

  lemma {:induction false} CourseOne(s: Path, h: UsbHappening)
    ensures Course(s, [h]) == Go(s, h) && Course(s, []) == s
  {
    assert [h][..0] == [];
    assert Course(s, [h]) == Go(Course(s, [h][..0]), h);
  }

  lemma {:induction false} CourseKeepsInv(s: Path, hs: seq<UsbHappening>)
    requires PathInv(s)
    ensures PathInv(Course(s, hs))
    decreases |hs|
  {
    if hs != [] {
      hide PathInv, Go;
      CourseKeepsInv(s, hs[..|hs| - 1]);
      GoKeepsPath(Course(s, hs[..|hs| - 1]), hs[|hs| - 1]);
    }
  }

  /** A transfer step is one of the watch; it neither flushes nor cancels. */
  lemma {:induction false} TransferStep(s: Path, e: Ev)
    requires Transfers(e)
    ensures var t := Go(s, Act(e));
            && t.link.w == See(s.link.w, e) && t.relay == s.relay && t.gone == s.gone && t.past == s.past
            && t.link.queued == s.link.queued && t.link.mark == s.link.mark
  {
    hide See, Packet, Arms;
  }

  lemma {:induction false} ActsObserve(s: Path, evs: seq<Ev>)
    requires forall e :: e in evs ==> Transfers(e)
    ensures var t := Course(s, Acts(evs));
            && t.link.w == Observe(s.link.w, evs) && t.relay == s.relay && t.gone == s.gone && t.past == s.past
            && t.link.queued == s.link.queued && t.link.mark == s.link.mark
    decreases |evs|
  {
    if evs != [] {
      hide Go, See;
      var n := |evs| - 1;
      assert Acts(evs)[..n] == Acts(evs[..n]) && evs[n] in evs;
      ActsObserve(s, evs[..n]);
      TransferStep(Course(s, Acts(evs[..n])), evs[n]);
    }
  }

  lemma {:induction false} RoundsTransfer(n: nat)
    ensures forall e :: e in Rounds(n) ==> Transfers(e)
  {
    if n > 0 { RoundsTransfer(n - 1); }
  }

  /** A host that takes packets empties the FIFO. */
  lemma {:induction false} Emptied(s: Path) returns (hs: seq<UsbHappening>)
    requires PathInv(s) && Ready(s.link.w)
    ensures var t := Course(s, hs);
            && Quiet(hs) && PathInv(t) && Ready(t.link.w) && t.link.w.d.fifo == []
            && t.relay == s.relay && t.gone == s.gone && t.past == s.past
            && t.link.queued == s.link.queued && t.link.mark == s.link.mark
  {
    var evs := Rounds(PacketsFor(|s.link.w.d.fifo|));
    hs := Acts(evs);
    RoundsTransfer(PacketsFor(|s.link.w.d.fifo|));
    hide PathInv, Ready, Observe, Course;
    FifoDrains(s.link.w);
    ActsObserve(s, evs);
    CourseKeepsInv(s, hs);
  }

  /** With an empty FIFO a poll step is one with an accepting sink, and the device stays ready. */
  lemma {:induction false} StepAccepted(s: Path)
    requires PathInv(s) && Ready(s.link.w) && s.link.w.d.fifo == []
    ensures var t := Go(s, Consume);
            && PathInv(t) && Ready(t.link.w) && t.relay == Step(s.relay, Tick(true))
            && t.gone == s.gone && t.past == s.past
  {
    hide PathInv, Inv, Step, Feeds, Ready, LinkInv, Frame.Wire;
    RelayIn(s);
    ConsumeKeepsPath(s);
    Delivery.EmptyFifoAccepts(VcpPath.POWER_ON.(relay := s.relay));
    LinkOf(Go(s, Consume));
    WrittenStaysReady(s.link, Offered(s.relay.c));
  }

  lemma {:induction false} LinkOf(s: Path)
    requires PathInv(s)
    ensures LinkInv(s.link)
  {
    hide Inv, LinkInv, AllProper;
  }

  lemma {:induction false} WrittenStaysReady(l: Link, o: Offer)
    requires Ready(l.w)
    ensures o.Offer? && LinkInv(Feeds(l, Put(o.f))) ==> Ready(Feeds(l, Put(o.f)).w)
  {
    hide Frame.Wire, WatchInv, StreamInv;
  }

  /** Polls and packets until every accepted byte has been written. */
  lemma {:induction false} AllWritten(s: Path) returns (hs: seq<UsbHappening>)
    requires PathInv(s) && Ready(s.link.w)
    ensures var t := Course(s, hs);
            && Quiet(hs) && PathInv(t) && Ready(t.link.w) && t.relay.p == s.relay.p
            && Written(t.relay.c) == |s.relay.p.bytes| && t.gone == s.gone && t.past == s.past
    decreases |s.relay.p.bytes| - Written(s.relay.c), RelayDrain.Stage(s.relay.c.pc),
              |s.relay.p.marks| - s.relay.c.mtail, RelayDrain.Rest(s.relay.c.pc)
  {
    hide PathInv, Inv, Go, Course, Ready;
    RelayIn(s);
    RelayDrain.Bounds(s.relay);
    if Written(s.relay.c) == |s.relay.p.bytes| {
      hs := [];
      CourseOne(s, Consume);
    } else {
      var packets := Emptied(s);
      var t := Course(s, packets);
      StepAccepted(t);
      var u := Go(t, Consume);
      RelayIn(u);
      RelayDrain.Bounds(u.relay);
      var rest := AllWritten(u);
      CourseOne(t, Consume);
      CourseSplits(t, [Consume], rest);
      CourseSplits(s, packets, [Consume] + rest);
      hs := packets + ([Consume] + rest);
    }
  }

  /** With nothing queued and nothing in flight the host has everything sent since the last cancellation. */
  lemma {:induction false} AllTaken(l: Link)
    requires LinkInv(l) && Ready(l.w) && l.w.d.fifo == []
    ensures AllFit(l.queued) && |WireAll(l.queued)| == l.mark + |l.w.got|
  {
    hide WireAll, AllFit, Sound;
  }

  /**
   * From every reachable state in which the device is configured and idle there is a way on without further arrivals,
   * resets or requests after which every accepted byte has been written and nothing is queued or in flight; and
   * whatever state the host's decoder is in, the stretch under way then decodes to at most one stray report and all
   * the frames from some one on, all of them since the last flush if nothing was cancelled after it.
   */
  lemma {:induction false} EverythingCanBeSent(
      desc: UsbCtrl.Descriptors, pma: Pma.Memory, hs: seq<UsbHappening>, d: Deframing.State)
      returns (more: seq<UsbHappening>, k: nat, junk: seq<Report>)
    requires Ready(Course(Powered(desc, pma), hs).link.w)
    ensures Quiet(more)
    ensures var s, t := Course(Powered(desc, pma), hs), Course(Powered(desc, pma), hs + more);
            && t.relay.p == s.relay.p && Written(t.relay.c) == |s.relay.p.bytes|
            && t.link.w.d.fifo == [] && t.gone == s.gone && t.gone + k <= |t.relay.c.out| && |junk| <= 1
            && (t.link.mark == 0 ==> k == 0)
            && Reports(d, t.link.w.got) == junk + DecodedAll(t.relay.c.out[t.gone + k..])
  {
    hide PathInv, Course, Powered, Ready, Reports, DecodedAll, LinkInv;
    CourseKeepsPath(desc, pma, hs);
    var s := Course(Powered(desc, pma), hs);
    var a := AllWritten(s);
    var b := Emptied(Course(s, a));
    CourseSplits(s, a, b);
    CourseSplits(Powered(desc, pma), hs, a + b);
    more := a + b;
    var t := Course(Powered(desc, pma), hs + more);
    k, junk := Decodes(t, d);
  }

  lemma {:induction false} Decodes(t: Path, d: Deframing.State) returns (k: nat, junk: seq<Report>)
    requires PathInv(t) && Ready(t.link.w) && t.link.w.d.fifo == []
    ensures t.gone + k <= |t.relay.c.out| && |junk| <= 1 && (t.link.mark == 0 ==> k == 0)
    ensures Reports(d, t.link.w.got) == junk + DecodedAll(t.relay.c.out[t.gone + k..])
  {
    hide PathInv, LinkInv, Ready, Reports, DecodedAll, WireAll, AllFit;
    LinkOf(t);
    NotRaced(t.link.w);
    AllTaken(t.link);
    QueuedIs(t);
    k, junk := StretchDecodes(t.link, d);
    var q := t.link.queued;
    assert q[k..] == t.relay.c.out[t.gone + k..];
    assert q[..|q|] == q && q[k..][..|q| - k] == q[k..];
    if k == |q| {
      NothingDecoded(q[k..]);
      junk := Reports(d, t.link.w.got);
    }
  }

  lemma {:induction false} NothingDecoded(fs: seq<Frame>)
    requires fs == []
    ensures DecodedAll(fs) == []
  {
  }

  lemma {:induction false} NotRaced(w: Watch)
    requires Ready(w)
    ensures !w.raced
  {
    hide WatchInv;
  }

  lemma {:induction false} QueuedIs(t: Path)
    requires PathInv(t)
    ensures t.gone <= |t.relay.c.out| && t.link.queued == t.relay.c.out[t.gone..]
  {
    hide Inv, LinkInv, AllProper;
  }
}
