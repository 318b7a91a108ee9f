/**
 * The whole path over USB: relay, driver and host decoder. Bytes arrive, the main loop steps, and anything that can
 * happen to the device happens, flushes and cancellations included.
 */
module UsbPath {
  import opened Bytes
  import opened Framing
  import opened RelayModel
  import opened Deframing
  import opened UsbDevice
  import opened UsbInFlight
  import opened UsbStream
  import VcpPath
  import UsbCtrl
  import Pma

  datatype UsbHappening = Arrive(b: byte, ts: u32) | Lose(lost: u32) | Consume | Act(e: Ev)

  /**
   * `gone` counts the frames flushed, `past` has what the host received between one cancellation and the next, and
   * `clean` says that no poll has ever armed a packet under an unserved bus reset.
   */
  datatype Path = Path(relay: RelayModel.State, link: Link, gone: nat, past: seq<seq<byte>>, clean: bool)

  function Powered(desc: UsbCtrl.Descriptors, pma: Pma.Memory): Path { Path(INIT, Plugged(desc, pma), 0, [], true) }

  function Go(s: Path, h: UsbHappening): Path {
    match h
    case Arrive(b, ts) => s.(relay := Step(s.relay, Rx(b, ts)))
    case Lose(lost) => s.(relay := Step(s.relay, Note(lost)))
    case Consume =>
      var ok := VcpPath.Taken(s.relay.c, s.link.w.d.fifo);
      s.(relay := Step(s.relay, Tick(ok)),
         link := if ok then Feeds(s.link, Put(Offered(s.relay.c).f)) else s.link)
    case Act(e) =>
      if e.EvWrite? then s
      else
        var l := Feeds(s.link, Other(e));
        s.(link := l, clean := s.clean && !l.w.raced,
           gone := if Flushes(s.link.w.d, e) then |s.relay.c.out| else s.gone,
           past := if Cancels(s.link.w.d, e) then s.past + [s.link.w.got] else s.past)
  }

  function Course(s: Path, hs: seq<UsbHappening>): Path {
    if hs == [] then s else Go(Course(s, hs[..|hs| - 1]), hs[|hs| - 1])
  }

  // ---- What the host decodes ----

  /** From decoder state `d` on: at most one stray report, then consecutive frames of `out` in order. */
  ghost predicate Proper(d: Deframing.State, got: seq<byte>, out: seq<Frame>) {
    exists a: nat, junk: seq<Report> :: a <= |out| && |junk| <= 1 && Reports(d, got) <= junk + DecodedAll(out[a..])
  }

  /** Every stretch between two cancellations was decoded so, the decoder going on from where it was. */
  ghost predicate AllProper(past: seq<seq<byte>>, out: seq<Frame>) {
    forall i {:trigger past[i]} :: 0 <= i < |past| ==> Proper(AfterChunks(START, past[..i]), past[i], out)
  }

  ghost predicate PathInv(s: Path) {
    && Inv(s.relay) && LinkInv(s.link)
    && s.gone <= |s.relay.c.out| && s.link.queued == s.relay.c.out[s.gone..]
    && (s.clean ==> !s.link.w.raced && AllProper(s.past, s.relay.c.out))
  }

  lemma {:induction false} ProperGrows(d: Deframing.State, got: seq<byte>, out: seq<Frame>, f: Frame)
    requires Proper(d, got, out)
    ensures Proper(d, got, out + [f])
  {
    hide Reports, Decoded;
    var a: nat, junk: seq<Report> :|
      a <= |out| && |junk| <= 1 && Reports(d, got) <= junk + DecodedAll(out[a..]);
    assert (out + [f])[a..] == out[a..] + [f];
    assert DecodedAll(out[a..] + [f]) == DecodedAll(out[a..]) + [Decoded(f)];
    assert junk + DecodedAll((out + [f])[a..]) == (junk + DecodedAll(out[a..])) + [Decoded(f)];
  }

  lemma {:induction false} AllProperGrows(past: seq<seq<byte>>, out: seq<Frame>, f: Frame)
    requires AllProper(past, out)
    ensures AllProper(past, out + [f])
  {
    hide Proper;
    forall i | 0 <= i < |past|
      ensures Proper(AfterChunks(START, past[..i]), past[i], out + [f])
    {
      ProperGrows(AfterChunks(START, past[..i]), past[i], out, f);
    }
  }

  /** The stretch under way is proper too. */
  lemma {:induction false} CurrentIsProper(s: Path)
    requires PathInv(s) && s.clean
    ensures AllProper(s.past + [s.link.w.got], s.relay.c.out)
  {
    hide LinkInv, Inv, DecodedAll, Reports, Proper;
    var n := |s.past|;
    var all := s.past + [s.link.w.got];
    StretchIsProper(s, AfterChunks(START, s.past));
    forall i | 0 <= i < |all|
      ensures Proper(AfterChunks(START, all[..i]), all[i], s.relay.c.out)
    {
      if i < n {
        assert all[..i] == s.past[..i] && all[i] == s.past[i];
      } else {
        assert all[..i] == s.past;
      }
    }
  }

  lemma {:induction false} StretchIsProper(s: Path, d: Deframing.State)
    requires PathInv(s) && s.clean
    ensures Proper(d, s.link.w.got, s.relay.c.out)
  {
    hide LinkInv, Inv, DecodedAll, Reports, AllProper;
    var k, junk := StretchDecodes(s.link, d);
    assert s.relay.c.out[s.gone..][k..] == s.relay.c.out[s.gone + k..];
  }

  // ---- Preservation ----

  lemma {:induction false} PutLink(l: Link, f: Frame)
    requires LinkInv(l) && f.Fits() && Accepts(l.w.d, f.Wire())
    ensures var m := Feeds(l, Put(f));
            LinkInv(m) && m.queued == l.queued + [f] && m.w.raced == l.w.raced && m.w.got == l.w.got
  {
    PutKeepsInv(l, f);
    hide LinkInv, Frame.Wire, Sent1;
  }

  lemma {:induction false} ConsumeKeepsPath(s: Path)
    requires PathInv(s)
    ensures PathInv(Go(s, Consume))
  {
    hide Inv, LinkInv, Frame.Wire, Feeds, Step, AllProper;
    var ok := VcpPath.Taken(s.relay.c, s.link.w.d.fifo);
    StepKeepsInv(s.relay, Tick(ok));
    VcpPath.OfferIsWritten(s.relay, s.link.w.d.fifo);
    if ok {
      var f := Offered(s.relay.c).f;
      PutLink(s.link, f);
      if s.clean { AllProperGrows(s.past, s.relay.c.out, f); }
    }
  }

  lemma {:induction false} OtherQueue(l: Link, e: Ev)
    requires !e.EvWrite?
    ensures Feeds(l, Other(e)).queued == if Flushes(l.w.d, e) then [] else l.queued
  {
    hide See, Cancels, Flushes, Arms, Packet;
  }

  lemma {:induction false} ActKeepsPath(s: Path, e: Ev)
    requires PathInv(s)
    ensures PathInv(Go(s, Act(e)))
  {
    hide Inv, LinkInv, Feeds, AllProper, Flushes, Cancels;
    if !e.EvWrite? {
      OtherKeepsInv(s.link, e);
      OtherQueue(s.link, e);
      if s.clean { CurrentIsProper(s); }
    }
  }

  lemma {:induction false} ReceiveKeepsPath(s: Path, e: Event)
    requires PathInv(s) && !e.Tick?
    ensures PathInv(s.(relay := Step(s.relay, e)))
  {
    hide Inv, LinkInv, AllProper;
    StepKeepsInv(s.relay, e);
  }

  lemma {:induction false} GoKeepsPath(s: Path, h: UsbHappening)
    requires PathInv(s)
    ensures PathInv(Go(s, h))
  {
    hide PathInv;
    match h
    case Arrive(b, ts) => ReceiveKeepsPath(s, Rx(b, ts));
    case Lose(lost) => ReceiveKeepsPath(s, Note(lost));
    case Consume => ConsumeKeepsPath(s);
    case Act(e) => ActKeepsPath(s, e);
  }

  lemma {:induction false} CourseKeepsPath(desc: UsbCtrl.Descriptors, pma: Pma.Memory, hs: seq<UsbHappening>)
    ensures PathInv(Course(Powered(desc, pma), hs))
    decreases |hs|
  {
    if hs == [] {
      PluggedInv(desc, pma);
      InitInv();
      hide LinkInv, Inv;
    } else {
      hide PathInv, Go, Powered;
      CourseKeepsPath(desc, pma, hs[..|hs| - 1]);
      GoKeepsPath(Course(Powered(desc, pma), hs[..|hs| - 1]), hs[|hs| - 1]);
    }
  }

  // ---- Theorems ----

  /**
   * Over a whole run, with the decoder going on through every reset and reconfiguration: the reports fall into one
   * part for each stretch between cancellations, and each part is at most one stray report and then consecutive
   * frames the relay has written, in order. So there is at most one stray report for each cancellation.
   */
  lemma {:induction false} OneStrayPerCancellation(
      desc: UsbCtrl.Descriptors, pma: Pma.Memory, hs: seq<UsbHappening>)
    requires Course(Powered(desc, pma), hs).clean
    ensures var s := Course(Powered(desc, pma), hs);
            var all := s.past + [s.link.w.got];
            && Reports(START, Concat(all)) == ReportsOfChunks(START, all)
            && AllProper(all, s.relay.c.out)
  {
    hide PathInv, Course, Powered, AllProper, Reports, ReportsOfChunks;
    CourseKeepsPath(desc, pma, hs);
    var s := Course(Powered(desc, pma), hs);
    ChunksDoNotMatter(START, s.past + [s.link.w.got]);
    CurrentIsProper(s);
  }

  /** A run of consecutive frames carries a piece of the stamped bytes accepted. */
  lemma {:induction false} FramesCarryPiece(s: RelayModel.State, a: nat, b: nat) returns (i: nat)
    requires Inv(s) && a <= b <= |s.c.out|
    ensures var cells := VcpPath.HostCells(DecodedAll(s.c.out[a..b]));
            i + |cells| <= |Stamped(s.p)| && cells == Stamped(s.p)[i..i + |cells|]
  {
    hide Inv, Stamped, Payload, DecodedAll, VcpPath.HostCells;
    VcpPath.WrittenPart(s);
    VcpPath.HostCellsArePayload(s.c.out[a..b]);
    VcpPath.PayloadPrefix(s.c.out, b);
    assert s.c.out[..b] == s.c.out[..a] + s.c.out[a..b];
    PayloadAppend(s.c.out[..a], s.c.out[a..b]);
    i := |Payload(s.c.out[..a])|;
    MiddleOfPrefix(Payload(s.c.out[..a]), Payload(s.c.out[a..b]), Payload(s.c.out), Stamped(s.p), Written(s.c));
  }

  lemma {:induction false} MiddleOfPrefix<T>(x: seq<T>, y: seq<T>, z: seq<T>, q: seq<T>, n: nat)
    requires x + y <= z && n <= |q| && z == q[..n]
    ensures |x| + |y| <= |q| && y == q[|x|..|x| + |y|]
  {
    assert x + y == z[..|x + y|] == q[..|x| + |y|];
    assert y == (x + y)[|x|..];
  }

  lemma {:induction false} PayloadAppend(xs: seq<Frame>, ys: seq<Frame>)
    ensures Payload(xs + ys) == Payload(xs) + Payload(ys)
    decreases |ys|
  {
    hide Cells;
    if ys == [] {
      assert xs + ys == xs && Payload(xs) + Payload(ys) == Payload(xs);
    } else {
      var n := |ys| - 1;
      PayloadAppend(xs, ys[..n]);
      DropLastOfConcat(xs, ys);
      ConcatAssociative(Payload(xs), Payload(ys[..n]), if ys[n].Data? then Cells(ys[n].data, ys[n].ts) else []);
    }
  }

  /** The first `n` reports on frames are those on the first `n` frames. */
  lemma {:induction false} FirstDecoded(out: seq<Frame>, a: nat, n: nat)
    requires a + n <= |out|
    ensures DecodedAll(out[a..])[..n] == DecodedAll(out[a..a + n])
  {
    hide Decoded;
  }

  /**
   * End to end over USB: in each stretch, whatever the decoder had seen before, what it reports after the stray is
   * reports on frames, and the stamped bytes in them are a contiguous piece of the stamped bytes the relay accepted.
   */
  lemma {:induction false} StretchCarriesPiece(
      desc: UsbCtrl.Descriptors, pma: Pma.Memory, hs: seq<UsbHappening>, j: nat) returns (stray: nat, i: nat)
    requires Course(Powered(desc, pma), hs).clean && j <= |Course(Powered(desc, pma), hs).past|
    ensures var s := Course(Powered(desc, pma), hs);
            var all := s.past + [s.link.w.got];
            var rs := Reports(AfterChunks(START, all[..j]), all[j]);
            && stray <= 1 && stray <= |rs|
            && (forall r :: r in rs[stray..] ==> !r.IsError())
            && var cells := VcpPath.HostCells(rs[stray..]);
               i + |cells| <= |Stamped(s.relay.p)| && cells == Stamped(s.relay.p)[i..i + |cells|]
  {
    hide PathInv, Course, Powered, Reports, Report.IsError, Stamped, VcpPath.HostCells, Inv, Proper;
    CourseKeepsPath(desc, pma, hs);
    var s := Course(Powered(desc, pma), hs);
    CurrentIsProper(s);
    RelayIn(s);
    var all := s.past + [s.link.w.got];
    assert Proper(AfterChunks(START, all[..j]), all[j], s.relay.c.out);
    stray, i := ProperCarriesPiece(s.relay, AfterChunks(START, all[..j]), all[j]);
  }

  lemma {:induction false} ProperCarriesPiece(s: RelayModel.State, d: Deframing.State, got: seq<byte>)
      returns (stray: nat, i: nat)
    requires Inv(s) && Proper(d, got, s.c.out)
    ensures var rs := Reports(d, got);
            && stray <= 1 && stray <= |rs|
            && (forall r :: r in rs[stray..] ==> !r.IsError())
            && var cells := VcpPath.HostCells(rs[stray..]);
               i + |cells| <= |Stamped(s.p)| && cells == Stamped(s.p)[i..i + |cells|]
  {
    hide Reports, Report.IsError, Stamped, VcpPath.HostCells, Inv, DecodedAll, Proper;
    var a, n;
    stray, a, n := StrayThenFrames(d, got, s.c.out);
    VcpPath.NoErrors(s.c.out[a..a + n]);
    i := FramesCarryPiece(s, a, a + n);
  }

  lemma {:induction false} StrayThenFrames(d: Deframing.State, got: seq<byte>, out: seq<Frame>)
      returns (stray: nat, a: nat, n: nat)
    requires Proper(d, got, out)
    ensures stray <= 1 && stray <= |Reports(d, got)| && a + n <= |out|
    ensures Reports(d, got)[stray..] == DecodedAll(out[a..a + n])
  {
    hide Reports, DecodedAll;
    var rs := Reports(d, got);
    var k: nat, junk: seq<Report> :| k <= |out| && |junk| <= 1 && rs <= junk + DecodedAll(out[k..]);
    stray, a := if |junk| <= |rs| then |junk| else |rs|, k;
    n := |rs| - stray;
    RestIsDecoded(rs, junk, DecodedAll(out[k..]), stray);
    DecodedLength(out[k..]);
    FirstDecoded(out, k, n);
  }

  lemma {:induction false} DecodedLength(fs: seq<Frame>)
    ensures |DecodedAll(fs)| == |fs|
  {
  }

  lemma {:induction false} RestIsDecoded<T>(rs: seq<T>, junk: seq<T>, all: seq<T>, k: nat)
    requires rs <= junk + all && k == if |junk| <= |rs| then |junk| else |rs|
    ensures |rs| - k <= |all| && rs[k..] == all[..|rs| - k]
  {
    assert rs == (junk + all)[..|rs|];
  }

  lemma {:induction false} RelayIn(s: Path)
    requires PathInv(s)
    ensures Inv(s.relay)
  {
  }
}
