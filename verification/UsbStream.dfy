/** Frames over USB: what the FIFO holds when flushes and cancellations come at any time, and what the host decodes. */
module UsbStream {
  import opened Bytes
  import opened Framing
  import opened Deframing
  import UsbCtrl
  import opened UsbDevice
  import opened UsbInFlight
  import Pma

  /** The relay writes whole frames; everything else is as the device has it. */
  datatype LinkEv = Put(f: Frame) | Other(e: Ev)

  /**
   * The device and the stream of frames accepted since the last flush: the first `taken` of its bytes have been
   * popped, the first `mark` of them before the last cancellation.
   */
  datatype Link = Link(w: Watch, queued: seq<Frame>, taken: nat, mark: nat)

  /** The event empties the FIFO. */
  predicate Flushes(d: Dev, e: Ev) {
    (e.ServeReset? && d.resetPending)
    || (e.Serve0? && |d.ctl.strbuf| == UsbCtrl.SCRATCH && ConfigOf(d) >= 0 && ConfigOf(d) != 1)
  }

  function Feeds(l: Link, x: LinkEv): Link {
    match x
    case Put(f) =>
      if f.Fits() then
        var queued := if Accepts(l.w.d, f.Wire()) then l.queued + [f] else l.queued;
        Link(See(l.w, EvWrite(f.Wire())), queued, l.taken, l.mark)
      else l
    case Other(e) =>
      if e.EvWrite? then l
      else if Flushes(l.w.d, e) then Link(See(l.w, e), [], 0, 0)
      else if Cancels(l.w.d, e) then Link(See(l.w, e), l.queued, l.taken, l.taken)
      else if e.EvPoll? && Arms(l.w.d) then Link(See(l.w, e), l.queued, l.taken + |Packet(l.w.d)|, l.mark)
      else l.(w := See(l.w, e))
  }

  function LinkRun(l: Link, xs: seq<LinkEv>): Link {
    if xs == [] then l else Feeds(LinkRun(l, xs[..|xs| - 1]), xs[|xs| - 1])
  }

  /** The stream part of the invariant. */
  ghost predicate StreamInv(fifo: seq<byte>, popped: seq<byte>, queued: seq<Frame>, taken: nat, mark: nat) {
    && AllFit(queued)
    && mark <= taken <= |WireAll(queued)|
    && fifo == WireAll(queued)[taken..]
    && popped == WireAll(queued)[mark..taken]
  }

  ghost predicate LinkInv(l: Link) {
    WatchInv(l.w) && StreamInv(l.w.d.fifo, l.w.popped, l.queued, l.taken, l.mark)
  }

  lemma {:induction false} PutKeepsInv(l: Link, f: Frame)
    requires LinkInv(l) && f.Fits()
    ensures LinkInv(Feeds(l, Put(f)))
  {
    hide WatchInv, WireAll, Frame.Wire;
    SeeKeepsInv(l.w, EvWrite(f.Wire()));
    if Accepts(l.w.d, f.Wire()) {
      WireAllAppend(l.queued, [f]);
      WireAllOne(f);
      var s, t := WireAll(l.queued), f.Wire();
      assert (s + t)[l.taken..] == s[l.taken..] + t;
      assert (s + t)[l.mark..l.taken] == s[l.mark..l.taken];
    }
  }

  /** Events other than writes, polls and cancellations leave the FIFO and the popped bytes alone. */
  lemma {:induction false} FifoAfter(w: Watch, e: Ev)
    requires Sound(w.d) && !e.EvWrite?
    ensures var v := See(w, e);
            if Flushes(w.d, e) then v.d.fifo == [] && v.popped == []
            else if Cancels(w.d, e) then v.d.fifo == w.d.fifo && v.popped == []
            else if e.EvPoll? && Arms(w.d) then
              v.d.fifo == w.d.fifo[|Packet(w.d)|..] && v.popped == w.popped + Packet(w.d)
            else v.d.fifo == w.d.fifo && v.popped == w.popped
  {
    hide Pma.Write, Pma.Read, Ep0Handler;
    if e.Serve0? { Ep0AndEp1(w.d); }
  }

  lemma {:induction false} OtherKeepsStream(l: Link)
    requires StreamInv(l.w.d.fifo, l.w.popped, l.queued, l.taken, l.mark)
    ensures StreamInv([], [], [], 0, 0)
    ensures StreamInv(l.w.d.fifo, [], l.queued, l.taken, l.taken)
    ensures var n := |Packet(l.w.d)|;
            StreamInv(l.w.d.fifo[n..], l.w.popped + Packet(l.w.d), l.queued, l.taken + n, l.mark)
  {
    EmptyStream();
    PacketIsFront(l.w.d);
    hide Packet, WireAll, AllFit;
    assert AllFit([]) by { NoneFit(); }
    Slices(WireAll(l.queued), l.mark, l.taken, |Packet(l.w.d)|);
  }

  lemma {:induction false} NoneFit()
    ensures AllFit([])
  {
  }

  lemma {:induction false} OtherKeepsInv(l: Link, e: Ev)
    requires LinkInv(l) && !e.EvWrite?
    ensures LinkInv(Feeds(l, Other(e)))
  {
    hide WatchInv, See, Sound, Arms, Flushes, Cancels, Packet, StreamInv;
    WatchIsSound(l.w);
    SeeKeepsInv(l.w, e);
    FifoAfter(l.w, e);
    OtherKeepsStream(l);
    var v, m := See(l.w, e), Feeds(l, Other(e));
    if Flushes(l.w.d, e) {
      assert m == Link(v, [], 0, 0);
    } else if Cancels(l.w.d, e) {
      assert m == Link(v, l.queued, l.taken, l.taken);
    } else if e.EvPoll? && Arms(l.w.d) {
      assert m == Link(v, l.queued, l.taken + |Packet(l.w.d)|, l.mark);
    } else {
      assert m == Link(v, l.queued, l.taken, l.mark);
    }
  }

  lemma {:induction false} PacketIsFront(d: Dev)
    ensures |Packet(d)| <= |d.fifo| && Packet(d) == d.fifo[..|Packet(d)|]
  {
  }

  lemma {:induction false} Slices(s: seq<byte>, i: nat, j: nat, n: nat)
    requires i <= j && j + n <= |s|
    ensures s[j..][n..] == s[j + n..] && s[i..j] + s[j..][..n] == s[i..j + n]
  {
  }

  lemma {:induction false} EmptyStream()
    ensures WireAll([]) == []
  {
  }

  lemma {:induction false} WatchIsSound(w: Watch)
    requires WatchInv(w)
    ensures Sound(w.d)
  {
  }

  lemma {:induction false} LinkRunKeepsInv(l: Link, xs: seq<LinkEv>)
    requires LinkInv(l)
    ensures LinkInv(LinkRun(l, xs))
    decreases |xs|
  {
    if xs != [] {
      hide LinkInv, Feeds;
      LinkRunKeepsInv(l, xs[..|xs| - 1]);
      FeedsKeepsInv(LinkRun(l, xs[..|xs| - 1]), xs[|xs| - 1]);
    }
  }

  lemma {:induction false} FeedsKeepsInv(l: Link, x: LinkEv)
    requires LinkInv(l)
    ensures LinkInv(Feeds(l, x))
  {
    if x.Put? && x.f.Fits() {
      hide LinkInv, Feeds, Frame.Wire;
      PutKeepsInv(l, x.f);
    } else if x.Other? && !x.e.EvWrite? {
      hide LinkInv, Feeds;
      OtherKeepsInv(l, x.e);
    } else {
      hide LinkInv, See, Frame.Wire;
    }
  }

  function Plugged(desc: UsbCtrl.Descriptors, pma: Pma.Memory): Link { Link(Start(desc, pma), [], 0, 0) }

  lemma {:induction false} PluggedInv(desc: UsbCtrl.Descriptors, pma: Pma.Memory)
    ensures LinkInv(Plugged(desc, pma))
  {
    StartInv(desc, pma);
    hide WatchInv;
    EmptyStream();
  }

  // ---- Frames in a piece of the stream ----

  lemma {:induction false} StuffHasNoFlag(s: seq<byte>)
    ensures FLAG !in Stuff(s)
    decreases |s|
  {
    if s != [] { StuffHasNoFlag(s[..|s| - 1]); }
  }

  /** A proper, nonempty end of a frame on the wire. */
  ghost predicate EndOf(t: seq<byte>, f: Frame) {
    f.Fits() && 0 < |t| < |f.Wire()| && t == f.Wire()[|f.Wire()| - |t|..]
  }

  /** From any position on, the stream is the end of at most one frame followed by whole frames. */
  lemma {:induction false} CutStream(fs: seq<Frame>, n: nat) returns (k: nat, t: seq<byte>)
    requires AllFit(fs) && n <= |WireAll(fs)|
    ensures k <= |fs| && AllFit(fs[k..]) && WireAll(fs)[n..] == t + WireAll(fs[k..])
    ensures t == [] || (k > 0 && EndOf(t, fs[k - 1]))
    ensures n == 0 ==> k == 0 && t == []
    decreases |fs|
  {
    hide Frame.Wire;
    if fs == [] {
      k, t := 0, [];
    } else {
      var m := |fs| - 1;
      var a, w := WireAll(fs[..m]), fs[m].Wire();
      if n <= |a| {
        k, t := CutStream(fs[..m], n);
        assert (a + w)[n..] == a[n..] + w;
        assert fs[k..] == fs[..m][k..] + [fs[m]];
        WireAllAppend(fs[..m][k..], [fs[m]]);
        WireAllOne(fs[m]);
        ConcatAssociative(t, WireAll(fs[..m][k..]), w);
      } else {
        k, t := |fs|, w[n - |a|..];
        assert fs[k..] == [];
        EmptyStream();
      }
    }
  }

  /** The end of a frame: one FLAG, at its end. */
  lemma {:induction false} EndHasOneFlag(t: seq<byte>, f: Frame)
    requires EndOf(t, f)
    ensures t[|t| - 1] == FLAG && FLAG !in t[..|t| - 1]
  {
    var body := Stuff(Inner(f.Kind(), f.no, f.Arg()));
    StuffHasNoFlag(Inner(f.Kind(), f.no, f.Arg()));
    hide Stuff, Inner;
    assert f.Wire() == [FLAG] + body + [FLAG];
    assert t[..|t| - 1] == body[|body| + 1 - |t|..];
  }

  lemma {:induction false} NoFlagNoReport(d: Deframing.State, s: seq<byte>)
    requires FLAG !in s
    ensures Reports(d, s) == []
    decreases |s|
  {
    if s != [] {
      NoFlagNoReport(d, s[..|s| - 1]);
      assert s[|s| - 1] in s;
    }
  }

  lemma {:induction false} EndYieldsOneReport(d: Deframing.State, t: seq<byte>, f: Frame)
    requires EndOf(t, f)
    ensures |Reports(d, t)| <= 1 && After(d, t) == CLEAN
  {
    EndHasOneFlag(t, f);
    var n := |t| - 1;
    NoFlagNoReport(d, t[..n]);
    hide Decode, EndOf;
    assert Reports(d, t) == [] + Flush(After(d, t[..n]));
  }

  /** From any decoder state, the first `n` bytes of a stream of frames: what was pending, then whole frames. */
  lemma {:induction false} StreamDecodes(d: Deframing.State, fs: seq<Frame>, q: seq<byte>)
    requires AllFit(fs) && q <= WireAll(fs)
    ensures Reports(d, q) <= Flush(d) + DecodedAll(fs)
  {
    hide Flush, Decoded, WireAll, After, Reports, Frame.Wire, DecodedAll;
    var rest := WireAll(fs)[|q|..];
    assert WireAll(fs) == q + rest;
    FeedAppend(d, q, rest);
    Resynchronises(d, fs);
    if fs == [] {
      EmptyFeed(d);
      WireAllNone();
      assert q == [];
    }
  }

  /** The same, seen from below: the first `n` frames, once received whole, have been reported. */
  lemma {:induction false} WholeFramesDecode(d: Deframing.State, fs: seq<Frame>, q: seq<byte>, n: nat)
    requires AllFit(fs) && q <= WireAll(fs) && 0 < n <= |fs| && AllFit(fs[..n]) && |WireAll(fs[..n])| <= |q|
    ensures Flush(d) + DecodedAll(fs[..n]) <= Reports(d, q)
  {
    hide Flush, Decoded, WireAll, After, Reports, Frame.Wire, DecodedAll;
    var gs, hs := fs[..n], fs[n..];
    assert fs == gs + hs && AllFit(hs);
    WireAllAppend(gs, hs);
    var p := WireAll(gs);
    assert q == p + q[|p|..];
    FeedAppend(d, p, q[|p|..]);
    Resynchronises(d, gs);
  }

  /** How long a stream is up to frame `n`, when it is cut at byte `i` inside frame `k - 1`. */
  lemma {:induction false} LengthUpTo(fs: seq<Frame>, i: nat, k: nat, t: seq<byte>, n: nat)
    requires AllFit(fs) && i <= |WireAll(fs)| && k <= n <= |fs|
    requires AllFit(fs[k..]) && WireAll(fs)[i..] == t + WireAll(fs[k..])
    ensures AllFit(fs[..n]) && AllFit(fs[k..][..n - k])
    ensures |WireAll(fs[..n])| == i + |t| + |WireAll(fs[k..][..n - k])|
  {
    hide WireAll, Frame.Wire;
    var hs := fs[n..];
    assert fs == fs[..n] + hs && fs[k..] == fs[k..][..n - k] + hs;
    assert AllFit(fs[..n]) && AllFit(hs) && AllFit(fs[k..][..n - k]);
    WireAllAppend(fs[..n], hs);
    WireAllAppend(fs[k..][..n - k], hs);
  }

  /** The piece from `i` to `j`, split where the frame cut at `i` ends. */
  lemma {:induction false} PieceSplits(s: seq<byte>, i: nat, j: nat, t: seq<byte>, r: seq<byte>)
    requires i <= j <= |s| && s[i..] == t + r
    ensures j - i < |t| ==> s[i..j] == t[..j - i]
    ensures j - i >= |t| ==> j - i - |t| <= |r| && s[i..j] == t + r[..j - i - |t|]
  {
    assert s[i..j] == s[i..][..j - i];
  }

  lemma {:induction false} StartOfEnd(d: Deframing.State, t: seq<byte>, f: Frame, n: nat)
    requires EndOf(t, f) && n < |t|
    ensures Reports(d, t[..n]) == []
  {
    EndHasOneFlag(t, f);
    assert t[..n] == t[..|t| - 1][..n];
    NoFlagNoReport(d, t[..n]);
  }

  /**
   * A piece of the stream, received by a decoder in any state: at most one report for what the piece cuts off, then
   * exactly the frames that begin in it, in order, and all those that end in it.
   */
  lemma {:induction false} PieceDecodes(d: Deframing.State, fs: seq<Frame>, i: nat, j: nat)
      returns (k: nat, junk: seq<Report>)
    requires AllFit(fs) && i <= j <= |WireAll(fs)|
    ensures k <= |fs| && |junk| <= 1 && (i == 0 ==> k == 0)
    ensures Reports(d, WireAll(fs)[i..j]) <= junk + DecodedAll(fs[k..])
    ensures forall n :: k < n <= |fs| && AllFit(fs[..n]) && |WireAll(fs[..n])| <= j ==>
              junk + DecodedAll(fs[k..][..n - k]) <= Reports(d, WireAll(fs)[i..j])
  {
    hide Flush, Decoded, WireAll, After, Reports, Frame.Wire, DecodedAll, EndOf;
    var t;
    k, t := CutStream(fs, i);
    var gs := fs[k..];
    PieceSplits(WireAll(fs), i, j, t, WireAll(gs));
    if j - i < |t| {
      junk := [];
      StartOfEnd(d, t, fs[k - 1], j - i);
      forall n | k < n <= |fs|
        ensures AllFit(fs[..n]) ==> |WireAll(fs[..n])| > j
      {
        LengthUpTo(fs, i, k, t, n);
      }
    } else {
      var q := WireAll(gs)[..j - i - |t|];
      FeedAppend(d, t, q);
      var e := After(d, t);
      junk := JunkOf(d, fs, k, t);
      StreamDecodes(e, gs, q);
      ConcatAssociative(Reports(d, t), Flush(e), DecodedAll(gs));
      forall n | k < n <= |fs| && AllFit(fs[..n]) && |WireAll(fs[..n])| <= j
        ensures junk + DecodedAll(gs[..n - k]) <= Reports(d, WireAll(fs)[i..j])
      {
        LengthUpTo(fs, i, k, t, n);
        WholeFramesDecode(e, gs, q, n - k);
        ConcatAssociative(Reports(d, t), Flush(e), DecodedAll(gs[..n - k]));
      }
    }
  }

  lemma {:induction false} JunkOf(d: Deframing.State, fs: seq<Frame>, k: nat, t: seq<byte>) returns (junk: seq<Report>)
    requires t == [] || (0 < k <= |fs| && EndOf(t, fs[k - 1]))
    ensures junk == Reports(d, t) + Flush(After(d, t)) && |junk| <= 1
  {
    hide Decode, EndOf;
    junk := Reports(d, t) + Flush(After(d, t));
    if t == [] {
      EmptyFeed(d);
    } else {
      EndYieldsOneReport(d, t, fs[k - 1]);
      FlushClean();
    }
  }

  lemma {:induction false} LinkHolds(l: Link)
    requires LinkInv(l)
    ensures WatchInv(l.w) && AllFit(l.queued) && l.mark <= l.taken <= |WireAll(l.queued)|
    ensures l.w.d.fifo == WireAll(l.queued)[l.taken..] && l.w.popped == WireAll(l.queued)[l.mark..l.taken]
    ensures WireAll(l.queued) == WireAll(l.queued)[..l.taken] + l.w.d.fifo
  {
    hide WatchInv, WireAll, AllFit;
  }

  // ---- Theorems ----

  /**
   * Flushes and reconfigurations never leave a headless middle: in every reachable state the FIFO holds the end of at
   * most one frame followed by whole frames, and what has been sent since the last cancellation is the piece of the
   * frames from `mark` to `taken`.
   */
  lemma {:induction false} FifoHoldsWholeFrames(desc: UsbCtrl.Descriptors, pma: Pma.Memory, xs: seq<LinkEv>)
      returns (k: nat, t: seq<byte>)
    ensures var l := LinkRun(Plugged(desc, pma), xs);
            && AllFit(l.queued) && l.taken <= |WireAll(l.queued)|
            && WireAll(l.queued) == WireAll(l.queued)[..l.taken] + l.w.d.fifo
            && k <= |l.queued| && AllFit(l.queued[k..]) && l.w.d.fifo == t + WireAll(l.queued[k..])
            && (t == [] || (k > 0 && EndOf(t, l.queued[k - 1])))
            && l.mark <= l.taken && l.w.popped == WireAll(l.queued)[l.mark..l.taken]
  {
    PluggedInv(desc, pma);
    LinkRunKeepsInv(Plugged(desc, pma), xs);
    hide WatchInv, WireAll, EndOf, LinkRun, Plugged, AllFit, LinkInv;
    var l := LinkRun(Plugged(desc, pma), xs);
    LinkHolds(l);
    k, t := CutStream(l.queued, l.taken);
  }

  /**
   * After a flush the next byte sent starts a frame: the count of bytes taken from the accepted frames begins again
   * at 0, and until the next cancellation everything sent is a prefix of the frames accepted since.
   */
  lemma {:induction false} FlushStartsAnew(
      desc: UsbCtrl.Descriptors, pma: Pma.Memory, xs: seq<LinkEv>, e: Ev, ys: seq<LinkEv>)
    requires var l := LinkRun(Plugged(desc, pma), xs); Flushes(l.w.d, e) && !e.EvWrite?
    requires NoCancel(LinkRun(Plugged(desc, pma), xs + [Other(e)]), ys)
    ensures var l := LinkRun(Plugged(desc, pma), xs + [Other(e)]);
            && l.queued == [] && l.taken == 0 && l.w.d.fifo == []
            && var m := LinkRun(l, ys);
               AllFit(m.queued) && m.taken <= |WireAll(m.queued)| && m.w.popped == WireAll(m.queued)[..m.taken]
  {
    hide Feeds, LinkInv, WireAll, AllFit, Plugged, LinkRun, NoCancel, Flushes, WatchInv;
    PluggedInv(desc, pma);
    EmptyStream();
    var p := Plugged(desc, pma);
    LinkRunKeepsInv(p, xs + [Other(e)]);
    LinkRunLast(p, xs, Other(e));
    var l := LinkRun(p, xs + [Other(e)]);
    FlushEmpties(LinkRun(p, xs), e);
    LinkRunKeepsInv(l, ys);
    LinkHolds(l);
    MarkStays(l, ys);
    LinkHolds(LinkRun(l, ys));
  }

  lemma {:induction false} LinkRunLast(l: Link, xs: seq<LinkEv>, x: LinkEv)
    ensures LinkRun(l, xs + [x]) == Feeds(LinkRun(l, xs), x)
  {
    hide Feeds;
    assert (xs + [x])[..|xs|] == xs;
  }

  lemma {:induction false} FlushEmpties(l: Link, e: Ev)
    requires Flushes(l.w.d, e) && !e.EvWrite?
    ensures var m := Feeds(l, Other(e)); m.queued == [] && m.taken == 0 && m.mark == 0
  {
    hide See;
  }

  /** No event of `ys` cancels a packet or flushes the FIFO. */
  predicate NoCancel(l: Link, ys: seq<LinkEv>) {
    ys != [] ==>
      var m, y := LinkRun(l, ys[..|ys| - 1]), ys[|ys| - 1];
      NoCancel(l, ys[..|ys| - 1]) && (y.Other? ==> !Cancels(m.w.d, y.e) && !Flushes(m.w.d, y.e))
  }

  lemma {:induction false} MarkStays(l: Link, ys: seq<LinkEv>)
    requires NoCancel(l, ys)
    ensures LinkRun(l, ys).mark == l.mark
    decreases |ys|
  {
    if ys != [] {
      hide See, Cancels, Flushes;
      MarkStays(l, ys[..|ys| - 1]);
    }
  }

  /**
   * What the host decodes after the last cancellation, whatever its decoder had seen before: at most one report for
   * the cut-off frame, then the frames in order, and every frame fully delivered. After a flush no frame is cut.
   */
  lemma {:induction false} HostDecodesWholeFrames(
      desc: UsbCtrl.Descriptors, pma: Pma.Memory, xs: seq<LinkEv>, d: Deframing.State)
      returns (k: nat, junk: seq<Report>)
    requires !LinkRun(Plugged(desc, pma), xs).w.raced
    ensures var l := LinkRun(Plugged(desc, pma), xs);
            && k <= |l.queued| && |junk| <= 1 && (l.mark == 0 ==> k == 0)
            && Reports(d, l.w.got) <= junk + DecodedAll(l.queued[k..])
            && forall n :: (k < n <= |l.queued| && AllFit(l.queued[..n])
                            && |WireAll(l.queued[..n])| <= l.mark + |l.w.got|)
                 ==> junk + DecodedAll(l.queued[k..][..n - k]) <= Reports(d, l.w.got)
  {
    hide LinkRun, Plugged, LinkInv, WireAll, DecodedAll, Reports, AllFit;
    PluggedInv(desc, pma);
    LinkRunKeepsInv(Plugged(desc, pma), xs);
    k, junk := StretchDecodes(LinkRun(Plugged(desc, pma), xs), d);
  }

  /** The same from any state of the link. */
  lemma {:induction false} StretchDecodes(l: Link, d: Deframing.State) returns (k: nat, junk: seq<Report>)
    requires LinkInv(l) && !l.w.raced
    ensures k <= |l.queued| && |junk| <= 1 && (l.mark == 0 ==> k == 0)
    ensures Reports(d, l.w.got) <= junk + DecodedAll(l.queued[k..])
    ensures forall n :: (k < n <= |l.queued| && AllFit(l.queued[..n])
                         && |WireAll(l.queued[..n])| <= l.mark + |l.w.got|)
              ==> junk + DecodedAll(l.queued[k..][..n - k]) <= Reports(d, l.w.got)
  {
    hide WatchInv, WireAll, DecodedAll, Reports, AllFit, LinkInv, StreamInv;
    LinkHolds(l);
    DeliveredIsPiece(l);
    k, junk := PieceDecodes(d, l.queued, l.mark, l.mark + |l.w.got|);
  }

  lemma {:induction false} DeliveredIsPiece(l: Link)
    requires LinkInv(l) && !l.w.raced
    ensures l.mark + |l.w.got| <= |WireAll(l.queued)|
    ensures l.w.got == WireAll(l.queued)[l.mark..l.mark + |l.w.got|]
  {
    LinkHolds(l);
    DeliveredPart(l.w);
    hide WatchInv, WireAll, AllFit, LinkInv, StreamInv;
    PrefixOfSlice(l.w.got, WireAll(l.queued), l.mark, l.taken);
  }

  lemma {:induction false} PrefixOfSlice(p: seq<byte>, s: seq<byte>, i: nat, j: nat)
    requires i <= j <= |s| && p <= s[i..j]
    ensures i + |p| <= j && p == s[i..i + |p|]
  {
    assert p == s[i..j][..|p|];
  }

  lemma {:induction false} DeliveredPart(w: Watch)
    requires WatchInv(w) && !w.raced
    ensures w.got <= w.popped
  {
  }
}
