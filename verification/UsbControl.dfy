/** Control reads: the packets of the data stage, however long the data and whatever the host asked for. */
module UsbControl {
  import opened Bytes
  import opened EpReg
  import opened Pma
  import opened UsbCtrl
  import opened UsbDevice
  import opened UsbInFlight

  // ---- The data stage as USB 2.0 wants it ----

  /** `msg` in packets of 64 bytes, and an empty one after it if asked for. */
  function Packets(msg: seq<byte>, zlp: bool): (ps: seq<seq<byte>>)
    ensures ps != []
    decreases |msg|
  {
    if |msg| > EP0_MAX then [msg[..EP0_MAX]] + Packets(msg[EP0_MAX..], zlp)
    else [msg] + (if zlp then [[]] else [])
  }

  function Joined(ps: seq<seq<byte>>): seq<byte> {
    if ps == [] then [] else ps[0] + Joined(ps[1..])
  }

  /**
   * Sections 5.5.3 and 8.5.3.2 of USB 2.0: the packets make up the message, all but the last are full, and the stage
   * ends with a short packet or at exactly the length the host asked for; an empty packet is never a spurious one.
   */
  lemma {:induction false} DataStageIsProper(msg: seq<byte>, wlen: nat)
    requires |msg| <= wlen
    ensures var ps := Packets(msg, ZlpNeeded(|msg|, wlen, 64));
            var last := ps[|ps| - 1];
            && Joined(ps) == msg
            && (forall i :: 0 <= i < |ps| - 1 ==> |ps[i]| == 64)
            && |last| <= 64 && (|last| < 64 || |msg| == wlen)
            && (last == [] ==> |msg| == 0 || (|msg| < wlen && |msg| % 64 == 0))
  {
    var zlp := ZlpNeeded(|msg|, wlen, EP0_MAX);
    PacketsJoin(msg, zlp);
    ZlpExactlyWhenNeeded(msg, wlen, zlp);
    hide Packets, Joined;
    forall i | 0 <= i < |Packets(msg, zlp)| - 1
      ensures |Packets(msg, zlp)[i]| == EP0_MAX
    {
      assert Partway(Packets(msg, zlp), i, wlen);
    }
  }

  /** Packet `i` is full and leaves the stage unfinished. */
  predicate Partway(ps: seq<seq<byte>>, i: nat, wlen: nat)
    requires i < |ps|
  {
    |ps[i]| == EP0_MAX && |Joined(ps[..i + 1])| < wlen
  }

  /** All packets but the last leave the stage unfinished, and the last one finishes it. */
  ghost predicate StageProper(ps: seq<seq<byte>>, wlen: nat) {
    && ps != []
    && (forall i :: 0 <= i < |ps| - 1 ==> Partway(ps, i, wlen))
    && (|ps[|ps| - 1]| < EP0_MAX || |Joined(ps)| == wlen)
  }

  lemma {:induction false} JoinedSplits(ps: seq<seq<byte>>, qs: seq<seq<byte>>)
    ensures Joined(ps + qs) == Joined(ps) + Joined(qs)
    decreases |ps|
  {
    if ps == [] {
      assert ps + qs == qs;
    } else {
      JoinedSplits(ps[1..], qs);
      assert (ps + qs)[1..] == ps[1..] + qs;
    }
  }

  /** The number of packets, and how many bytes the first of them carry. */
  lemma {:induction false} PacketCounts(msg: seq<byte>, zlp: bool, i: nat)
    requires i + 1 < |Packets(msg, zlp)|
    ensures var ps := Packets(msg, zlp);
            && |Joined(ps[..i + 1])| == (if EP0_MAX * (i + 1) <= |msg| then EP0_MAX * (i + 1) else |msg|)
            && |ps[i]| == (if EP0_MAX * (i + 1) <= |msg| then EP0_MAX else |msg| - EP0_MAX * i)
            && (i > 0 ==> EP0_MAX * i < |msg|) && (EP0_MAX * (i + 1) >= |msg| <==> zlp && i + 2 == |ps|)
    decreases |msg|
  {
    var ps := Packets(msg, zlp);
    assert ps[..i + 1] == [ps[0]] + ps[1..][..i];
    JoinedCons(ps[0], ps[1..][..i]);
    if |msg| > EP0_MAX && i > 0 { PacketCounts(msg[EP0_MAX..], zlp, i - 1); }
  }

  lemma {:induction false} PacketsJoin(msg: seq<byte>, zlp: bool)
    ensures var ps := Packets(msg, zlp);
            && Joined(ps) == msg
            && (zlp ==> |ps| >= 2 && ps[|ps| - 1] == [])
            && (!zlp && ps[|ps| - 1] == [] ==> msg == [])
            && (!zlp ==> |ps[|ps| - 1]| <= EP0_MAX
                         && (|ps[|ps| - 1]| == EP0_MAX <==> msg != [] && |msg| % EP0_MAX == 0))
    decreases |msg|
  {
    if |msg| > EP0_MAX {
      PacketsJoin(msg[EP0_MAX..], zlp);
      JoinedCons(msg[..EP0_MAX], Packets(msg[EP0_MAX..], zlp));
    } else {
      JoinedCons(msg, if zlp then [[]] else []);
      JoinedCons([], []);
    }
  }

  /**
   * The zero-length packet is decided right, and there is no other right decision: for any message of at most wLength
   * bytes the stage is proper with a terminating empty packet exactly if the rule asks for one, and without exactly
   * if it does not.
   */
  lemma {:induction false} ZlpExactlyWhenNeeded(msg: seq<byte>, wlen: nat, zlp: bool)
    requires |msg| <= wlen
    ensures StageProper(Packets(msg, zlp), wlen) <==> zlp == ZlpNeeded(|msg|, wlen, EP0_MAX)
  {
    var ps := Packets(msg, zlp);
    PacketsJoin(msg, zlp);
    hide Packets, Joined;
    forall i | 0 <= i < |ps| - 1
      ensures i + 2 < |ps| || !zlp ==> Partway(ps, i, wlen)
    {
      PacketCounts(msg, zlp, i);
    }
    if zlp {
      var k := |ps| - 2;
      PacketCounts(msg, zlp, k);
      WholePackets(|msg|, k);
      assert Partway(ps, k, wlen) <==> ZlpNeeded(|msg|, wlen, EP0_MAX);
      hide Partway;
    } else {
      hide Partway;
      assert StageProper(ps, wlen) <==> |ps[|ps| - 1]| < EP0_MAX || |msg| == wlen;
    }
  }

  lemma {:induction false} WholePackets(n: nat, k: nat)
    requires (k > 0 ==> EP0_MAX * k < n) && EP0_MAX * (k + 1) >= n
    ensures n == EP0_MAX * (k + 1) <==> n > 0 && n % EP0_MAX == 0
  {
  }

  lemma {:induction false} JoinedCons(p: seq<byte>, ps: seq<seq<byte>>)
    ensures Joined([p] + ps) == p + Joined(ps) && Joined([]) == []
  {
    assert ([p] + ps)[1..] == ps;
  }

  // ---- The device in a data stage ----

  /** A packet is armed, `rest` is still to send and the host has not taken the armed packet yet. */
  ghost predicate InStage(d: Dev, rest: seq<byte>) {
    && Sound(d) && d.ep0.statTx.Valid? && !d.ep0.ctrTx && !d.ep0.ctrRx
    && d.ctl.rem == |rest| && rest == Mem(d)[d.ctl.off..d.ctl.off + d.ctl.rem]
  }

  /** Events that do not concern EP0. */
  predicate Elsewhere(e: Ev) { e.EvIn1? || e.EvBulkOut? || e.Serve1? || e.Serve2? || e.EvWrite? || e.EvPoll? }

  lemma {:induction false} ElsewhereKeepsControl(d: Dev, e: Ev)
    requires Sound(d) && Elsewhere(e)
    ensures var f := Apply(d, e);
            && f.ep0 == d.ep0 && f.ctl == d.ctl && f.tx0 == d.tx0 && f.daddr == d.daddr && f.desc == d.desc
            && f.rx0 == d.rx0 && Sent0(f) == Sent0(d) && Sound(f)
  {
    ApplyKeepsSound(d, e);
    hide Sound, Write, Read, Sent0;
    if e.EvBulkOut? {
      Received(d, e.data);
    } else if e.EvPoll? {
      Armed(d);
    } else {
      SameBuffer0(d, Apply(d, e));
    }
  }

  lemma {:induction false} SameBuffer0(d: Dev, f: Dev)
    requires f.tx0 == d.tx0 && f.pma == d.pma
    ensures Sent0(f) == Sent0(d)
  {
    hide Read;
  }

  lemma {:induction false} Received(d: Dev, data: Small)
    ensures Sent0(BulkOutArrives(d, data)) == Sent0(d)
  {
    hide Write, Read;
    WriteStaysInside(d.pma, EP1_RX, data);
    if d.tx0 <= EP0_MAX { ReadElsewhere(d.pma, Write(d.pma, EP1_RX, data), EP1_RX, EP0_TX, d.tx0); }
  }

  lemma {:induction false} Armed(d: Dev)
    ensures Sent0(CdcPoll(d)) == Sent0(d)
  {
    hide Write, Read;
    WriteStaysInside(d.pma, EP1_TX, Packet(d));
    if d.tx0 <= EP0_MAX { ReadElsewhere(d.pma, Write(d.pma, EP1_TX, Packet(d)), EP1_TX, EP0_TX, d.tx0); }
  }

  lemma {:induction false} NoiseKeepsStage(d: Dev, noise: seq<Ev>, rest: seq<byte>)
    requires InStage(d, rest) && forall e :: e in noise ==> Elsewhere(e)
    ensures var f := RunOf(d, noise); InStage(f, rest) && Sent0(f) == Sent0(d) && f.ctl == d.ctl && f.daddr == d.daddr
    decreases |noise|
  {
    if noise != [] {
      hide Apply, Sound;
      var n := |noise| - 1;
      assert noise[n] in noise;
      NoiseKeepsStage(d, noise[..n], rest);
      ElsewhereKeepsControl(RunOf(d, noise[..n]), noise[n]);
    }
  }

  /** The host takes the armed packet and the driver serves the completion. */
  function Round(d: Dev): Dev { Apply(Apply(d, EvIn0), Serve0) }

  /** With data left, a round is one continuation. */
  lemma {:induction false} RoundIsContinue(d: Dev)
    requires Sound(d) && d.ep0.statTx.Valid? && !d.ep0.ctrTx && !d.ep0.ctrRx && d.ctl.rem > 0
    ensures Round(d) == Ep0InContinue(d.(ep0 := d.ep0.(statTx := Nak, dtogTx := !d.ep0.dtogTx)))
  {
    hide Ep0InContinue, Ep0Rx;
  }

  lemma {:induction false} ContinueSends(d: Dev)
    requires Sound(d) && d.ctl.rem > 0
    ensures var e, n := Ep0InContinue(d), Chunk(d.ctl.rem);
            && Sent0(e) == Mem(d)[d.ctl.off..d.ctl.off + n]
            && e.ctl == d.ctl.(off := d.ctl.off + n, rem := d.ctl.rem - n)
            && Mem(e) == Mem(d) && e.ep0 == d.ep0.(statTx := Valid) && e.daddr == d.daddr
  {
    hide Write, Read, MemoryOf;
    var n := Chunk(d.ctl.rem);
    var chunk := Behind(Mem(d), d.ctl.off, n);
    assert chunk == Mem(d)[d.ctl.off..d.ctl.off + n];
    ReadWritten(d.pma, EP0_TX, chunk);
    hide Behind;
  }

  lemma {:induction false} RoundContinues(d: Dev, rest: seq<byte>)
    requires InStage(d, rest) && rest != []
    ensures var n := Chunk(|rest|);
            && InStage(Round(d), rest[n..]) && Sent0(Round(d)) == rest[..n] && Round(d).ctl.zlp == d.ctl.zlp
            && Round(d).daddr == d.daddr
  {
    RoundIsContinue(d);
    var c := d.(ep0 := d.ep0.(statTx := Nak, dtogTx := !d.ep0.dtogTx));
    ContinueSends(c);
    ContinueKeepsSound(c);
    var n := Chunk(|rest|);
    hide Ep0InContinue, Sent0, Round, MemoryOf;
    assert Mem(c) == Mem(d);
    SplitSlice(Mem(d), d.ctl.off, n, d.ctl.off + d.ctl.rem);
  }

  lemma {:induction false} SplitSlice(s: seq<byte>, a: nat, n: nat, b: nat)
    requires a + n <= b <= |s|
    ensures s[a..b][..n] == s[a..a + n] && s[a..b][n..] == s[a + n..b]
  {
  }

  lemma {:induction false} RoundSendsZlp(d: Dev)
    requires InStage(d, []) && d.ctl.zlp
    ensures InStage(Round(d), []) && Sent0(Round(d)) == [] && !Round(d).ctl.zlp && Round(d).daddr == d.daddr
  {
  }

  lemma {:induction false} RoundEnds(d: Dev)
    requires InStage(d, []) && !d.ctl.zlp
    ensures Round(d).ep0.statTx.Nak? && !Round(d).ep0.ctrTx && Sound(Round(d))
  {
  }

  /** A round in which the host speaks to address register value `addr`; at another one the device hears nothing. */
  function RoundAt(d: Dev, addr: nat): Dev { if d.daddr == addr then Round(d) else d }

  /** The packets the host takes, asking `addr` once a round; between two rounds anything may happen elsewhere. */
  function Taken(d: Dev, addr: nat, noises: seq<seq<Ev>>): seq<seq<byte>>
    decreases |noises|
  {
    if noises == [] then []
    else
      var e := RunOf(d, noises[0]);
      (if e.ep0.statTx.Valid? && e.daddr == addr then [Sent0(e)] else []) + Taken(RoundAt(e, addr), addr, noises[1..])
  }

  /** Where the device is after them. */
  function AfterRounds(d: Dev, addr: nat, noises: seq<seq<Ev>>): Dev
    decreases |noises|
  {
    if noises == [] then d else AfterRounds(RoundAt(RunOf(d, noises[0]), addr), addr, noises[1..])
  }

  predicate AllElsewhere(noises: seq<seq<Ev>>) {
    forall i :: 0 <= i < |noises| ==> forall e :: e in noises[i] ==> Elsewhere(e)
  }

  /** The rest of a stage, from any point of it. */
  lemma {:induction false} StageRuns(d: Dev, rest: seq<byte>, noises: seq<seq<Ev>>)
    requires InStage(d, rest) && AllElsewhere(noises)
    requires |noises| == 1 + if rest != [] then |Packets(rest, d.ctl.zlp)| else if d.ctl.zlp then 1 else 0
    ensures Taken(d, d.daddr, noises) ==
            [Sent0(d)] + if rest != [] then Packets(rest, d.ctl.zlp) else if d.ctl.zlp then [[]] else []
    ensures var e := AfterRounds(d, d.daddr, noises); e.ep0.statTx.Nak? && Sound(e)
    decreases |rest|, d.ctl.zlp
  {
    NoiseKeepsStage(d, noises[0], rest);
    var e := RunOf(d, noises[0]);
    hide Ep0Handler, Sent0, RunOf, Sound, Round;
    if rest != [] {
      var n := Chunk(|rest|);
      RoundContinues(e, rest);
      StageRuns(Round(e), rest[n..], noises[1..]);
      assert |rest| <= EP0_MAX ==> rest[..n] == rest && rest[n..] == [];
    } else if d.ctl.zlp {
      RoundSendsZlp(e);
      StageRuns(Round(e), [], noises[1..]);
    } else {
      RoundEnds(e);
    }
  }

  // ---- From SETUP to the end of the stage ----

  /** A SETUP packet waits to be served, and it asks for data. */
  ghost predicate AsksForData(d: Dev) {
    Sound(d) && d.ep0.ctrRx && d.ep0.setup && Resolved(d).TxData?
  }

  /** What the request is answered with: the first `len` bytes behind the source, as they are now. */
  function Message(d: Dev): seq<byte>
    requires Sound(d) && Resolved(d).TxData?
  {
    var r := Resolved(d);
    Behind(MemoryOf(r.src, d.desc, Latched(d).ctl.strbuf, d.ctl.line), 0, r.len)
  }

  lemma {:induction false} MessageBounds(d: Dev)
    requires AsksForData(d)
    ensures var s := Read(d.pma, EP0_RX, 8);
            var r := Resolved(d);
            && |Message(d)| == r.len <= WLength(s) && r.zlp == ZlpNeeded(r.len, WLength(s), EP0_MAX)
            && r.len <= |MemoryOf(r.src, d.desc, Latched(d).ctl.strbuf, d.ctl.line)|
            && |Latched(d).ctl.strbuf| == SCRATCH
  {
    var s := Read(d.pma, EP0_RX, 8);
    ResolutionIsSound(s, d.configured, d.desc, d.ctl.strbuf, d.ctl.line);
    hide Resolve, Read;
  }

  /** Serving the SETUP arms the first packet. */
  lemma {:induction false} SetupStartsStage(d: Dev)
    requires AsksForData(d) && !d.ep0.ctrTx
    ensures var n := Chunk(|Message(d)|);
            && InStage(Ep0Handler(d), Message(d)[n..]) && Sent0(Ep0Handler(d)) == Message(d)[..n]
            && Ep0Handler(d).ctl.zlp == Resolved(d).zlp && Ep0Handler(d).daddr == d.daddr
  {
    MessageBounds(d);
    Ep0KeepsSound(d);
    hide Resolve, Read, Write;
    var e := d.(ep0 := d.ep0.(ctrRx := false));
    SetupIsExecuted(e);
    assert Latched(e).ctl == Latched(d).ctl && Resolved(e) == Resolved(d);
    BeginStarts(Latched(e), Resolved(d).src, Resolved(d).len, Resolved(d).zlp);
  }

  lemma {:induction false} BeginStarts(d: Dev, src: Source, len: nat, zlp: bool)
    requires len <= |MemoryOf(src, d.desc, d.ctl.strbuf, d.ctl.line)|
    ensures var e, n := Ep0BeginIn(d, src, len, zlp), Chunk(len);
            var msg := MemoryOf(src, d.desc, d.ctl.strbuf, d.ctl.line)[..len];
            && e.ep0 == d.ep0.(statTx := Valid, statRx := Valid)
            && e.ctl == d.ctl.(src := src, off := n, rem := len - n, zlp := zlp)
            && Mem(e) == MemoryOf(src, d.desc, d.ctl.strbuf, d.ctl.line)
            && Sent0(e) == msg[..n]
  {
    var n := Chunk(len);
    var mem := MemoryOf(src, d.desc, d.ctl.strbuf, d.ctl.line);
    ReadWritten(d.pma, EP0_TX, mem[..n]);
    hide Read, Write;
    assert mem[..len][..n] == mem[..n];
  }

  /**
   * Control reads: once a SETUP that asks for data is served with no completion pending, the host takes exactly the
   * packets of a proper data stage for the first min(length, wLength) bytes, and then EP0 is idle; events elsewhere
   * make no difference.
   */
  lemma {:induction false} ControlRead(d: Dev, noises: seq<seq<Ev>>)
    requires AsksForData(d) && !d.ep0.ctrTx && AllElsewhere(noises)
    requires |noises| == |Packets(Message(d), Resolved(d).zlp)|
    ensures Taken(Ep0Handler(d), d.daddr, noises) == Packets(Message(d), Resolved(d).zlp)
    ensures AfterRounds(Ep0Handler(d), d.daddr, noises).ep0.statTx.Nak?
    ensures var wlen := WLength(Read(d.pma, EP0_RX, 8));
            |Message(d)| <= wlen && Resolved(d).zlp == ZlpNeeded(|Message(d)|, wlen, EP0_MAX)
  {
    MessageBounds(d);
    SetupStartsStage(d);
    var msg, n := Message(d), Chunk(|Message(d)|);
    hide Ep0Handler, Sent0, Message, Resolved, Read, Sound, InStage;
    StageRuns(Ep0Handler(d), msg[n..], noises);
    assert |msg| <= EP0_MAX ==> msg[..n] == msg && msg[n..] == [];
  }

  /** The same device without the stale completion; its data toggle, which the driver never reads, the other way. */
  function Unstale(d: Dev): Dev { d.(ep0 := d.ep0.(ctrTx := false, dtogTx := !d.ep0.dtogTx)) }

  lemma {:induction false} SameAnswerUnstale(d: Dev)
    requires AsksForData(d)
    ensures AsksForData(Unstale(d)) && Message(Unstale(d)) == Message(d) && Resolved(Unstale(d)) == Resolved(d)
  {
    hide Resolve, Read, Behind;
  }

  /** Executing a data answer does not look at the completion or the toggle. */
  lemma {:induction false} BeginUnstale(d: Dev, src: Source, len: nat, zlp: bool)
    ensures Ep0BeginIn(Unstale(d), src, len, zlp) == Unstale(Ep0BeginIn(d, src, len, zlp))
    ensures var e := Ep0BeginIn(d, src, len, zlp);
            e.ep0.statTx.Valid? && e.ep0.ctrRx == d.ep0.ctrRx && e.ep0.ctrTx == d.ep0.ctrTx
  {
    hide Write, Behind, MemoryOf;
  }

  /** Serving the SETUP without and with the stale completion pending. */
  lemma {:induction false} ServedUnstale(d: Dev)
    requires AsksForData(d) && d.ep0.ctrTx
    ensures Ep0Handler(Unstale(d)) == Unstale(Ep0Rx(d)) && Ep0Handler(d) == Ep0Tx(Ep0Rx(d))
    ensures Ep0Rx(d).ep0.statTx.Valid? && !Ep0Rx(d).ep0.ctrRx && Ep0Rx(d).ep0.ctrTx
  {
    hide Resolve, Read, Ep0BeginIn, Ep0Tx, HandleSetup;
    MessageBounds(d);
    var e, r := d.(ep0 := d.ep0.(ctrRx := false)), Resolved(d);
    SetupIsExecuted(e);
    SetupIsExecuted(Unstale(e));
    BeginUnstale(Latched(e), r.src, r.len, r.zlp);
    assert Latched(Unstale(e)) == Unstale(Latched(e));
  }

  /** With more to send, a stale completion does what a round does: the first packet is over before it is taken. */
  lemma {:induction false} StaleIsARound(d: Dev)
    requires Sound(d) && d.ep0.statTx.Valid? && !d.ep0.ctrRx && d.ep0.ctrTx && (d.ctl.rem > 0 || d.ctl.zlp)
    ensures Ep0Tx(d) == Round(Unstale(d))
  {
    hide Write, Behind, MemoryOf, Ep0Rx;
  }

  lemma {:induction false} StaleAloneIsHarmless(d: Dev)
    requires d.ctl.rem == 0 && !d.ctl.zlp
    ensures var e := Ep0Tx(d); e.ep0.statTx == d.ep0.statTx && Sent0(e) == Sent0(d)
  {
    hide Read;
  }

  lemma {:induction false} OneMoreRound(d: Dev, addr: nat, noises: seq<seq<Ev>>)
    requires noises != []
    ensures var k := |noises| - 1;
            var e := RunOf(AfterRounds(d, addr, noises[..k]), noises[k]);
            Taken(d, addr, noises) ==
            Taken(d, addr, noises[..k]) + if e.ep0.statTx.Valid? && e.daddr == addr then [Sent0(e)] else []
    decreases |noises|
  {
    hide RunOf, Sent0, RoundAt;
    if |noises| > 1 {
      var e := RoundAt(RunOf(d, noises[0]), addr);
      OneMoreRound(e, addr, noises[1..]);
      assert noises[1..][..|noises| - 2] == noises[..|noises| - 1][1..];
    }
  }

  /** An answer of two packets or more: the host gets all but the first. */
  lemma {:induction false} StaleLosesFirst(d: Dev, noises: seq<seq<Ev>>)
    requires AsksForData(d) && d.ep0.ctrTx && AllElsewhere(noises)
    requires |Message(d)| > EP0_MAX || Resolved(d).zlp
    requires |noises| == |Packets(Message(d), Resolved(d).zlp)|
    ensures Taken(Ep0Handler(d), d.daddr, noises) == Packets(Message(d), Resolved(d).zlp)[1..]
  {
    AddressWhenServed(d);
    SameAnswerUnstale(d);
    ServedUnstale(d);
    SetupStartsStage(Unstale(d));
    var ps, k := Packets(Message(d), Resolved(d).zlp), |noises| - 1;
    var g := Ep0Handler(Unstale(d));
    Ep0RxKeepsSound(d);
    hide Ep0Handler, Ep0Rx, Ep0Tx, Message, Resolved, Sound, Round, Sent0;
    StaleIsARound(Ep0Rx(d));
    StageGoesOn(g, Message(d), noises[..k]);
    OneMoreRound(Round(g), d.daddr, noises);
    NoiseKeepsPacket(AfterRounds(Round(g), d.daddr, noises[..k]), noises[k]);
  }

  /** A stage of two packets or more after its first round. */
  lemma {:induction false} StageGoesOn(g: Dev, msg: seq<byte>, noises: seq<seq<Ev>>)
    requires InStage(g, msg[Chunk(|msg|)..]) && AllElsewhere(noises) && (|msg| > EP0_MAX || g.ctl.zlp)
    requires |noises| + 1 == |Packets(msg, g.ctl.zlp)|
    ensures Taken(Round(g), g.daddr, noises) == Packets(msg, g.ctl.zlp)[1..]
    ensures Round(g).daddr == g.daddr
    ensures var e := AfterRounds(Round(g), g.daddr, noises); e.ep0.statTx.Nak? && Sound(e)
  {
    var rest := msg[Chunk(|msg|)..];
    hide Round, Sent0, InStage, Sound;
    if rest != [] {
      var n := Chunk(|rest|);
      RoundContinues(g, rest);
      StageRuns(Round(g), rest[n..], noises);
      assert |rest| <= EP0_MAX ==> rest[..n] == rest && rest[n..] == [];
    } else {
      RoundSendsZlp(g);
      StageRuns(Round(g), [], noises);
    }
  }

  lemma {:induction false} RxKeepsAddress(d: Dev)
    requires AsksForData(d)
    ensures var e := Ep0Rx(d);
            && e.daddr == d.daddr && e.ctl.addrPending == d.ctl.addrPending && e.ctl.pendingAddr == d.ctl.pendingAddr
            && e.ep0.ctrTx == d.ep0.ctrTx
            && e.ctl.rem == |Message(d)| - Chunk(|Message(d)|) && e.ctl.zlp == Resolved(d).zlp
            && Ep0Handler(d) == if d.ep0.ctrTx then Ep0Tx(e) else e
  {
    hide Resolve, Read, Ep0BeginIn, Ep0Tx, HandleSetup;
    MessageBounds(d);
    var e, r := d.(ep0 := d.ep0.(ctrRx := false)), Resolved(d);
    SetupIsExecuted(e);
    BeginChanges(Latched(e), r.src, r.len, r.zlp);
  }

  lemma {:induction false} BeginChanges(d: Dev, src: Source, len: nat, zlp: bool)
    ensures var e := Ep0BeginIn(d, src, len, zlp);
            && e.daddr == d.daddr && e.ctl.addrPending == d.ctl.addrPending && e.ctl.pendingAddr == d.ctl.pendingAddr
            && e.ep0.ctrTx == d.ep0.ctrTx && e.ep0.ctrRx == d.ep0.ctrRx
            && e.ctl.rem == len - Chunk(len) && e.ctl.zlp == zlp
  {
    hide Write, Behind, MemoryOf;
  }

  lemma {:induction false} TxAppliesAddress(d: Dev)
    ensures Ep0Tx(d).daddr ==
            if d.ctl.rem == 0 && !d.ctl.zlp && d.ctl.addrPending then DADDR_EF + d.ctl.pendingAddr else d.daddr
  {
    hide Write, Behind, MemoryOf;
  }

  /** Serving the SETUP changes the device address only by a stale completion, with nothing more to send. */
  lemma {:induction false} AddressWhenServed(d: Dev)
    requires AsksForData(d)
    ensures Ep0Handler(d).daddr ==
            if d.ep0.ctrTx && |Message(d)| <= EP0_MAX && !Resolved(d).zlp && d.ctl.addrPending
            then DADDR_EF + d.ctl.pendingAddr else d.daddr
  {
    RxKeepsAddress(d);
    TxAppliesAddress(Ep0Rx(d));
    hide Ep0Handler, Ep0Rx, Ep0Tx, Message, Resolved, AsksForData;
  }

  /**
   * A completion still pending when the SETUP is served is credited to the new transfer. The host gets a proper
   * answer, at the address it has asked, exactly if there was none, or the answer is a single packet and no other
   * address is pending: a pending address would take effect with the answer armed and not yet taken.
   */
  lemma {:induction false} StaleCompletionIff(d: Dev, noises: seq<seq<Ev>>)
    requires AsksForData(d) && AllElsewhere(noises)
    requires |noises| == |Packets(Message(d), Resolved(d).zlp)|
    ensures Taken(Ep0Handler(d), d.daddr, noises) == Packets(Message(d), Resolved(d).zlp) <==>
            !d.ep0.ctrTx || (|Message(d)| <= EP0_MAX && !Resolved(d).zlp
                             && (d.ctl.addrPending ==> DADDR_EF + d.ctl.pendingAddr == d.daddr))
  {
    MessageBounds(d);
    AddressWhenServed(d);
    hide Ep0Handler, Ep0Rx, Ep0Tx, Message, Resolved, Sound, Taken, Packets, InStage, Sent0;
    if !d.ep0.ctrTx {
      ControlRead(d, noises);
    } else if |Message(d)| > EP0_MAX || Resolved(d).zlp {
      StaleLosesFirst(d, noises);
    } else {
      OnlyPacket(Message(d));
      StaleSinglePacket(d, d.daddr, noises);
    }
  }

  lemma {:induction false} OnlyPacket(msg: seq<byte>)
    requires |msg| <= EP0_MAX
    ensures Packets(msg, false) == [msg]
  {
  }

  /** An answer of one packet is armed, for a host that speaks to the address then in force. */
  lemma {:induction false} StaleSinglePacket(d: Dev, addr: nat, noises: seq<seq<Ev>>)
    requires AsksForData(d) && d.ep0.ctrTx && AllElsewhere(noises) && |noises| == 1
    requires |Message(d)| <= EP0_MAX && !Resolved(d).zlp
    ensures Taken(Ep0Handler(d), addr, noises) == if Ep0Handler(d).daddr == addr then [Message(d)] else []
    ensures Packets(Message(d), false) == [Message(d)]
  {
    SoundScratch(d);
    MessageBounds(d);
    OnlyPacket(Message(d));
    WholeSlice(Message(d));
    hide Ep0Handler, Ep0Rx, Ep0Tx, Message, Resolved, Sound, Round, Sent0, Unstale, InStage;
    ServedSingle(d);
    NoiseKeepsPacket(Ep0Handler(d), noises[0]);
  }

  lemma {:induction false} WholeSlice(msg: seq<byte>)
    requires |msg| <= EP0_MAX
    ensures msg[..Chunk(|msg|)] == msg && msg[Chunk(|msg|)..] == []
  {
  }

  lemma {:induction false} ServedSingle(d: Dev)
    requires AsksForData(d) && d.ep0.ctrTx && |Message(d)| <= EP0_MAX && !Resolved(d).zlp
    ensures var e := Ep0Handler(d); Sound(e) && e.ep0.statTx.Valid? && Sent0(e) == Message(d)
  {
    SoundScratch(d);
    Ep0KeepsSound(d);
    SameAnswerUnstale(d);
    ServedUnstale(d);
    RxKeepsAddress(d);
    SetupStartsStage(Unstale(d));
    WholeSlice(Message(d));
    hide Ep0Handler, Ep0Rx, Ep0Tx, Message, Resolved, Sound, Sent0, InStage;
    SentUnstale(Ep0Rx(d));
    StaleAloneIsHarmless(Ep0Rx(d));
  }

  lemma {:induction false} SentUnstale(d: Dev)
    ensures Sent0(Unstale(d)) == Sent0(d)
  {
    hide Read;
  }

  lemma {:induction false} NoiseKeepsPacket(d: Dev, noise: seq<Ev>)
    requires Sound(d) && forall e :: e in noise ==> Elsewhere(e)
    ensures var f := RunOf(d, noise); Sound(f) && f.ep0 == d.ep0 && Sent0(f) == Sent0(d) && f.daddr == d.daddr
    decreases |noise|
  {
    if noise != [] {
      hide Apply, Sound;
      var n := |noise| - 1;
      assert noise[n] in noise;
      NoiseKeepsPacket(d, noise[..n]);
      ElsewhereKeepsControl(RunOf(d, noise[..n]), noise[n]);
    }
  }

  // ---- The memory behind a transfer ----

  /** While data is still to be sent, no OUT data stage is expected. */
  ghost predicate OneStage(d: Dev) { d.ctl.outData ==> d.ctl.rem == 0 }

  lemma {:induction false} RxKeepsOneStage(d: Dev)
    requires |d.ctl.strbuf| == SCRATCH && OneStage(d)
    ensures OneStage(Ep0Rx(d))
  {
    hide Write, Read, Resolve, HandleSetup, Execute;
    if d.ep0.setup {
      var e := d.(ep0 := d.ep0.(ctrRx := false));
      SetupIsExecuted(e);
      ExecuteKeepsOneStage(Latched(e), Resolved(e));
    }
  }

  lemma {:induction false} TxKeepsOneStage(d: Dev)
    requires OneStage(d)
    ensures OneStage(Ep0Tx(d))
  {
    hide Write, Behind;
  }

  lemma {:induction false} Serve0KeepsOneStage(d: Dev)
    requires |d.ctl.strbuf| == SCRATCH && OneStage(d)
    ensures OneStage(Ep0Handler(d))
  {
    hide Ep0Rx, Ep0Tx;
    if d.ep0.ctrRx { RxKeepsOneStage(d); }
    TxKeepsOneStage(if d.ep0.ctrRx then Ep0Rx(d) else d);
  }

  lemma {:induction false} ExecuteKeepsOneStage(d: Dev, r: Response)
    requires !d.ctl.outData && d.ctl.rem == 0
    ensures OneStage(Execute(d, r))
  {
    hide Write;
  }

  lemma {:induction false} ApplyKeepsOneStage(d: Dev, e: Ev)
    requires Sound(d) && OneStage(d)
    ensures OneStage(Apply(d, e))
  {
    hide Write, Read, Ep0Handler;
    if e.Serve0? { Serve0KeepsOneStage(d); }
  }

  lemma {:induction false} ReachableOneStage(desc: Descriptors, pma: Memory, evs: seq<Ev>)
    ensures var d := RunOf(PowerOn(desc, pma), evs); Sound(d) && OneStage(d)
    decreases |evs|
  {
    if evs == [] {
      PowerOnSound(desc, pma);
    } else {
      hide Apply, Sound, OneStage, PowerOn;
      ReachableOneStage(desc, pma, evs[..|evs| - 1]);
      var d := RunOf(PowerOn(desc, pma), evs[..|evs| - 1]);
      ApplyKeepsSound(d, evs[|evs| - 1]);
      ApplyKeepsOneStage(d, evs[|evs| - 1]);
    }
  }

  /** The event ends the transfer under way: a new SETUP or a bus reset is served. */
  predicate Abandons(d: Dev, e: Ev) {
    (e.Serve0? && d.ep0.ctrRx && d.ep0.setup) || (e.ServeReset? && d.resetPending)
  }

  /** The bytes behind the transfer of `d`, and where they end, are those of `f`. */
  predicate SameTransfer(d: Dev, f: Dev) {
    Mem(f) == Mem(d) && f.ctl.src == d.ctl.src && f.ctl.off + f.ctl.rem == d.ctl.off + d.ctl.rem
  }

  lemma {:induction false} RxKeepsMemory(d: Dev)
    requires |d.ctl.strbuf| == SCRATCH && OneStage(d) && d.ctl.rem > 0 && !d.ep0.setup
    ensures Ep0Rx(d).ctl == d.ctl && Ep0Rx(d).desc == d.desc
  {
    hide Write, Read, HandleSetup, Ep0SendStatus;
  }

  lemma {:induction false} TxKeepsMemory(d: Dev)
    requires d.ctl.rem > 0
    ensures SameTransfer(d, Ep0Tx(d))
  {
    hide Write, Behind;
  }

  lemma {:induction false} StepKeepsMemory(d: Dev, e: Ev)
    requires Sound(d) && OneStage(d) && d.ctl.rem > 0 && !Abandons(d, e)
    ensures SameTransfer(d, Apply(d, e))
  {
    if e.Serve0? {
      assert |d.ctl.strbuf| == SCRATCH;
      hide Ep0Rx, Ep0Tx, Sound;
      if d.ep0.ctrRx { RxKeepsMemory(d); }
      TxKeepsMemory(if d.ep0.ctrRx then Ep0Rx(d) else d);
    } else {
      hide Write, Read, Ep0Handler, Sound;
    }
  }

  /** Every event of `evs` comes while data is still to be copied, and none abandons the transfer. */
  predicate DuringTransfer(d: Dev, evs: seq<Ev>) {
    evs != [] ==>
      var c := RunOf(d, evs[..|evs| - 1]);
      DuringTransfer(d, evs[..|evs| - 1]) && c.ctl.rem > 0 && !Abandons(c, evs[|evs| - 1])
  }

  lemma {:induction false} RunKeepsMemory(d: Dev, evs: seq<Ev>)
    requires Sound(d) && OneStage(d) && DuringTransfer(d, evs)
    ensures var f := RunOf(d, evs);
            Sound(f) && OneStage(f) && SameTransfer(d, f)
    decreases |evs|
  {
    if evs != [] {
      hide Apply, Sound, OneStage, Abandons;
      var n := |evs| - 1;
      RunKeepsMemory(d, evs[..n]);
      var c := RunOf(d, evs[..n]);
      ApplyKeepsSound(c, evs[n]);
      ApplyKeepsOneStage(c, evs[n]);
      StepKeepsMemory(c, evs[n]);
    }
  }

  /**
   * From any reachable state, whatever happens while data of a transfer is still to be copied, the bytes behind it
   * and what they are sent for stay the same up to and including the copy of the last packet, unless a new SETUP or a
   * bus reset is served.
   */
  lemma {:induction false} MemoryBehindTransferKept(desc: Descriptors, pma: Memory, before: seq<Ev>, during: seq<Ev>)
    requires DuringTransfer(RunOf(PowerOn(desc, pma), before), during)
    ensures var d := RunOf(PowerOn(desc, pma), before);
            var f := RunOf(d, during);
            Mem(f) == Mem(d) && f.ctl.src == d.ctl.src && f.ctl.off + f.ctl.rem == d.ctl.off + d.ctl.rem
  {
    hide Sound, OneStage, PowerOn, Apply;
    ReachableOneStage(desc, pma, before);
    RunKeepsMemory(RunOf(PowerOn(desc, pma), before), during);
  }
}
