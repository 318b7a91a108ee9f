/** Bulk IN: when a packet is in flight, when its buffer may be rewritten, and what the host receives. */
module UsbInFlight {
  import opened Bytes
  import opened EpReg
  import opened Pma
  import opened UsbCtrl
  import opened UsbDevice

  // ---- The buffer of a packet in flight ----

  /**
   * While the driver believes EP1 idle, no packet is armed and no completion is pending; and a pending completion
   * is that of a packet no longer armed.
   */
  ghost predicate Idle1(d: Dev) {
    && (d.configured && !d.busy ==> !d.ep1.statTx.Valid? && !d.ep1.ctrTx)
    && (d.ep1.ctrTx ==> !d.ep1.statTx.Valid?)
  }

  /** The device beside EP0 is the same. */
  predicate SameEp1(d: Dev, e: Dev) {
    && e.ep1 == d.ep1 && e.ep2 == d.ep2 && e.busy == d.busy && e.configured == d.configured && e.fifo == d.fifo
    && e.tx1 == d.tx1
    && e.resetPending == d.resetPending
  }

  lemma {:induction false} ContinueAndEp1(d: Dev)
    ensures SameEp1(d, Ep0InContinue(d))
  {
    hide Write;
  }

  lemma {:induction false} ExecuteAndEp1(d: Dev, r: Response)
    ensures SameEp1(if r.StatusStage? && r.setConfig >= 0 then ApplyConfig(d, r.setConfig) else d, Execute(d, r))
  {
    hide Write;
  }

  /** What the EP0 handler does to EP1: nothing, or one SET_CONFIGURATION. */
  function ConfigOf(d: Dev): int
    requires |d.ctl.strbuf| == SCRATCH
  {
    if !d.ep0.ctrRx || !d.ep0.setup then -1
    else
      var r := Resolve(Read(d.pma, EP0_RX, 8), d.configured, d.desc, d.ctl.strbuf).r;
      if r.StatusStage? then r.setConfig else -1
  }

  /** The device as the SETUP handler starts executing its resolution. */
  function Latched(d: Dev): Dev
    requires |d.ctl.strbuf| == SCRATCH
  {
    var s := Read(d.pma, EP0_RX, 8);
    d.(ctl := d.ctl.(setup := s, src := Nowhere, off := 0, rem := 0, zlp := false, outData := false,
                     strbuf := Resolve(s, d.configured, d.desc, d.ctl.strbuf).scratch))
  }

  function Resolved(d: Dev): Response
    requires |d.ctl.strbuf| == SCRATCH
  {
    Resolve(Read(d.pma, EP0_RX, 8), d.configured, d.desc, d.ctl.strbuf).r
  }

  lemma {:induction false} SetupIsExecuted(d: Dev)
    requires |d.ctl.strbuf| == SCRATCH
    ensures HandleSetup(d) == Execute(Latched(d), Resolved(d))
  {
    hide Read, Resolve, Execute;
  }

  lemma {:induction false} RxAndEp1(d: Dev)
    requires |d.ctl.strbuf| == SCRATCH && d.ep0.ctrRx
    ensures SameEp1(if ConfigOf(d) >= 0 then ApplyConfig(d, ConfigOf(d)) else d, Ep0Rx(d))
  {
    hide Write, Read, Resolve, Execute, HandleSetup;
    if d.ep0.setup {
      var e := d.(ep0 := d.ep0.(ctrRx := false));
      SetupIsExecuted(e);
      ExecuteAndEp1(Latched(e), Resolved(e));
    }
  }

  /** EP0 traffic reaches EP1 only through SET_CONFIGURATION. */
  lemma {:induction false} Ep0AndEp1(d: Dev)
    requires |d.ctl.strbuf| == SCRATCH
    ensures SameEp1(if ConfigOf(d) >= 0 then ApplyConfig(d, ConfigOf(d)) else d, Ep0Handler(d))
  {
    hide Write, Read, Resolve, Ep0Rx, Ep0InContinue;
    if d.ep0.ctrRx { RxAndEp1(d); }
    var e := if d.ep0.ctrRx then Ep0Rx(d) else d;
    ContinueAndEp1(e.(ep0 := e.ep0.(ctrTx := false)));
  }

  // ---- Watching a run ----

  /**
   * A device with what an observer of EP1 knows: the bytes popped and the bytes received since the last
   * cancellation, and whether a packet was armed under an unserved bus reset and EP1 not disabled or configured since.
   */
  datatype Watch = Watch(d: Dev, popped: seq<byte>, got: seq<byte>, raced: bool)

  /** The bus or the host throws away whatever is in flight. */
  predicate Cancels(d: Dev, e: Ev) {
    match e
    case EvReset => true
    case ServeReset => d.resetPending
    case Serve0 => |d.ctl.strbuf| == SCRATCH && ConfigOf(d) >= 0
    case _ => false
  }

  function See(w: Watch, e: Ev): Watch {
    var d := Apply(w.d, e);
    if Cancels(w.d, e) then Watch(d, [], [], w.raced && e.ServeReset?)
    else if e.EvPoll? && Arms(w.d) then Watch(d, w.popped + Packet(w.d), w.got, w.raced || w.d.resetPending)
    else if e.EvIn1? && w.d.ep1.statTx.Valid? then Watch(d, w.popped, w.got + Sent1(w.d), w.raced)
    else w.(d := d)
  }

  function Observe(w: Watch, evs: seq<Ev>): Watch {
    if evs == [] then w else See(Observe(w, evs[..|evs| - 1]), evs[|evs| - 1])
  }

  ghost predicate Delivering(w: Watch) {
    && (w.d.ep1.statTx.Valid? ==> w.d.configured && w.d.busy && !w.d.resetPending && 1 <= w.d.tx1)
    && w.popped == w.got + if w.d.ep1.statTx.Valid? then Sent1(w.d) else []
  }

  ghost predicate WatchInv(w: Watch) {
    && Sound(w.d) && Idle1(w.d)
    && (!w.raced ==> Delivering(w))
  }

  lemma {:induction false} ContinueWritesInside(d: Dev)
    ensures OnlyIn(d.pma, Ep0InContinue(d).pma, EP0_TX)
  {
    WriteStaysInside(d.pma, EP0_TX, Behind(Mem(d), d.ctl.off, Chunk(d.ctl.rem)));
    hide Write;
  }

  lemma {:induction false} NothingWritten(m: Memory, off: nat)
    ensures OnlyIn(m, m, off)
  {
  }

  lemma {:induction false} WritesCompose(a: Memory, b: Memory, c: Memory, off: nat)
    requires OnlyIn(a, b, off) && OnlyIn(b, c, off)
    ensures OnlyIn(a, c, off)
  {
  }

  lemma {:induction false} ExecuteWritesInside(d: Dev, r: Response)
    ensures OnlyIn(d.pma, Execute(d, r).pma, EP0_TX)
  {
    hide Write, OnlyIn, Ep0InContinue;
    NothingWritten(d.pma, EP0_TX);
    if r.TxData? {
      ContinueWritesInside(d.(ctl := d.ctl.(src := r.src, off := 0, rem := r.len, zlp := r.zlp)));
    }
  }

  lemma {:induction false} RxWritesInside(d: Dev)
    requires |d.ctl.strbuf| == SCRATCH
    ensures OnlyIn(d.pma, Ep0Rx(d).pma, EP0_TX)
  {
    hide Write, Read, Resolve, OnlyIn, HandleSetup, Execute;
    NothingWritten(d.pma, EP0_TX);
    if d.ep0.setup {
      var c := d.(ep0 := d.ep0.(ctrRx := false));
      SetupIsExecuted(c);
      ExecuteWritesInside(Latched(c), Resolved(c));
    }
  }

  lemma {:induction false} TxWritesInside(d: Dev)
    ensures OnlyIn(d.pma, Ep0Tx(d).pma, EP0_TX)
  {
    hide Write, OnlyIn, Ep0InContinue;
    NothingWritten(d.pma, EP0_TX);
    ContinueWritesInside(d.(ep0 := d.ep0.(ctrTx := false)));
  }

  /** All the EP0 handler ever writes is the EP0 transmit buffer. */
  lemma {:induction false} Ep0WritesInside(d: Dev)
    requires |d.ctl.strbuf| == SCRATCH
    ensures OnlyIn(d.pma, Ep0Handler(d).pma, EP0_TX)
  {
    hide OnlyIn, Ep0Rx, Ep0Tx;
    NothingWritten(d.pma, EP0_TX);
    if d.ep0.ctrRx { RxWritesInside(d); }
    var e := if d.ep0.ctrRx then Ep0Rx(d) else d;
    TxWritesInside(e);
    WritesCompose(d.pma, e.pma, Ep0Tx(e).pma, EP0_TX);
  }

  /**
   * As long as an armed packet stays armed, nothing changes what the host will receive: no handler, no bus event and
   * no main-loop call writes its buffer or its count.
   */
  lemma {:induction false} ArmedPacketIsKept(d: Dev, e: Ev)
    requires Sound(d) && Idle1(d) && d.ep1.statTx.Valid? && Apply(d, e).ep1.statTx.Valid?
    ensures Sent1(Apply(d, e)) == Sent1(d)
  {
    hide Write, Read, Ep0Handler;
    match e
    case EvSetup(s) =>
      WriteStaysInside(d.pma, EP0_RX, s);
      ReadElsewhere(d.pma, Write(d.pma, EP0_RX, s), EP0_RX, EP1_TX, d.tx1);
    case EvOut(data) =>
      WriteStaysInside(d.pma, EP0_RX, data);
      ReadElsewhere(d.pma, Write(d.pma, EP0_RX, data), EP0_RX, EP1_TX, d.tx1);
    case EvBulkOut(data) =>
      WriteStaysInside(d.pma, EP1_RX, data);
      ReadElsewhere(d.pma, Write(d.pma, EP1_RX, data), EP1_RX, EP1_TX, d.tx1);
    case Serve0 =>
      Ep0AndEp1(d);
      Ep0WritesInside(d);
      ReadElsewhere(d.pma, Ep0Handler(d).pma, EP0_TX, EP1_TX, d.tx1);
    case _ =>
  }

  lemma {:induction false} ApplyKeepsIdle1(d: Dev, e: Ev)
    requires Sound(d) && Idle1(d)
    ensures Idle1(Apply(d, e))
  {
    hide Write, Read, Ep0Handler;
    if e.Serve0? { Ep0AndEp1(d); }
  }

  lemma {:induction false} PollDelivers(w: Watch)
    requires WatchInv(w) && Arms(w.d)
    ensures !See(w, EvPoll).raced ==> Delivering(See(w, EvPoll))
  {
    hide Write, Read, Sound;
    ReadWritten(w.d.pma, EP1_TX, Packet(w.d));
    assert w.popped == w.got || w.raced;
    PollArms(w.d);
    hide CdcPoll, Packet, Sent1;
  }

  lemma {:induction false} PollArms(d: Dev)
    requires Arms(d)
    ensures var e := CdcPoll(d);
            && Sent1(e) == Packet(d) && e.tx1 == |Packet(d)| && 1 <= e.tx1 && e.ep1.statTx.Valid?
            && e.configured && e.busy && e.resetPending == d.resetPending
  {
    hide Write, Read;
    ReadWritten(d.pma, EP1_TX, Packet(d));
  }

  lemma {:induction false} SeeKeepsInv(w: Watch, e: Ev)
    requires WatchInv(w)
    ensures WatchInv(See(w, e))
  {
    hide Write, Read, Ep0Handler, Sound;
    ApplyKeepsSound(w.d, e);
    ApplyKeepsIdle1(w.d, e);
    if e.EvPoll? && Arms(w.d) {
      PollDelivers(w);
    } else if w.d.ep1.statTx.Valid? && Apply(w.d, e).ep1.statTx.Valid? {
      ArmedPacketIsKept(w.d, e);
    }
    if e.Serve0? {
      SoundScratch(w.d);
      Ep0AndEp1(w.d);
    }
  }

  lemma {:induction false} SoundScratch(d: Dev)
    requires Sound(d)
    ensures |d.ctl.strbuf| == SCRATCH
  {
  }

  lemma {:induction false} ObserveKeepsInv(w: Watch, evs: seq<Ev>)
    requires WatchInv(w)
    ensures WatchInv(Observe(w, evs))
    decreases |evs|
  {
    if evs != [] {
      hide WatchInv, See;
      ObserveKeepsInv(w, evs[..|evs| - 1]);
      SeeKeepsInv(Observe(w, evs[..|evs| - 1]), evs[|evs| - 1]);
    }
  }

  function Start(desc: Descriptors, pma: Memory): Watch { Watch(PowerOn(desc, pma), [], [], false) }

  lemma {:induction false} StartInv(desc: Descriptors, pma: Memory)
    ensures WatchInv(Start(desc, pma))
  {
  }

  // ---- Theorems ----

  /**
   * The IN buffer is never rewritten while a packet is in flight: in every reachable state, whatever happens next,
   * a packet that stays armed stays the same, and a poll that writes finds no packet armed.
   */
  lemma {:induction false} BufferSafeInFlight(desc: Descriptors, pma: Memory, evs: seq<Ev>, e: Ev)
    ensures var d := Observe(Start(desc, pma), evs).d;
            && (d.ep1.statTx.Valid? && Apply(d, e).ep1.statTx.Valid? ==> Sent1(Apply(d, e)) == Sent1(d))
            && (Arms(d) ==> !d.ep1.statTx.Valid? && !d.ep1.ctrTx)
  {
    StartInv(desc, pma);
    ObserveKeepsInv(Start(desc, pma), evs);
    hide Sound, Apply, Sent1;
    var d := Observe(Start(desc, pma), evs).d;
    if d.ep1.statTx.Valid? && Apply(d, e).ep1.statTx.Valid? { ArmedPacketIsKept(d, e); }
  }

  /**
   * Between cancellations the host receives exactly the popped bytes, in order, one armed packet of 1 to 64 bytes
   * behind at most; and an armed packet means configured and busy. Both need that no packet was armed under an
   * unserved bus reset.
   */
  lemma {:induction false} HostReceivesWhatIsPopped(desc: Descriptors, pma: Memory, evs: seq<Ev>)
    requires !Observe(Start(desc, pma), evs).raced
    ensures var w := Observe(Start(desc, pma), evs);
            && w.popped == w.got + (if w.d.ep1.statTx.Valid? then Sent1(w.d) else [])
            && (w.d.ep1.statTx.Valid? ==> w.d.configured && w.d.busy && 1 <= |Sent1(w.d)| <= 64)
  {
    StartInv(desc, pma);
    ObserveKeepsInv(Start(desc, pma), evs);
    hide Read;
  }

  ghost predicate ValidMeansBusy(d: Dev) { d.ep1.statTx.Valid? ==> d.configured && d.busy }

  /**
   * A bus reset that comes just before a poll: once it is served, EP1 is VALID although the device is neither
   * configured nor busy, exactly if the poll had something to arm.
   */
  lemma {:induction false} PollUnderResetIff(w: Watch)
    requires WatchInv(w) && !w.raced && w.d.resetPending
    ensures ValidMeansBusy(Apply(Apply(w.d, EvPoll), ServeReset)) <==> !Arms(w.d)
  {
    hide Write, Read;
  }

  // ---- Progress ----

  /** The main loop polls, the host takes the packet, the interrupt serves the completion. */
  const ROUND: seq<Ev> := [EvPoll, EvIn1, Serve1]

  function Rounds(n: nat): seq<Ev> { if n == 0 then [] else ROUND + Rounds(n - 1) }

  lemma {:induction false} ObserveRound(w: Watch, evs: seq<Ev>)
    ensures Observe(w, ROUND + evs) == Observe(See(See(See(w, EvPoll), EvIn1), Serve1), evs)
    decreases |evs|
  {
    hide See;
    if evs == [] {
      assert ROUND + evs == [EvPoll] + [EvIn1] + [Serve1] && [EvPoll] == [] + [EvPoll];
      ObserveNext(w, [], EvPoll);
      ObserveNext(w, [] + [EvPoll], EvIn1);
      ObserveNext(w, [EvPoll] + [EvIn1], Serve1);
    } else {
      var n := |evs| - 1;
      ObserveRound(w, evs[..n]);
      assert (ROUND + evs)[..|ROUND + evs| - 1] == ROUND + evs[..n];
    }
  }

  /** Ready to send: configured, nothing in flight, no bus reset waiting. */
  ghost predicate Ready(w: Watch) { WatchInv(w) && !w.raced && w.d.configured && !w.d.busy && !w.d.resetPending }

  lemma {:induction false} RoundDelivers(w: Watch)
    requires Ready(w) && w.d.fifo != []
    ensures var v := See(See(See(w, EvPoll), EvIn1), Serve1);
            && Ready(v) && v.d.fifo == w.d.fifo[|Packet(w.d)|..] && v.got == w.got + Packet(w.d)
  {
    var a := See(w, EvPoll);
    SeeKeepsInv(w, EvPoll);
    SeeKeepsInv(a, EvIn1);
    SeeKeepsInv(See(a, EvIn1), Serve1);
    hide Sound, Write, Read;
    assert a.popped == w.got + Packet(w.d) == w.got + Sent1(a.d);
    assert a.popped[|w.got|..] == Packet(w.d) == Sent1(a.d);
  }

  /** ceil(length / 64) */
  function PacketsFor(length: nat): nat { (length + 63) / 64 }

  lemma {:induction false} OnePacketLess(d: Dev)
    requires d.fifo != []
    ensures PacketsFor(|d.fifo|) == PacketsFor(|d.fifo[|Packet(d)|..]|) + 1
    ensures Packet(d) != [] && d.fifo == Packet(d) + d.fifo[|Packet(d)|..]
  {
  }

  /** A host that keeps taking packets empties the FIFO, in ceil(length / 64) of them, and has every byte of it. */
  lemma {:induction false} FifoDrains(w: Watch)
    requires Ready(w)
    ensures var v := Observe(w, Rounds(PacketsFor(|w.d.fifo|)));
            Ready(v) && v.d.fifo == [] && v.got == w.got + w.d.fifo
    decreases |w.d.fifo|
  {
    hide Ready, See, Observe, Packet;
    if w.d.fifo == [] {
      NothingSeen(w);
    } else {
      hide PacketsFor;
      RoundDelivers(w);
      OnePacketLess(w.d);
      var v := See(See(See(w, EvPoll), EvIn1), Serve1);
      ObserveRound(w, Rounds(PacketsFor(|v.d.fifo|)));
      FifoDrains(v);
    }
  }

  lemma {:induction false} NothingSeen(w: Watch)
    ensures Observe(w, []) == w
  {
  }

  /** A configured device can take the next bulk OUT packet, or has one to serve. */
  ghost predicate BulkOutReady(d: Dev) {
    d.configured && !d.resetPending ==> d.ep1.statRx.Valid? || d.ep1.ctrRx
  }

  lemma {:induction false} ApplyKeepsBulkOutReady(d: Dev, e: Ev)
    requires Sound(d) && BulkOutReady(d)
    ensures BulkOutReady(Apply(d, e))
  {
    hide Write, Read, Ep0Handler;
    if e.Serve0? { Ep0AndEp1(d); }
  }

  /** So it is in every reachable state: bulk OUT is re-armed after each packet. */
  lemma {:induction false} BulkOutNeverStuck(desc: Descriptors, pma: Memory, evs: seq<Ev>)
    ensures var d := RunOf(PowerOn(desc, pma), evs); Sound(d) && BulkOutReady(d)
    decreases |evs|
  {
    if evs == [] {
      PowerOnSound(desc, pma);
    } else {
      hide Apply, Sound, BulkOutReady, PowerOn;
      BulkOutNeverStuck(desc, pma, evs[..|evs| - 1]);
      var d := RunOf(PowerOn(desc, pma), evs[..|evs| - 1]);
      ApplyKeepsSound(d, evs[|evs| - 1]);
      ApplyKeepsBulkOutReady(d, evs[|evs| - 1]);
    }
  }

  /** A device that is not configured takes no bulk OUT packet. */
  ghost predicate OutClosed(d: Dev) { !d.configured ==> !d.ep1.statRx.Valid? }

  /**
   * Which events open bulk OUT on a device that is not configured, over all of them: exactly the service of an OUT
   * completion that has outlived the configuration, and that of a bus reset if EP1 has been made valid meanwhile.
   */
  lemma {:induction false} OutClosedIff(d: Dev, e: Ev)
    requires Sound(d) && OutClosed(d)
    ensures OutClosed(Apply(d, e)) <==>
            !((e.Serve1? && !d.configured && d.ep1.ctrRx)
              || (e.ServeReset? && d.resetPending && d.ep1.statRx.Valid?))
  {
    hide Write, Read, Ep0Handler, Sound;
    if e.Serve0? {
      SoundScratch(d);
      Ep0AndEp1(d);
    }
  }

  // ---- The race is real ----

  const SET_CONFIGURATION_1: Setup := [0x00, 0x09, 0x01, 0x00, 0x00, 0x00, 0x00, 0x00]

  lemma {:induction false} ObserveNext(w: Watch, evs: seq<Ev>, e: Ev)
    ensures Observe(w, evs + [e]) == See(Observe(w, evs), e)
  {
    assert (evs + [e])[..|evs|] == evs;
    hide See;
  }

  lemma {:induction false} ResolvesToConfiguration(d: Dev)
    requires |d.ctl.strbuf| == SCRATCH
    ensures Resolve(SET_CONFIGURATION_1, d.configured, d.desc, d.ctl.strbuf).r == StatusStage(-1, 1)
  {
    var s := SET_CONFIGURATION_1;
    assert IntOf(Kind(s)) == 0 && IntOf(Recipient(s)) == 0 && !DirIn(s) && IntOf(s[1]) == 9;
    assert WValue(s) == 1 && WIndex(s) == 0 && WLength(s) == 0;
  }

  /** Serving a SET_CONFIGURATION(1) that has just arrived configures the device and idles EP1. */
  lemma {:induction false} Configures(d: Dev)
    requires Sound(d) && !d.ep0.statRx.Disabled?
    ensures var e := Apply(Apply(d, EvSetup(SET_CONFIGURATION_1)), Serve0);
            e.configured && !e.busy && e.fifo == d.fifo
  {
    var s := SET_CONFIGURATION_1;
    SoundScratch(d);
    hide Write, Read, Resolve, Ep0Handler, Sound;
    ReadWritten(d.pma, EP0_RX, s);
    var c := d.(pma := Write(d.pma, EP0_RX, s), rx0 := 8,
                ep0 := d.ep0.(ctrRx := true, setup := true, statRx := Nak, statTx := Nak));
    ResolvesToConfiguration(c);
    assert ConfigOf(c) == 1;
    Ep0AndEp1(c);
    hide ConfigOf;
  }

  /** A run that leaves EP1 VALID on a device that is neither configured nor busy. */
  lemma {:induction false} RaceHappens(desc: Descriptors, pma: Memory) returns (evs: seq<Ev>)
    ensures !ValidMeansBusy(Observe(Start(desc, pma), evs).d)
  {
    var w := Start(desc, pma);
    evs := [];
    ObserveNext(w, evs, EvReset);
    evs := evs + [EvReset];
    ObserveNext(w, evs, ServeReset);
    evs := evs + [ServeReset];
    StartInv(desc, pma);
    ObserveKeepsInv(w, evs);
    var d := Observe(w, evs).d;
    assert d.fifo == [] && !d.ep0.statRx.Disabled?;
    Configures(d);
    hide See, Apply, Ep0Handler, Observe, Sound;
    ObserveNext(w, evs, EvSetup(SET_CONFIGURATION_1));
    evs := evs + [EvSetup(SET_CONFIGURATION_1)];
    ObserveNext(w, evs, Serve0);
    evs := evs + [Serve0];
    SeeApplies(Observe(w, evs[..3]), Serve0);
    RaceFrom(w, evs);
    evs := evs + [EvWrite([0x2A]), EvReset, EvPoll, ServeReset];
  }

  lemma {:induction false} SeeApplies(w: Watch, e: Ev)
    ensures See(w, e).d == Apply(w.d, e)
  {
  }

  lemma {:induction false} RaceFrom(w: Watch, evs: seq<Ev>)
    requires var d := Observe(w, evs).d; d.configured && !d.busy && d.fifo == []
    ensures !ValidMeansBusy(Observe(w, evs + [EvWrite([0x2A]), EvReset, EvPoll, ServeReset]).d)
  {
    hide Write, Observe;
    ObserveNext(w, evs, EvWrite([0x2A]));
    ObserveNext(w, evs + [EvWrite([0x2A])], EvReset);
    ObserveNext(w, evs + [EvWrite([0x2A])] + [EvReset], EvPoll);
    ObserveNext(w, evs + [EvWrite([0x2A])] + [EvReset] + [EvPoll], ServeReset);
    assert evs + [EvWrite([0x2A])] + [EvReset] + [EvPoll] + [ServeReset]
        == evs + [EvWrite([0x2A]), EvReset, EvPoll, ServeReset];
  }
}
