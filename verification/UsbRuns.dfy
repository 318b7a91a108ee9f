/**
 * Device state over whole runs in which the driver serves each bus event before the next one happens, against a
 * reference that knows the requests only as the packets of USB 2.0 and of the CDC specification.
 */
module UsbRuns {
  import opened Bytes
  import opened EpReg
  import opened Pma
  import opened UsbCtrl
  import opened UsbDevice
  import opened UsbInFlight
  import opened UsbControl

  datatype Bus = Reset | SetupPacket(s: Setup) | OutPacket(data: Small) | InPacket | Aside(e: Ev)

  function Serve(d: Dev, b: Bus): Dev {
    match b
    case Reset => Apply(Apply(d, EvReset), ServeReset)
    case SetupPacket(s) => Apply(Apply(d, EvSetup(s)), Serve0)
    case OutPacket(data) => Apply(Apply(d, EvOut(data)), Serve0)
    case InPacket => Apply(Apply(d, EvIn0), Serve0)
    case Aside(e) => if Elsewhere(e) then Apply(d, e) else d
  }

  function ServeAll(d: Dev, bs: seq<Bus>): Dev {
    if bs == [] then d else Serve(ServeAll(d, bs[..|bs| - 1]), bs[|bs| - 1])
  }

  // ---- The requests, as packets ----

  function SetAddress(v: byte): Setup { [0x00, 0x05, v, 0x00, 0x00, 0x00, 0x00, 0x00] }
  function SetConfiguration(v: byte): Setup { [0x00, 0x09, v, 0x00, 0x00, 0x00, 0x00, 0x00] }
  const GET_CONFIGURATION: Setup := [0x80, 0x08, 0x00, 0x00, 0x00, 0x00, 0x01, 0x00]
  const SET_LINE_CODING: Setup := [0x21, 0x20, 0x00, 0x00, 0x00, 0x00, 0x07, 0x00]
  const GET_LINE_CODING: Setup := [0xA1, 0x21, 0x00, 0x00, 0x00, 0x00, 0x07, 0x00]

  /** Section 9.4.6 of USB 2.0: an address of 0 to 127 and nothing else in the packet. */
  predicate AcceptsAddress(s: Setup) { s == SetAddress(s[2]) && IntOf(s[2]) <= 127 }

  predicate AcceptsConfiguration(s: Setup) { s == SetConfiguration(s[2]) && IntOf(s[2]) <= 1 }

  lemma {:induction false} RequestByte(b: byte)
    ensures b & 0x80 == 0 && b & 0x60 == 0 && b & 0x1F == 0 <==> b == 0x00
    ensures b & 0x80 == 0 && b & 0x60 == 0x20 && b & 0x1F == 0x01 <==> b == 0x21
  {
  }

  lemma {:induction false} SmallValues(b: byte)
    ensures IntOf(b) == 0 <==> b == 0x00
    ensures IntOf(b) == 1 <==> b == 0x01
    ensures IntOf(b) == 5 <==> b == 0x05
    ensures IntOf(b) == 7 <==> b == 0x07
    ensures IntOf(b) == 9 <==> b == 0x09
    ensures IntOf(b) == 0x20 <==> b == 0x20
  {
    ByteOfIntOf(b);
  }

  lemma {:induction false} SetupBytes(s: Setup)
    ensures s == [s[0], s[1], s[2], s[3], s[4], s[5], s[6], s[7]]
  {
  }

  lemma {:induction false} Words(lo: byte, hi: byte)
    ensures Word(lo, hi) == 0 <==> lo == 0 && hi == 0
    ensures Word(lo, hi) == 7 <==> lo == 7 && hi == 0
    ensures Word(lo, hi) <= 255 <==> hi == 0
    ensures hi == 0 ==> Word(lo, hi) == IntOf(lo)
  {
    SmallValues(lo);
    SmallValues(hi);
    hide IntOf;
  }

  /** The conditions on a host-to-device request to the device itself, without data. */
  predicate PlainRequest(s: Setup, request: int) {
    IntOf(s[1]) == request && !DirIn(s) && IntOf(Recipient(s)) == 0 && WIndex(s) == 0 && WLength(s) == 0
  }

  lemma {:induction false} DataOnly(s: Setup, d: Descriptors, scratch: seq<byte>)
    requires |scratch| == SCRATCH
    ensures var r := GetDescriptor(s, d, scratch).r; r.TxData? || r.Stall?
    ensures var r := GetStatus(s, scratch).r; r.TxData? || r.Stall?
    ensures var r := Feature(s, scratch).r; r.Stall? || r == StatusStage(-1, -1)
  {
    hide IntOf, Word, Recipient, DirIn, ValidEndpoint, Fill;
  }

  lemma {:induction false} StandardAnswers(s: Setup, configured: bool, d: Descriptors, scratch: seq<byte>)
    requires |scratch| == SCRATCH
    ensures var r := Standard(s, configured, d, scratch).r;
            && !r.ExpectOut?
            && (r.StatusStage? && r.setAddress >= 0 <==> PlainRequest(s, 5) && WValue(s) <= 0x7F)
            && (r.StatusStage? && r.setAddress >= 0 ==> r == StatusStage(WValue(s), -1))
            && (r.StatusStage? && r.setConfig >= 0 <==> PlainRequest(s, 9) && WValue(s) <= 1)
            && (r.StatusStage? && r.setConfig >= 0 ==> r == StatusStage(-1, WValue(s)))
  {
    hide IntOf, Word, Recipient, DirIn, GetDescriptor, GetStatus, Feature, Fill;
    DataOnly(s, d, scratch);
  }

  lemma {:induction false} ClassAnswers(s: Setup)
    ensures var r := ClassRequest(s);
            && (r.StatusStage? ==> r == StatusStage(-1, -1))
            && (r.ExpectOut? <==> IntOf(Recipient(s)) == 1 && WIndex(s) == 0 && IntOf(s[1]) == 0x20 && !DirIn(s)
                                  && WValue(s) == 0 && WLength(s) == LINE_LEN)
  {
    hide IntOf, Word, Recipient, DirIn;
  }

  /** The numbers of a plain standard request, byte by byte. */
  lemma {:induction false} PlainBytes(s: Setup, request: int)
    requires request == 5 || request == 9
    ensures IntOf(Kind(s)) == 0x00 && PlainRequest(s, request) && WValue(s) <= 255 <==>
            s == [0x00, if request == 5 then 0x05 else 0x09, s[2], 0x00, 0x00, 0x00, 0x00, 0x00]
  {
    RequestByte(s[0]);
    SmallValues(s[1]);
    SmallValues(Kind(s));
    SmallValues(Recipient(s));
    Words(s[2], s[3]);
    Words(s[4], s[5]);
    Words(s[6], s[7]);
    SetupBytes(s);
    hide IntOf, Word;
  }

  lemma {:induction false} LineBytes(s: Setup)
    ensures s == SET_LINE_CODING <==>
            IntOf(Kind(s)) == 0x20 && IntOf(Recipient(s)) == 1 && WIndex(s) == 0 && IntOf(s[1]) == 0x20 && !DirIn(s)
            && WValue(s) == 0 && WLength(s) == LINE_LEN
  {
    RequestByte(s[0]);
    SmallValues(s[1]);
    SmallValues(Kind(s));
    SmallValues(Recipient(s));
    Words(s[2], s[3]);
    Words(s[4], s[5]);
    Words(s[6], s[7]);
    SetupBytes(s);
    hide IntOf, Word;
  }

  /** The resolver accepts exactly these packets as SET_ADDRESS and SET_CONFIGURATION, and for SET_LINE_CODING. */
  lemma {:induction false} AcceptedPackets(s: Setup, configured: bool, d: Descriptors, scratch: seq<byte>)
    requires |scratch| == SCRATCH
    ensures var r := Resolve(s, configured, d, scratch).r;
            && (r.StatusStage? && r.setAddress >= 0 <==> AcceptsAddress(s))
            && (r.StatusStage? && r.setAddress >= 0 ==> r.setAddress == IntOf(s[2]) && r.setConfig == -1)
            && (r.StatusStage? && r.setConfig >= 0 <==> AcceptsConfiguration(s))
            && (r.StatusStage? && r.setConfig >= 0 ==> r.setConfig == IntOf(s[2]) && r.setAddress == -1)
            && (r.ExpectOut? <==> s == SET_LINE_CODING)
  {
    hide Standard, ClassRequest, PlainRequest, Word, IntOf, Kind, Recipient, DirIn;
    StandardAnswers(s, configured, d, scratch);
    ClassAnswers(s);
    PlainBytes(s, 5);
    PlainBytes(s, 9);
    LineBytes(s);
    Words(s[2], s[3]);
  }

  // ---- The reference ----

  /**
   * What the specifications say of a device, from the bus alone: configuration, line coding, whether an OUT data stage
   * is due and the last address accepted since the reset.
   */
  datatype Spec = Spec(up: bool, config: int, line: seq<byte>, expects: bool, address: int, setup: Setup)

  const BLANK := Spec(false, 0, LINE_DEFAULT, false, -1, [0, 0, 0, 0, 0, 0, 0, 0])

  function Follow(t: Spec, b: Bus): Spec {
    match b
    case Reset => BLANK.(up := true, setup := t.setup)
    case SetupPacket(s) =>
      if !t.up then t
      else
        t.(setup := s, expects := s == SET_LINE_CODING,
           config := if AcceptsConfiguration(s) then IntOf(s[2]) else t.config,
           address := if AcceptsAddress(s) then IntOf(s[2]) else t.address)
    case OutPacket(data) =>
      if !t.expects then t
      else t.(expects := false, line := if |data| >= LINE_LEN then data[..LINE_LEN] else t.line)
    case _ => t
  }

  function FollowAll(bs: seq<Bus>): Spec {
    if bs == [] then BLANK else Follow(FollowAll(bs[..|bs| - 1]), bs[|bs| - 1])
  }

  /** The device agrees with the reference, and has no completion left to serve. */
  ghost predicate Agrees(d: Dev, t: Spec) {
    && Sound(d) && OneStage(d)
    && !d.ep0.ctrRx && !d.ep0.ctrTx && !d.resetPending
    && (t.up <==> !d.ep0.statRx.Disabled?)
    && (d.configured <==> t.config == 1) && 0 <= t.config <= 1
    && d.ctl.line == t.line
    && (d.ctl.outData <==> t.expects) && (t.expects ==> d.ep0.statRx.Valid?)
    && d.ctl.setup == t.setup
    && (!t.up ==> !d.ctl.addrPending && d.ep0.statTx.Disabled? && !t.expects)
    && (d.ctl.addrPending ==> t.address == d.ctl.pendingAddr)
  }

  lemma {:induction false} ResetAgrees(d: Dev, t: Spec)
    requires Agrees(d, t)
    ensures Agrees(Serve(d, Reset), Follow(t, Reset))
  {
    ApplyKeepsSound(d, EvReset);
    ApplyKeepsSound(Apply(d, EvReset), ServeReset);
    hide Write, Read;
  }

  lemma {:induction false} AsideAgrees(d: Dev, t: Spec, e: Ev)
    requires Agrees(d, t) && Elsewhere(e)
    ensures Agrees(Serve(d, Aside(e)), t)
  {
    ElsewhereKeepsControl(d, e);
    hide Write, Read, Sound, AcceptsAddress;
  }

  lemma {:induction false} OutAgrees(d: Dev, t: Spec, data: Small)
    requires Agrees(d, t)
    ensures Agrees(Serve(d, OutPacket(data)), Follow(t, OutPacket(data)))
  {
    var c := Apply(d, EvOut(data));
    ApplyKeepsSound(d, EvOut(data));
    ApplyKeepsSound(c, Serve0);
    ReadWritten(d.pma, EP0_RX, data);
    ReadPrefix(c.pma, EP0_RX, |data|);
    hide Write, Read, Sound, AcceptsAddress, HandleSetup, Ep0Tx;
  }

  lemma {:induction false} ReadPrefix(m: Memory, off: nat, n: nat)
    requires Fits(off, n) && n <= EP0_MAX
    ensures n >= LINE_LEN ==> Fits(off, LINE_LEN) && Read(m, off, LINE_LEN) == Read(m, off, n)[..LINE_LEN]
  {
  }

  /** What a completion does when nothing has been received. */
  lemma {:induction false} TxSummary(d: Dev)
    ensures var e := Ep0Tx(d);
            && e.ep0.statRx == d.ep0.statRx && e.ep0.ctrRx == d.ep0.ctrRx && !e.ep0.ctrTx
            && (d.ep0.statTx.Nak? ==> !e.ep0.statTx.Disabled?)
            && e.configured == d.configured && e.resetPending == d.resetPending
            && e.ctl.line == d.ctl.line && e.ctl.outData == d.ctl.outData && e.ctl.setup == d.ctl.setup
            && (e.ctl.addrPending ==> d.ctl.addrPending) && e.ctl.pendingAddr == d.ctl.pendingAddr
  {
    hide Ep0InContinue;
    ContinueSummary(d.(ep0 := d.ep0.(ctrTx := false)));
  }

  lemma {:induction false} InAgrees(d: Dev, t: Spec)
    requires Agrees(d, t)
    ensures Agrees(Serve(d, InPacket), t)
  {
    ApplyKeepsSound(d, EvIn0);
    ApplyKeepsSound(Apply(d, EvIn0), Serve0);
    ApplyKeepsOneStage(d, EvIn0);
    ApplyKeepsOneStage(Apply(d, EvIn0), Serve0);
    SoundScratch(d);
    hide Write, Read, Sound, OneStage, Ep0Rx, Ep0Tx;
    TxSummary(Apply(d, EvIn0));
  }

  /** Serving a SETUP is executing its resolution. */
  lemma {:induction false} SetupServed(d: Dev, s: Setup)
    requires Sound(d) && !d.ep0.statRx.Disabled? && !d.ep0.ctrTx
    ensures var c := d.(pma := Write(d.pma, EP0_RX, s), rx0 := 8,
                        ep0 := d.ep0.(setup := true, ctrRx := false, statRx := Nak, statTx := Nak));
            && Read(c.pma, EP0_RX, 8) == s
            && Serve(d, SetupPacket(s)) == Execute(Latched(c), Resolved(c))
  {
    ReadWritten(d.pma, EP0_RX, s);
    var e := Apply(d, EvSetup(s));
    var c := e.(ep0 := e.ep0.(ctrRx := false));
    SetupIsExecuted(c);
    ExecuteKeepsCtr(Latched(c), Resolved(c));
    hide Write, Read, Resolve, Execute, HandleSetup;
  }

  /** Executing a resolution neither serves nor raises a completion. */
  lemma {:induction false} ExecuteKeepsCtr(d: Dev, r: Response)
    ensures Execute(d, r).ep0.ctrTx == d.ep0.ctrTx && Execute(d, r).ep0.ctrRx == d.ep0.ctrRx
  {
    hide Ep0BeginIn, ApplyConfig;
    BeginSummary(d, r);
    if r.StatusStage? { ConfigSummary(WithAddress(d, r.setAddress), r.setConfig); }
  }

  function WithAddress(d: Dev, addr: int): Dev {
    if addr >= 0 then d.(ctl := d.ctl.(pendingAddr := addr, addrPending := true)) else d
  }

  /** Everything a data answer changes on the control side. */
  lemma {:induction false} BeginSummary(d: Dev, r: Response)
    ensures r.TxData? ==>
              var e := Ep0BeginIn(d, r.src, r.len, r.zlp);
              && e.ep0 == d.ep0.(statTx := Valid, statRx := Valid)
              && e.ctl == d.ctl.(src := r.src, off := Chunk(r.len), rem := r.len - Chunk(r.len), zlp := r.zlp)
              && e.configured == d.configured && e.resetPending == d.resetPending
  {
    if r.TxData? { ContinueSummary(d.(ctl := d.ctl.(src := r.src, off := 0, rem := r.len, zlp := r.zlp))); }
    hide Ep0InContinue;
  }

  lemma {:induction false} ContinueSummary(d: Dev)
    ensures var e := Ep0InContinue(d);
            && e.ep0 == d.ep0.(statTx := Valid)
            && e.ctl == d.ctl.(off := d.ctl.off + Chunk(d.ctl.rem), rem := d.ctl.rem - Chunk(d.ctl.rem))
            && e.configured == d.configured && e.resetPending == d.resetPending
  {
    hide Write, Behind;
  }

  /** What executing a resolution does to the state the reference follows. */
  ghost predicate Executed(d: Dev, r: Response, e: Dev) {
    && !e.ep0.statRx.Disabled? && OneStage(e)
    && e.configured == (if r.StatusStage? && r.setConfig >= 0 then r.setConfig == 1 else d.configured)
    && e.ctl.line == d.ctl.line && e.ctl.setup == d.ctl.setup && e.resetPending == d.resetPending
    && (e.ctl.outData <==> r.ExpectOut?) && (r.ExpectOut? ==> e.ep0.statRx.Valid?)
    && e.ctl.addrPending == (d.ctl.addrPending || (r.StatusStage? && r.setAddress >= 0))
    && e.ctl.pendingAddr == (if r.StatusStage? && r.setAddress >= 0 then r.setAddress else d.ctl.pendingAddr)
    && (r.StatusStage? ==> e.ctl.rem == 0 && !e.ctl.zlp && e.tx0 == 0 && e.ep0.statTx.Valid?)
  }

  lemma {:induction false} SendSummary(d: Dev)
    ensures var e := Ep0SendStatus(d);
            && e.ep0 == d.ep0.(statTx := Valid) && e.configured == d.configured && e.resetPending == d.resetPending
            && e.ctl == d.ctl.(src := Nowhere, off := 0, rem := 0, zlp := false) && e.tx0 == 0
  {
  }

  /** What a status stage leaves, for the device `c` with the address pending and the configuration applied. */
  lemma {:induction false} StatusSent(d: Dev, r: Response, e: Dev, c: Dev)
    requires !d.ep0.statRx.Disabled? && !d.ctl.outData && r.StatusStage? && e == WithAddress(d, r.setAddress)
    requires c.ep0 == e.ep0 && c.ctl == e.ctl && c.resetPending == e.resetPending
    requires c.configured == if r.setConfig >= 0 then r.setConfig == 1 else e.configured
    ensures Executed(d, r, Ep0SendStatus(c))
  {
    SendSummary(c);
    hide Ep0SendStatus;
  }

  lemma {:induction false} StatusExecutes(d: Dev, r: Response)
    requires !d.ep0.statRx.Disabled? && !d.ctl.outData && r.StatusStage?
    ensures Executed(d, r, Execute(d, r))
  {
    hide Executed, ApplyConfig, Ep0SendStatus;
    var e := WithAddress(d, r.setAddress);
    ConfigSummary(e, r.setConfig);
    StatusSent(d, r, e, if r.setConfig >= 0 then ApplyConfig(e, r.setConfig) else e);
  }

  lemma {:induction false} DataExecutes(d: Dev, r: Response)
    requires !d.ep0.statRx.Disabled? && d.ctl.rem == 0 && !d.ctl.outData && r.TxData?
    ensures Executed(d, r, Execute(d, r))
  {
    hide Ep0BeginIn;
    BeginSummary(d, r);
  }

  lemma {:induction false} OtherExecutes(d: Dev, r: Response)
    requires !d.ep0.statRx.Disabled? && d.ctl.rem == 0 && !d.ctl.outData && (r.ExpectOut? || r.Stall?)
    ensures Executed(d, r, Execute(d, r))
  {
    hide Ep0BeginIn, ApplyConfig;
  }

  lemma {:induction false} ExecuteAgrees(d: Dev, r: Response)
    requires !d.ep0.statRx.Disabled? && d.ctl.rem == 0 && !d.ctl.outData
    ensures Executed(d, r, Execute(d, r))
  {
    hide Executed, Execute;
    if r.StatusStage? {
      StatusExecutes(d, r);
    } else if r.TxData? {
      DataExecutes(d, r);
    } else {
      OtherExecutes(d, r);
    }
  }

  lemma {:induction false} ConfigSummary(d: Dev, cfg: int)
    ensures var e := ApplyConfig(d, cfg);
            e.ep0 == d.ep0 && e.ctl == d.ctl && e.configured == (cfg == 1) && e.resetPending == d.resetPending
  {
  }

  lemma {:induction false} SetupAgrees(d: Dev, t: Spec, s: Setup)
    requires Agrees(d, t)
    ensures Agrees(Serve(d, SetupPacket(s)), Follow(t, SetupPacket(s)))
  {
    ApplyKeepsSound(d, EvSetup(s));
    ApplyKeepsSound(Apply(d, EvSetup(s)), Serve0);
    if t.up {
      hide Write, Read, Resolve, Execute, AcceptsAddress, AcceptsConfiguration, Ep0Handler, Serve;
      SetupServed(d, s);
      var c := d.(pma := Write(d.pma, EP0_RX, s), rx0 := 8,
                  ep0 := d.ep0.(setup := true, ctrRx := false, statRx := Nak, statTx := Nak));
      AcceptedPackets(s, d.configured, d.desc, d.ctl.strbuf);
      ExecuteAgrees(Latched(c), Resolved(c));
      ExecuteKeepsCtr(Latched(c), Resolved(c));
      ServeIsSound(d, s);
    } else {
      hide Write, Read, Resolve, Ep0Rx, Ep0Tx, AcceptsAddress;
    }
  }

  lemma {:induction false} ServeIsSound(d: Dev, s: Setup)
    requires Sound(d)
    ensures Sound(Serve(d, SetupPacket(s)))
  {
    ApplyKeepsSound(d, EvSetup(s));
    ApplyKeepsSound(Apply(d, EvSetup(s)), Serve0);
    hide Apply;
  }

  lemma {:induction false} AgreeAll(desc: Descriptors, pma: Memory, bs: seq<Bus>)
    ensures Agrees(ServeAll(PowerOn(desc, pma), bs), FollowAll(bs))
    decreases |bs|
  {
    if bs != [] {
      hide Agrees, Serve, Follow, PowerOn;
      var n := |bs| - 1;
      AgreeAll(desc, pma, bs[..n]);
      var d, t := ServeAll(PowerOn(desc, pma), bs[..n]), FollowAll(bs[..n]);
      ServeAgrees(d, t, bs[n]);
    }
  }

  lemma {:induction false} ServeAgrees(d: Dev, t: Spec, b: Bus)
    requires Agrees(d, t)
    ensures Agrees(Serve(d, b), Follow(t, b))
  {
    hide Agrees;
    match b
    case Reset => ResetAgrees(d, t);
    case SetupPacket(s) => SetupAgrees(d, t, s);
    case OutPacket(data) => OutAgrees(d, t, data);
    case InPacket => InAgrees(d, t);
    case Aside(e) => if Elsewhere(e) { AsideAgrees(d, t, e); }
  }

  // ---- What the host sees, over all runs ----

  lemma {:induction false} ServeAllSplits(d: Dev, xs: seq<Bus>, ys: seq<Bus>)
    ensures ServeAll(d, xs + ys) == ServeAll(ServeAll(d, xs), ys)
    decreases |ys|
  {
    hide Serve;
    if ys == [] {
      assert xs + ys == xs;
    } else {
      var n := |ys| - 1;
      ServeAllSplits(d, xs, ys[..n]);
      assert (xs + ys)[..|xs + ys| - 1] == xs + ys[..n];
    }
  }

  lemma {:induction false} ServeLast(d: Dev, xs: seq<Bus>, b: Bus)
    ensures ServeAll(d, xs + [b]) == Serve(ServeAll(d, xs), b)
  {
    assert (xs + [b])[..|xs + [b]| - 1] == xs;
  }

  /** A read request that is answered with `n` bytes is answered with the memory behind its source, as it is then. */
  lemma {:induction false} ShortRead(d: Dev, t: Spec, s: Setup, src: Source, n: nat)
    requires Agrees(d, t) && t.up && n <= EP0_MAX
    requires Resolve(s, d.configured, d.desc, d.ctl.strbuf).r == TxData(src, n, false)
    ensures var scratch := Resolve(s, d.configured, d.desc, d.ctl.strbuf).scratch;
            && |scratch| == SCRATCH && n <= |MemoryOf(src, d.desc, scratch, d.ctl.line)|
            && Sent0(Serve(d, SetupPacket(s))) == MemoryOf(src, d.desc, scratch, d.ctl.line)[..n]
            && Serve(d, SetupPacket(s)).ep0.statTx.Valid?
  {
    ResolutionIsSound(s, d.configured, d.desc, d.ctl.strbuf, d.ctl.line);
    SetupServed(d, s);
    var c := d.(pma := Write(d.pma, EP0_RX, s), rx0 := 8,
                ep0 := d.ep0.(setup := true, ctrRx := false, statRx := Nak, statTx := Nak));
    BeginStarts(Latched(c), src, n, false);
    hide Write, Read, Resolve, Serve, Sent0, Ep0BeginIn, Sound;
  }

  lemma {:induction false} ConfigurationReply(configured: bool, d: Descriptors, scratch: seq<byte>)
    requires |scratch| == SCRATCH
    ensures var res := Resolve(GET_CONFIGURATION, configured, d, scratch);
            res.r == TxData(Scratch, 1, false) && res.scratch[0] == if configured then 1 else 0
  {
  }

  lemma {:induction false} LineReply(configured: bool, d: Descriptors, scratch: seq<byte>)
    requires |scratch| == SCRATCH
    ensures Resolve(GET_LINE_CODING, configured, d, scratch).r == TxData(LineCoding, LINE_LEN, false)
  {
  }

  /** GET_CONFIGURATION reports the last SET_CONFIGURATION accepted since the reset, over all runs. */
  lemma {:induction false} GetConfigurationReports(desc: Descriptors, pma: Memory, bs: seq<Bus>)
    requires FollowAll(bs).up
    ensures var e := ServeAll(PowerOn(desc, pma), bs + [SetupPacket(GET_CONFIGURATION)]);
            && e.ep0.statTx.Valid? && 0 <= FollowAll(bs).config <= 1
            && Sent0(e) == [if FollowAll(bs).config == 1 then 1 else 0]
  {
    AgreeAll(desc, pma, bs);
    var d, t := ServeAll(PowerOn(desc, pma), bs), FollowAll(bs);
    ServeLast(PowerOn(desc, pma), bs, SetupPacket(GET_CONFIGURATION));
    ConfigurationReply(d.configured, desc, d.ctl.strbuf);
    hide Resolve, Serve, ServeAll, FollowAll, PowerOn, Sent0;
    ConfigurationReply(d.configured, d.desc, d.ctl.strbuf);
    ShortRead(d, t, GET_CONFIGURATION, Scratch, 1);
  }

  /**
   * GET_LINE_CODING returns the first seven bytes of the last OUT data stage of at least seven bytes, or the default
   * since the reset, over all runs.
   */
  lemma {:induction false} GetLineCodingReports(desc: Descriptors, pma: Memory, bs: seq<Bus>)
    requires FollowAll(bs).up
    ensures var e := ServeAll(PowerOn(desc, pma), bs + [SetupPacket(GET_LINE_CODING)]);
            e.ep0.statTx.Valid? && Sent0(e) == FollowAll(bs).line
  {
    AgreeAll(desc, pma, bs);
    var d, t := ServeAll(PowerOn(desc, pma), bs), FollowAll(bs);
    ServeLast(PowerOn(desc, pma), bs, SetupPacket(GET_LINE_CODING));
    hide Resolve, Serve, ServeAll, FollowAll, PowerOn, Sent0;
    LineReply(d.configured, d.desc, d.ctl.strbuf);
    ShortRead(d, t, GET_LINE_CODING, LineCoding, LINE_LEN);
  }

  /** A control write is acknowledged: once the OUT data stage is in, long enough or not, an empty packet is armed. */
  lemma {:induction false} WriteIsAcknowledged(desc: Descriptors, pma: Memory, bs: seq<Bus>, data: Small)
    requires FollowAll(bs).expects
    ensures var e := ServeAll(PowerOn(desc, pma), bs + [OutPacket(data)]);
            && e.ep0.statTx.Valid? && Sent0(e) == [] && e.ep0.statRx.Valid? && !e.ctl.outData
            && e.ctl.line == if |data| >= LINE_LEN then data[..LINE_LEN] else FollowAll(bs).line
  {
    AgreeAll(desc, pma, bs);
    AgreeAll(desc, pma, bs + [OutPacket(data)]);
    ServeLast(PowerOn(desc, pma), bs, OutPacket(data));
    assert (bs + [OutPacket(data)])[..|bs|] == bs;
    var d, t := ServeAll(PowerOn(desc, pma), bs), FollowAll(bs);
    AcknowledgesOut(d, t, data);
    hide Serve, ServeAll, PowerOn, Sent0, Sound, AcceptsAddress;
  }

  lemma {:induction false} AcknowledgesOut(d: Dev, t: Spec, data: Small)
    requires Agrees(d, t) && t.expects
    ensures var e := Serve(d, OutPacket(data)); e.ep0.statTx.Valid? && Sent0(e) == [] && e.ep0.statRx.Valid?
  {
    assert |d.ctl.strbuf| == SCRATCH;
    hide Write, Sound, AcceptsAddress, HandleSetup, Ep0Tx;
  }

  /** A SETUP the resolver rejects stalls both directions of EP0 and changes nothing the host can ask for. */
  lemma {:induction false} RejectedIsStalled(desc: Descriptors, pma: Memory, bs: seq<Bus>, s: Setup)
    requires FollowAll(bs).up
    requires var d := ServeAll(PowerOn(desc, pma), bs);
             |d.ctl.strbuf| == SCRATCH && Resolve(s, d.configured, d.desc, d.ctl.strbuf).r.Stall?
    ensures var d, e := ServeAll(PowerOn(desc, pma), bs), ServeAll(PowerOn(desc, pma), bs + [SetupPacket(s)]);
            && e.ep0.statTx.Stalled? && e.ep0.statRx.Stalled?
            && SameEp1(d, e) && e.daddr == d.daddr && e.ctl.line == d.ctl.line
  {
    AgreeAll(desc, pma, bs);
    ServeLast(PowerOn(desc, pma), bs, SetupPacket(s));
    var d := ServeAll(PowerOn(desc, pma), bs);
    StallsOut(d, FollowAll(bs), s);
  }

  lemma {:induction false} StallsOut(d: Dev, t: Spec, s: Setup)
    requires Agrees(d, t) && t.up && Resolve(s, d.configured, d.desc, d.ctl.strbuf).r.Stall?
    ensures var e := Serve(d, SetupPacket(s));
            && e.ep0.statTx.Stalled? && e.ep0.statRx.Stalled?
            && SameEp1(d, e) && e.daddr == d.daddr && e.ctl.line == d.ctl.line
  {
    SetupServed(d, s);
    hide Write, Read, Resolve, Serve, Sound;
  }

  // ---- The device address ----

  lemma {:induction false} ExecuteKeepsAddress(d: Dev, r: Response)
    ensures Execute(d, r).daddr == d.daddr
  {
    hide Write, Behind;
  }

  lemma {:induction false} SetupKeepsAddress(d: Dev, t: Spec, s: Setup)
    requires Agrees(d, t)
    ensures Serve(d, SetupPacket(s)).daddr == d.daddr
  {
    if t.up {
      SetupServed(d, s);
      var c := d.(pma := Write(d.pma, EP0_RX, s), rx0 := 8,
                  ep0 := d.ep0.(setup := true, ctrRx := false, statRx := Nak, statTx := Nak));
      ExecuteKeepsAddress(Latched(c), Resolved(c));
      hide Write, Read, Resolve, Execute, Serve, Sound;
    } else {
      hide Write, Read, Resolve, Ep0Rx, Ep0Tx, AcceptsAddress;
    }
  }

  lemma {:induction false} OutKeepsAddress(d: Dev, t: Spec, data: Small)
    requires Agrees(d, t)
    ensures Serve(d, OutPacket(data)).daddr == d.daddr
  {
    hide Write, Read, Sound, AcceptsAddress, HandleSetup, Ep0Tx;
  }

  lemma {:induction false} InSetsAddress(d: Dev, t: Spec)
    requires Agrees(d, t)
    ensures var e := Serve(d, InPacket);
            && (e.daddr != d.daddr ==> d.ctl.addrPending)
            && e.daddr == (if d.ctl.addrPending && d.ep0.statTx.Valid? && d.ctl.rem == 0 && !d.ctl.zlp
                           then DADDR_EF + t.address else d.daddr)
            && e.ctl.addrPending == (d.ctl.addrPending && !(d.ep0.statTx.Valid? && d.ctl.rem == 0 && !d.ctl.zlp))
  {
    assert |d.ctl.strbuf| == SCRATCH;
    hide Write, Read, Sound, AcceptsAddress, Ep0Rx;
  }

  /**
   * DADDR changes only on a reset, to address 0, or when the host has taken the last packet of a stage, to the value
   * 0..127 of the last SET_ADDRESS accepted since the reset (section 9.4.6 of USB 2.0).
   */
  lemma {:induction false} AddressChangesOnly(desc: Descriptors, pma: Memory, bs: seq<Bus>, b: Bus)
    ensures var d, e := ServeAll(PowerOn(desc, pma), bs), ServeAll(PowerOn(desc, pma), bs + [b]);
            var t := FollowAll(bs);
            e.daddr != d.daddr ==>
              || (b.Reset? && e.daddr == DADDR_EF)
              || (b.InPacket? && 0 <= t.address <= 127 && e.daddr == DADDR_EF + t.address
                  && d.ep0.statTx.Valid? && d.ctl.rem == 0 && !d.ctl.zlp)
  {
    AgreeAll(desc, pma, bs);
    var d, t := ServeAll(PowerOn(desc, pma), bs), FollowAll(bs);
    ServeLast(PowerOn(desc, pma), bs, b);
    hide ServeAll, FollowAll, PowerOn;
    match b
    case Reset =>
      hide Agrees;
    case SetupPacket(s) => SetupKeepsAddress(d, t, s);
    case OutPacket(data) => OutKeepsAddress(d, t, data);
    case InPacket =>
      InSetsAddress(d, t);
      hide Serve;
    case Aside(e) => if Elsewhere(e) { ElsewhereKeepsControl(d, e); }
  }

  /** The answer to a SETUP is over with the next packet the host takes. */
  predicate OnePacket(r: Response) { r.StatusStage? || (r.TxData? && r.len <= EP0_MAX && !r.zlp) }

  /** The state the SETUP handler leaves, as far as the next IN packet is concerned. */
  lemma {:induction false} AnswerSummary(d: Dev, r: Response)
    requires d.ep0.statTx.Nak? && d.ctl.rem == 0 && !d.ctl.zlp
    ensures var e := Execute(d, r);
            OnePacket(r) <==> e.ep0.statTx.Valid? && e.ctl.rem == 0 && !e.ctl.zlp
  {
    if r.StatusStage? {
      hide Execute;
      StatusArms(d, r);
    } else if r.TxData? {
      hide Execute;
      DataArms(d, r);
    } else {
      hide Ep0BeginIn, ApplyConfig, Ep0SendStatus;
    }
  }

  lemma {:induction false} DataArms(d: Dev, r: Response)
    requires r.TxData?
    ensures var e := Execute(d, r);
            e.ep0.statTx.Valid? && e.ctl.rem == r.len - Chunk(r.len) && e.ctl.zlp == r.zlp
  {
    BeginSummary(d, r);
    hide Ep0BeginIn;
  }

  lemma {:induction false} StatusArms(d: Dev, r: Response)
    requires r.StatusStage?
    ensures var e := Execute(d, r); e.tx0 == 0 && e.ep0.statTx.Valid? && e.ctl.rem == 0 && !e.ctl.zlp
  {
    hide ApplyConfig, Ep0SendStatus;
    var e := WithAddress(d, r.setAddress);
    ConfigSummary(e, r.setConfig);
    SendSummary(if r.setConfig >= 0 then ApplyConfig(e, r.setConfig) else e);
  }

  /**
   * Exactly when a SET_ADDRESS that another request has superseded takes effect all the same, over every run with an
   * address pending: the request itself leaves DADDR alone, and the next IN packet the host takes puts the old
   * address in force if the request is answered by a status stage or a single packet of data, and otherwise leaves it
   * pending.
   */
  lemma {:induction false} SupersededAddressAppliesIff(desc: Descriptors, pma: Memory, bs: seq<Bus>, s: Setup)
    requires FollowAll(bs).up && !AcceptsAddress(s)
    requires var d := ServeAll(PowerOn(desc, pma), bs); d.ctl.addrPending && |d.ctl.strbuf| == SCRATCH
    ensures var d := ServeAll(PowerOn(desc, pma), bs);
            var e := ServeAll(PowerOn(desc, pma), bs + [SetupPacket(s)]);
            var f := ServeAll(PowerOn(desc, pma), bs + [SetupPacket(s), InPacket]);
            && e.daddr == d.daddr && e.ctl.addrPending
            && 0 <= FollowAll(bs).address <= 127
            && if OnePacket(Resolve(s, d.configured, d.desc, d.ctl.strbuf).r)
               then f.daddr == DADDR_EF + FollowAll(bs).address && !f.ctl.addrPending
               else f.daddr == d.daddr && f.ctl.addrPending
  {
    AgreeAll(desc, pma, bs);
    var d, t := ServeAll(PowerOn(desc, pma), bs), FollowAll(bs);
    ServeLast(PowerOn(desc, pma), bs, SetupPacket(s));
    ServeLast(PowerOn(desc, pma), bs + [SetupPacket(s)], InPacket);
    assert bs + [SetupPacket(s)] + [InPacket] == bs + [SetupPacket(s), InPacket];
    hide ServeAll, FollowAll, PowerOn, Serve;
    AnswerToSuperseding(d, t, s);
    SetupKeepsAddress(d, t, s);
    SetupAgrees(d, t, s);
    InSetsAddress(Serve(d, SetupPacket(s)), Follow(t, SetupPacket(s)));
    hide Sound, Resolve;
  }

  lemma {:induction false} AnswerToSuperseding(d: Dev, t: Spec, s: Setup)
    requires Agrees(d, t) && t.up && d.ctl.addrPending && !AcceptsAddress(s)
    ensures |d.ctl.strbuf| == SCRATCH && 0 <= t.address <= 127
    ensures var e := Serve(d, SetupPacket(s));
            && e.ctl.addrPending
            && (OnePacket(Resolve(s, d.configured, d.desc, d.ctl.strbuf).r) <==>
                e.ep0.statTx.Valid? && e.ctl.rem == 0 && !e.ctl.zlp)
  {
    SetupServed(d, s);
    AcceptedPackets(s, d.configured, d.desc, d.ctl.strbuf);
    var c := d.(pma := Write(d.pma, EP0_RX, s), rx0 := 8,
                ep0 := d.ep0.(setup := true, ctrRx := false, statRx := Nak, statTx := Nak));
    ExecuteAgrees(Latched(c), Resolved(c));
    AnswerSummary(Latched(c), Resolved(c));
    hide Write, Read, Resolve, Execute, Serve, AcceptsAddress, AcceptsConfiguration, OnePacket;
  }

  /** Bus activity that does not concern EP0. */
  predicate AllAside(bs: seq<Bus>) { forall b :: b in bs ==> b.Aside? }

  /** The transfer of a SET_ADDRESS is at its status stage. */
  predicate AwaitsStatus(d: Dev, v: nat) {
    && d.ctl.addrPending && d.ctl.pendingAddr == v && d.ctl.rem == 0 && !d.ctl.zlp && d.tx0 == 0
    && d.ep0.statTx.Valid? && !d.ep0.ctrRx
  }

  lemma {:induction false} AsidesKeepStatus(d: Dev, bs: seq<Bus>, v: nat)
    requires Sound(d) && AwaitsStatus(d, v) && AllAside(bs)
    ensures var e := ServeAll(d, bs); Sound(e) && AwaitsStatus(e, v) && e.daddr == d.daddr
    decreases |bs|
  {
    if bs != [] {
      var n := |bs| - 1;
      assert bs[n] in bs;
      AsidesKeepStatus(d, bs[..n], v);
      var c := ServeAll(d, bs[..n]);
      if Elsewhere(bs[n].e) { ElsewhereKeepsControl(c, bs[n].e); }
      hide Apply, Sound;
    }
  }

  lemma {:induction false} SetAddressAwaits(d: Dev, t: Spec, v: byte)
    requires Agrees(d, t) && t.up && IntOf(v) <= 127
    ensures var e := Serve(d, SetupPacket(SetAddress(v))); AwaitsStatus(e, IntOf(v)) && Sound(e) && e.daddr == d.daddr
  {
    var s := SetAddress(v);
    SetupServed(d, s);
    SetupKeepsAddress(d, t, s);
    ServeIsSound(d, s);
    AcceptedPackets(s, d.configured, d.desc, d.ctl.strbuf);
    var c := d.(pma := Write(d.pma, EP0_RX, s), rx0 := 8,
                ep0 := d.ep0.(setup := true, ctrRx := false, statRx := Nak, statTx := Nak));
    ExecuteAgrees(Latched(c), Resolved(c));
    ExecuteKeepsCtr(Latched(c), Resolved(c));
    hide Write, Read, Resolve, Execute, Serve, Sound;
  }

  /**
   * After a SET_ADDRESS of 0 to 127 in any run of a live device, whatever happens on the other endpoint, the host
   * takes a zero-length packet at the old address and only then is the new address in force.
   */
  lemma {:induction false} AddressTakesEffect(desc: Descriptors, pma: Memory, bs: seq<Bus>, v: byte, asides: seq<Bus>)
    requires FollowAll(bs).up && IntOf(v) <= 127 && AllAside(asides)
    ensures var before := ServeAll(PowerOn(desc, pma), bs);
            var d := ServeAll(PowerOn(desc, pma), bs + [SetupPacket(SetAddress(v))] + asides);
            && d.daddr == before.daddr && d.ep0.statTx.Valid? && Sent0(d) == []
            && Serve(d, InPacket).daddr == DADDR_EF + IntOf(v)
  {
    AgreeAll(desc, pma, bs);
    var s := SetupPacket(SetAddress(v));
    ServeLast(PowerOn(desc, pma), bs, s);
    ServeAllSplits(PowerOn(desc, pma), bs + [s], asides);
    var d := ServeAll(PowerOn(desc, pma), bs);
    hide ServeAll, FollowAll, PowerOn, Serve, Agrees;
    SetAddressAwaits(d, FollowAll(bs), v);
    AsidesKeepStatus(Serve(d, s), asides, IntOf(v));
    StatusApplies(ServeAll(Serve(d, s), asides), IntOf(v));
  }

  lemma {:induction false} StatusApplies(d: Dev, v: nat)
    requires Sound(d) && AwaitsStatus(d, v)
    ensures Sent0(d) == [] && Serve(d, InPacket).daddr == DADDR_EF + v
  {
    hide Write, Read, Ep0Rx;
  }

  /**
   * The case the code gets wrong: the host gives up a SET_ADDRESS and reads the configuration instead, and the address
   * changes when it takes the data packet of the read.
   */
  lemma {:induction false} SupersededAddressApplies(desc: Descriptors, pma: Memory)
    ensures var bs := [Reset, SetupPacket(SetAddress(5)), SetupPacket(GET_CONFIGURATION)];
            var d := ServeAll(PowerOn(desc, pma), bs);
            && d.daddr == DADDR_EF && Sent0(d) == [0]
            && Serve(d, InPacket).daddr == DADDR_EF + 5
  {
    var bs := [Reset, SetupPacket(SetAddress(5))];
    var get := SetupPacket(GET_CONFIGURATION);
    var d, t := ServeAll(PowerOn(desc, pma), bs), FollowAll(bs);
    ExampleReference();
    assert [Reset] + [SetupPacket(SetAddress(5))] + [] == bs;
    assert bs + [get] == [Reset, SetupPacket(SetAddress(5)), SetupPacket(GET_CONFIGURATION)];
    AgreeAll(desc, pma, [Reset]);
    AgreeAll(desc, pma, bs);
    AgreeAll(desc, pma, bs + [get]);
    ServeLast(PowerOn(desc, pma), [Reset], SetupPacket(SetAddress(5)));
    ServeLast(PowerOn(desc, pma), [], Reset);
    ServeLast(PowerOn(desc, pma), bs, get);
    var r := ServeAll(PowerOn(desc, pma), [Reset]);
    assert r.daddr == DADDR_EF;
    hide Agrees, Serve, ServeAll, FollowAll, PowerOn, Sent0;
    SetAddressAwaits(r, FollowAll([Reset]), 5);
    ReadKeepsPending(d, t, 5);
    SetupKeepsAddress(d, t, GET_CONFIGURATION);
    GetConfigurationReports(desc, pma, bs);
    InSetsAddress(Serve(d, get), FollowAll(bs + [get]));
  }

  lemma {:induction false} ExampleReference()
    ensures FollowAll([Reset]).up
    ensures var t := FollowAll([Reset, SetupPacket(SetAddress(5))]); t.up && t.config == 0
    ensures var t := FollowAll([Reset, SetupPacket(SetAddress(5)), SetupPacket(GET_CONFIGURATION)]);
            t.address == 5
  {
    var a, b, c := Reset, SetupPacket(SetAddress(5)), SetupPacket(GET_CONFIGURATION);
    assert [a][..0] == [] && [a, b][..1] == [a] && [a, b, c][..2] == [a, b];
    IntOfByteOf(5);
    assert ByteOf(5) == 5;
    assert FollowAll([a]) == Follow(BLANK, a);
    assert FollowAll([a, b]) == Follow(FollowAll([a]), b);
    assert FollowAll([a, b, c]) == Follow(FollowAll([a, b]), c);
  }

  lemma {:induction false} ReadKeepsPending(d: Dev, t: Spec, v: nat)
    requires Agrees(d, t) && t.up && AwaitsStatus(d, v)
    ensures var e := Serve(d, SetupPacket(GET_CONFIGURATION));
            e.ctl.addrPending && e.ctl.rem == 0 && !e.ctl.zlp && e.ep0.statTx.Valid?
  {
    var s := GET_CONFIGURATION;
    SetupServed(d, s);
    ConfigurationReply(d.configured, d.desc, d.ctl.strbuf);
    var c := d.(pma := Write(d.pma, EP0_RX, s), rx0 := 8,
                ep0 := d.ep0.(setup := true, ctrRx := false, statRx := Nak, statTx := Nak));
    BeginSummary(Latched(c), Resolved(c));
    hide Write, Read, Resolve, Serve, Sound, Ep0BeginIn;
  }

  // ---- Serviced runs among all runs ----

  /** A bus event and its service, as events of the device machine. */
  function Events(b: Bus): seq<Ev> {
    match b
    case Reset => [EvReset, ServeReset]
    case SetupPacket(s) => [EvSetup(s), Serve0]
    case OutPacket(data) => [EvOut(data), Serve0]
    case InPacket => [EvIn0, Serve0]
    case Aside(e) => if Elsewhere(e) then [e] else []
  }

  function AllEvents(bs: seq<Bus>): seq<Ev> {
    if bs == [] then [] else AllEvents(bs[..|bs| - 1]) + Events(bs[|bs| - 1])
  }

  lemma {:induction false} RunOfSplits(d: Dev, xs: seq<Ev>, ys: seq<Ev>)
    ensures RunOf(d, xs + ys) == RunOf(RunOf(d, xs), ys)
    decreases |ys|
  {
    hide Apply;
    if ys == [] {
      assert xs + ys == xs;
    } else {
      RunOfSplits(d, xs, ys[..|ys| - 1]);
      assert (xs + ys)[..|xs + ys| - 1] == xs + ys[..|ys| - 1];
    }
  }

  lemma {:induction false} RunOfFew(d: Dev, a: Ev, b: Ev)
    ensures RunOf(d, []) == d && RunOf(d, [a]) == Apply(d, a) && RunOf(d, [a, b]) == Apply(Apply(d, a), b)
  {
    hide Apply;
    assert [a][..0] == [] && [a, b][..1] == [a];
    assert RunOf(d, [a]) == Apply(RunOf(d, []), a);
    assert RunOf(d, [a, b]) == Apply(RunOf(d, [a]), b);
  }

  lemma {:induction false} ServeIsRun(d: Dev, b: Bus)
    ensures Serve(d, b) == RunOf(d, Events(b))
  {
    hide Apply, RunOf;
    match b
    case Reset => RunOfFew(d, EvReset, ServeReset);
    case SetupPacket(s) => RunOfFew(d, EvSetup(s), Serve0);
    case OutPacket(data) => RunOfFew(d, EvOut(data), Serve0);
    case InPacket => RunOfFew(d, EvIn0, Serve0);
    case Aside(e) => RunOfFew(d, e, e);
  }

  /** A run in which everything is served at once is a run of the device machine. */
  lemma {:induction false} ServedRunsAreRuns(d: Dev, bs: seq<Bus>)
    ensures ServeAll(d, bs) == RunOf(d, AllEvents(bs))
    decreases |bs|
  {
    if bs != [] {
      hide Serve, Apply;
      var n := |bs| - 1;
      ServedRunsAreRuns(d, bs[..n]);
      ServeIsRun(ServeAll(d, bs[..n]), bs[n]);
      RunOfSplits(d, AllEvents(bs[..n]), Events(bs[n]));
    }
  }
}
