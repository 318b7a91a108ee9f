/**
 * What a host gets for every SETUP packet there is, over whole runs: the requests as the bytes of USB 2.0 and of the
 * CDC specification, against the resolver, the driver and the packets it sends.
 */
module UsbAnswers {
  import opened Bytes
  import opened EpReg
  import opened Pma
  import opened UsbCtrl
  import opened UsbDevice
  import opened UsbInFlight
  import opened UsbControl
  import opened UsbRuns
  import UsbStale

  // ---- The requests, byte by byte ----

  datatype Answer =
    | Bytes(msg: seq<byte>)    // data, cut to what the host asks for
    | Acknowledge              // an empty status packet
    | TakeLine                 // seven bytes are to come
    | Reject

  predicate IsEndpoint(b: byte) { b == 0x00 || b == 0x01 || b == 0x81 || b == 0x82 }

  function DescriptorAnswer(kind: byte, index: byte, d: Descriptors): Answer {
    if kind == 0x01 then Bytes(d.device)
    else if kind == 0x02 then Bytes(d.config)
    else if kind == 0x03 && d.StringOf(IntOf(index)) != [] then Bytes(d.StringOf(IntOf(index)))
    else Reject
  }

  /** Device: self-powered; interfaces 0 and 1 and the four endpoints: nothing to say. */
  function StatusAnswer(s: Setup): Answer {
    if s == [0x80, 0x00, 0x00, 0x00, 0x00, 0x00, 0x02, 0x00] then Bytes([0x01, 0x00])
    else if s == [0x81, 0x00, 0x00, 0x00, s[4], 0x00, 0x02, 0x00] && (s[4] == 0 || s[4] == 1) then Bytes([0x00, 0x00])
    else if s == [0x82, 0x00, 0x00, 0x00, s[4], 0x00, 0x02, 0x00] && IsEndpoint(s[4]) then Bytes([0x00, 0x00])
    else Reject
  }

  /** Sections 9.4.1 to 9.4.9 of USB 2.0 and 6.3.10 to 6.3.12 of the CDC PSTN specification, for this device. */
  function AnswerTo(s: Setup, config: int, line: seq<byte>, d: Descriptors): Answer {
    if s[0] == 0x80 && s[1] == 0x06 then DescriptorAnswer(s[3], s[2], d)
    else if s[1] == 0x00 then StatusAnswer(s)
    else if s == GET_CONFIGURATION then Bytes([if config == 1 then 0x01 else 0x00])
    else if s == GET_LINE_CODING then Bytes(line)
    else if AcceptsAddress(s) || AcceptsConfiguration(s) then Acknowledge
    else if s == [0x02, s[1], 0x00, 0x00, s[4], 0x00, 0x00, 0x00] && (s[1] == 0x01 || s[1] == 0x03) && IsEndpoint(s[4])
    then Acknowledge
    else if s == [0x21, 0x22, s[2], s[3], 0x00, 0x00, 0x00, 0x00] then Acknowledge
    else if s == SET_LINE_CODING then TakeLine
    else Reject
  }

  // ---- Numbers and bytes ----

  lemma {:induction false} RequestTypes(b: byte)
    ensures b & 0x60 == 0 && b & 0x80 != 0 && b & 0x1F == 0 <==> b == 0x80
    ensures b & 0x60 == 0 && b & 0x80 != 0 && b & 0x1F == 1 <==> b == 0x81
    ensures b & 0x60 == 0 && b & 0x80 != 0 && b & 0x1F == 2 <==> b == 0x82
    ensures b & 0x60 == 0 && b & 0x80 == 0 && b & 0x1F == 2 <==> b == 0x02
    ensures b & 0x60 == 0 && b & 0x80 == 0 && b & 0x1F == 0 <==> b == 0x00
    ensures b & 0x60 == 0x20 && b & 0x80 != 0 && b & 0x1F == 1 <==> b == 0xA1
    ensures b & 0x60 == 0x20 && b & 0x80 == 0 && b & 0x1F == 1 <==> b == 0x21
  {
  }

  lemma {:induction false} Values(b: byte, n: byte)
    ensures IntOf(b) == IntOf(n) <==> b == n
  {
    ByteOfIntOf(b);
    ByteOfIntOf(n);
  }

  lemma {:induction false} Numerals()
    ensures IntOf(0x00) == 0 && IntOf(0x01) == 1 && IntOf(0x02) == 2 && IntOf(0x03) == 3 && IntOf(0x05) == 5
    ensures IntOf(0x06) == 6 && IntOf(0x07) == 7 && IntOf(0x08) == 8 && IntOf(0x09) == 9
    ensures IntOf(0x20) == 0x20 && IntOf(0x21) == 0x21 && IntOf(0x22) == 0x22
    ensures IntOf(0x81) == 0x81 && IntOf(0x82) == 0x82
  {
  }

  /** The request codes the resolver knows. */
  lemma {:induction false} Codes(b: byte)
    ensures IntOf(b) == 0 <==> b == 0x00
    ensures IntOf(b) == 1 <==> b == 0x01
    ensures IntOf(b) == 2 <==> b == 0x02
    ensures IntOf(b) == 3 <==> b == 0x03
    ensures IntOf(b) == 5 <==> b == 0x05
    ensures IntOf(b) == 6 <==> b == 0x06
    ensures IntOf(b) == 7 <==> b == 0x07
    ensures IntOf(b) == 8 <==> b == 0x08
    ensures IntOf(b) == 9 <==> b == 0x09
    ensures IntOf(b) == 0x20 <==> b == 0x20
    ensures IntOf(b) == 0x21 <==> b == 0x21
    ensures IntOf(b) == 0x22 <==> b == 0x22
    ensures IntOf(b) == 0x81 <==> b == 0x81
    ensures IntOf(b) == 0x82 <==> b == 0x82
  {
    Numerals();
    hide IntOf;
    Values(b, 0x00);
    Values(b, 0x01);
    Values(b, 0x02);
    Values(b, 0x03);
    Values(b, 0x05);
    Values(b, 0x06);
    Values(b, 0x07);
    Values(b, 0x08);
    Values(b, 0x09);
    Values(b, 0x20);
    Values(b, 0x21);
    Values(b, 0x22);
    Values(b, 0x81);
    Values(b, 0x82);
  }

  lemma {:induction false} SmallWords(lo: byte, hi: byte)
    ensures Word(lo, hi) == 0 <==> lo == 0 && hi == 0
    ensures Word(lo, hi) == 1 <==> lo == 1 && hi == 0
    ensures Word(lo, hi) == 2 <==> lo == 2 && hi == 0
    ensures Word(lo, hi) == 7 <==> lo == 7 && hi == 0
    ensures Word(lo, hi) < 2 <==> (lo == 0 || lo == 1) && hi == 0
    ensures ValidEndpoint(Word(lo, hi)) <==> IsEndpoint(lo) && hi == 0
  {
    Codes(lo);
    Codes(hi);
    hide IntOf;
  }

  /** The request type byte, taken apart as the resolver does. */
  lemma {:induction false} TypeOf(s: Setup)
    ensures IntOf(Kind(s)) != 0 && IntOf(Kind(s)) != 0x20 ==>
              && s[0] != 0x80 && s[0] != 0x81 && s[0] != 0x82 && s[0] != 0x02 && s[0] != 0x00
              && s[0] != 0xA1 && s[0] != 0x21
    ensures IntOf(Kind(s)) == 0 ==>
              && (DirIn(s) && IntOf(Recipient(s)) == 0 <==> s[0] == 0x80)
              && (DirIn(s) && IntOf(Recipient(s)) == 1 <==> s[0] == 0x81)
              && (DirIn(s) && IntOf(Recipient(s)) == 2 <==> s[0] == 0x82)
              && (!DirIn(s) && IntOf(Recipient(s)) == 2 <==> s[0] == 0x02)
              && (!DirIn(s) && IntOf(Recipient(s)) == 0 <==> s[0] == 0x00)
              && s[0] != 0xA1 && s[0] != 0x21
    ensures IntOf(Kind(s)) == 0x20 ==>
              && (DirIn(s) && IntOf(Recipient(s)) == 1 <==> s[0] == 0xA1)
              && (!DirIn(s) && IntOf(Recipient(s)) == 1 <==> s[0] == 0x21)
              && s[0] != 0x80 && s[0] != 0x81 && s[0] != 0x82 && s[0] != 0x02 && s[0] != 0x00
  {
    RequestTypes(s[0]);
    Codes(Kind(s));
    Codes(Recipient(s));
    hide IntOf;
  }

  // ---- The resolver ----

  /** The resolver's answer is the one due: the source behind a data answer begins with its bytes. */
  ghost predicate Fulfils(a: Answer, res: Resolution, wlen: nat, d: Descriptors, line: seq<byte>) {
    match a
    case Bytes(msg) =>
      && res.r.TxData?
      && var n := if |msg| > wlen then wlen else |msg|;
         && res.r.len == n && res.r.zlp == ZlpNeeded(n, wlen, 64)
         && n <= |MemoryOf(res.r.src, d, res.scratch, line)|
         && MemoryOf(res.r.src, d, res.scratch, line)[..n] == msg[..n]
    case Acknowledge => res.r.StatusStage?
    case TakeLine => res.r.ExpectOut?
    case Reject => res.r.Stall?
  }

  lemma {:induction false} DescriptorFulfils(s: Setup, d: Descriptors, scratch: seq<byte>, line: seq<byte>)
    requires |scratch| == SCRATCH
    ensures Fulfils(DescriptorAnswer(s[3], s[2], d), GetDescriptor(s, d, scratch), WLength(s), d, line)
  {
    Codes(s[3]);
    hide IntOf, Word, Descriptors.StringOf;
  }

  lemma {:induction false} ScratchFulfils(bytes: seq<byte>, scratch: seq<byte>, wlen: nat, d: Descriptors,
                                          line: seq<byte>)
    requires |scratch| == SCRATCH && |bytes| <= SCRATCH && wlen == |bytes|
    ensures Fulfils(Bytes(bytes), Resolution(Reply(Scratch, |bytes|, wlen), Fill(scratch, bytes)), wlen, d, line)
  {
  }

  lemma {:induction false} StatusFulfils(s: Setup, d: Descriptors, scratch: seq<byte>, line: seq<byte>)
    requires |scratch| == SCRATCH && IntOf(Kind(s)) == 0 && s[1] == 0x00
    ensures Fulfils(StatusAnswer(s), GetStatus(s, scratch), WLength(s), d, line)
  {
    hide IntOf, Word, Kind, Recipient, DirIn, ValidEndpoint, Fill, Reply, Fulfils, IsEndpoint;
    TypeOf(s);
    SmallWords(s[2], s[3]);
    SmallWords(s[4], s[5]);
    SmallWords(s[6], s[7]);
    SetupBytes(s);
    Rejected(s, scratch, d, line);
    if StatusAnswer(s).Bytes? { ScratchFulfils(StatusAnswer(s).msg, scratch, 2, d, line); }
  }

  lemma {:induction false} Rejected(s: Setup, scratch: seq<byte>, d: Descriptors, line: seq<byte>)
    ensures Fulfils(Reject, Resolution(Stall, scratch), WLength(s), d, line)
    ensures forall a, c :: Fulfils(Acknowledge, Resolution(StatusStage(a, c), scratch), WLength(s), d, line)
    ensures Fulfils(TakeLine, Resolution(ExpectOut, scratch), WLength(s), d, line)
  {
  }

  /** Requests of the standard type. */
  lemma {:induction false} StandardFulfils(
      s: Setup, configured: bool, d: Descriptors, scratch: seq<byte>, line: seq<byte>)
    requires |scratch| == SCRATCH && IntOf(Kind(s)) == 0
    ensures var config := if configured then 1 else 0;
            Fulfils(AnswerTo(s, config, line, d), Standard(s, configured, d, scratch), WLength(s), d, line)
  {
    hide IntOf, Word, Kind, Recipient, DirIn, ValidEndpoint, Fill, Reply, Fulfils, IsEndpoint;
    hide DescriptorAnswer, StatusAnswer, GetDescriptor, GetStatus, Feature, AcceptsAddress, AcceptsConfiguration;
    TypeOf(s);
    Codes(s[1]);
    Rejected(s, scratch, d, line);
    if s[1] == 0x06 {
      if s[0] == 0x80 { DescriptorFulfils(s, d, scratch, line); }
      NotAccepted(s);
    } else if s[1] == 0x00 {
      StatusFulfils(s, d, scratch, line);
    } else if s[1] == 0x08 {
      ConfigurationFulfils(s, configured, d, scratch, line);
      NotAccepted(s);
    } else if s[1] == 0x01 || s[1] == 0x03 {
      FeatureFulfils(s, d, scratch, line);
      NotAccepted(s);
    } else {
      PlainFulfils(s, configured, d, scratch, line);
    }
  }

  lemma {:induction false} NotAccepted(s: Setup)
    requires s[1] != 0x05 && s[1] != 0x09
    ensures !AcceptsAddress(s) && !AcceptsConfiguration(s)
  {
    hide IntOf;
  }

  lemma {:induction false} ConfigurationFulfils(s: Setup, configured: bool, d: Descriptors, scratch: seq<byte>,
                                                line: seq<byte>)
    requires |scratch| == SCRATCH && IntOf(Kind(s)) == 0 && s[1] == 0x08
    ensures Fulfils(if s == GET_CONFIGURATION then Bytes([if configured then 0x01 else 0x00]) else Reject,
                    Standard(s, configured, d, scratch), WLength(s), d, line)
  {
    hide IntOf, Word, Kind, Recipient, DirIn, Fill, Reply, Fulfils;
    TypeOf(s);
    Codes(s[1]);
    SmallWords(s[2], s[3]);
    SmallWords(s[4], s[5]);
    SmallWords(s[6], s[7]);
    SetupBytes(s);
    Rejected(s, scratch, d, line);
    ScratchFulfils([if configured then 0x01 else 0x00], scratch, 1, d, line);
  }

  lemma {:induction false} FeatureFulfils(s: Setup, d: Descriptors, scratch: seq<byte>, line: seq<byte>)
    requires |scratch| == SCRATCH && IntOf(Kind(s)) == 0
    ensures Fulfils(if s == [0x02, s[1], 0x00, 0x00, s[4], 0x00, 0x00, 0x00] && IsEndpoint(s[4]) then Acknowledge
                    else Reject,
                    Feature(s, scratch), WLength(s), d, line)
  {
    hide IntOf, Word, Kind, Recipient, DirIn, ValidEndpoint, Fulfils, IsEndpoint;
    TypeOf(s);
    SmallWords(s[2], s[3]);
    SmallWords(s[4], s[5]);
    SmallWords(s[6], s[7]);
    SetupBytes(s);
    Rejected(s, scratch, d, line);
  }

  /** SET_ADDRESS, SET_CONFIGURATION and the codes there is no request for. */
  lemma {:induction false} PlainFulfils(s: Setup, configured: bool, d: Descriptors, scratch: seq<byte>, line: seq<byte>)
    requires |scratch| == SCRATCH && IntOf(Kind(s)) == 0
    requires s[1] != 0x06 && s[1] != 0x00 && s[1] != 0x08 && s[1] != 0x01 && s[1] != 0x03
    ensures Fulfils(if AcceptsAddress(s) || AcceptsConfiguration(s) then Acknowledge else Reject,
                    Standard(s, configured, d, scratch), WLength(s), d, line)
  {
    hide IntOf, Word, Kind, Recipient, DirIn, Fulfils, AcceptsAddress, AcceptsConfiguration;
    Codes(s[1]);
    Rejected(s, scratch, d, line);
    AcceptedPackets(s, configured, d, scratch);
    Known(s, configured, d, scratch);
  }

  lemma {:induction false} Known(s: Setup, configured: bool, d: Descriptors, scratch: seq<byte>)
    requires |scratch| == SCRATCH && IntOf(Kind(s)) == 0
    requires s[1] != 0x06 && s[1] != 0x00 && s[1] != 0x08 && s[1] != 0x01 && s[1] != 0x03
    ensures Resolve(s, configured, d, scratch) == Standard(s, configured, d, scratch)
    ensures var r := Standard(s, configured, d, scratch).r;
            r.Stall? || (r.StatusStage? && (r.setAddress >= 0 || r.setConfig >= 0))
  {
    hide IntOf, Word, Kind, Recipient, DirIn;
    Codes(s[1]);
  }

  /** Requests of the class type. */
  lemma {:induction false} ClassFulfils(s: Setup, config: int, d: Descriptors, scratch: seq<byte>, line: seq<byte>)
    requires |scratch| == SCRATCH && |line| == LINE_LEN && IntOf(Kind(s)) == 0x20
    ensures Fulfils(AnswerTo(s, config, line, d), Resolution(ClassRequest(s), scratch), WLength(s), d, line)
  {
    hide IntOf, Word, Kind, Recipient, DirIn, Fulfils, DescriptorAnswer, IsEndpoint;
    TypeOf(s);
    Codes(s[1]);
    SmallWords(s[2], s[3]);
    SmallWords(s[4], s[5]);
    SmallWords(s[6], s[7]);
    SetupBytes(s);
    Rejected(s, scratch, d, line);
    LineFulfils(d, scratch, line);
  }

  lemma {:induction false} LineFulfils(d: Descriptors, scratch: seq<byte>, line: seq<byte>)
    requires |line| == LINE_LEN
    ensures Fulfils(Bytes(line), Resolution(Reply(LineCoding, LINE_LEN, LINE_LEN), scratch), LINE_LEN, d, line)
  {
  }

  /** Every SETUP packet there is gets the answer due. */
  lemma {:induction false} ResolverFulfils(
      s: Setup, configured: bool, d: Descriptors, scratch: seq<byte>, line: seq<byte>)
    requires |scratch| == SCRATCH && |line| == LINE_LEN
    ensures var config := if configured then 1 else 0;
            Fulfils(AnswerTo(s, config, line, d), Resolve(s, configured, d, scratch), WLength(s), d, line)
  {
    hide IntOf, Word, Kind, Recipient, DirIn, Fulfils, Standard, ClassRequest, AnswerTo;
    if IntOf(Kind(s)) == 0 {
      StandardFulfils(s, configured, d, scratch, line);
    } else if IntOf(Kind(s)) == 0x20 {
      ClassFulfils(s, if configured then 1 else 0, d, scratch, line);
    } else {
      NothingDue(s, if configured then 1 else 0, line, d);
      Rejected(s, scratch, d, line);
    }
  }

  /** Requests of another type are rejected. */
  lemma {:induction false} NothingDue(s: Setup, config: int, line: seq<byte>, d: Descriptors)
    requires IntOf(Kind(s)) != 0 && IntOf(Kind(s)) != 0x20
    ensures AnswerTo(s, config, line, d) == Reject
  {
    hide IntOf, Kind, Recipient, DirIn, DescriptorAnswer, IsEndpoint;
    TypeOf(s);
  }

  // ---- What the host gets, over whole runs ----

  /** The data stage of an answer: the first min(length, wLength) bytes, in packets. */
  function DataStage(msg: seq<byte>, wlen: nat): seq<seq<byte>> {
    var part := if |msg| > wlen then msg[..wlen] else msg;
    Packets(part, ZlpNeeded(|part|, wlen, 64))
  }

  /** The SETUP is answered from `e` on: the host that goes on asking the same address takes the packets due. */
  ghost predicate Answered(e: Dev, a: Answer, wlen: nat, noises: seq<seq<Ev>>) {
    match a
    case Bytes(msg) =>
      |noises| == |DataStage(msg, wlen)| && AllElsewhere(noises) ==>
        && Taken(e, e.daddr, noises) == DataStage(msg, wlen)
        && var f := AfterRounds(e, e.daddr, noises);
           f.ep0.statTx.Nak? && f.ep0.statRx.Valid?
    case Acknowledge => e.ep0.statTx.Valid? && Sent0(e) == []
    case TakeLine => e.ep0.statRx.Valid? && e.ep0.statTx.Nak? && e.ctl.outData
    case Reject => e.ep0.statRx.Stalled? && e.ep0.statTx.Stalled?
  }

  lemma {:induction false} ServedKeepsDesc(desc: Descriptors, pma: Memory, bs: seq<Bus>)
    ensures ServeAll(PowerOn(desc, pma), bs).desc == desc
  {
    ServedRunsAreRuns(PowerOn(desc, pma), bs);
    UsbStale.DescIsKept(PowerOn(desc, pma), AllEvents(bs));
    hide ServeAll, RunOf, AllEvents;
  }

  /** The device with the SETUP waiting. */
  lemma {:induction false} Waiting(d: Dev, t: Spec, s: Setup)
    requires Agrees(d, t) && t.up
    ensures var c := Apply(d, EvSetup(s));
            && Sound(c) && c.ep0.ctrRx && c.ep0.setup && !c.ep0.ctrTx && Read(c.pma, EP0_RX, 8) == s
            && c.configured == d.configured && c.desc == d.desc && c.ctl == d.ctl && c.daddr == d.daddr
            && |c.ctl.strbuf| == SCRATCH && Ep0Handler(c) == Serve(d, SetupPacket(s))
            && (c.configured <==> t.config == 1) && c.ctl.line == t.line && |t.line| == LINE_LEN
  {
    ApplyKeepsSound(d, EvSetup(s));
    ReadWritten(d.pma, EP0_RX, s);
    hide Write, Read, Ep0Handler, AcceptsAddress;
  }

  /** What is sent of an answer is what was due. */
  lemma {:induction false} MessageIsDue(c: Dev, s: Setup, msg: seq<byte>)
    requires Sound(c) && |c.ctl.strbuf| == SCRATCH && Read(c.pma, EP0_RX, 8) == s
    requires Fulfils(Bytes(msg), Resolve(s, c.configured, c.desc, c.ctl.strbuf), WLength(s), c.desc, c.ctl.line)
    ensures Resolved(c).TxData? && Message(c) == (if |msg| > WLength(s) then msg[..WLength(s)] else msg)
    ensures Resolved(c).zlp == ZlpNeeded(|Message(c)|, WLength(s), 64)
    ensures DataStage(msg, WLength(s)) == Packets(Message(c), Resolved(c).zlp)
  {
    hide Read, Resolve, Word, Packets, Sound;
    var r := Resolved(c);
    var mem := MemoryOf(r.src, c.desc, Latched(c).ctl.strbuf, c.ctl.line);
    assert mem[0..r.len] == mem[..r.len];
    assert |msg| <= WLength(s) ==> msg[..|msg|] == msg;
  }

  lemma {:induction false} DataAnswered(c: Dev, s: Setup, msg: seq<byte>, noises: seq<seq<Ev>>)
    requires Sound(c) && c.ep0.ctrRx && c.ep0.setup && !c.ep0.ctrTx
    requires |c.ctl.strbuf| == SCRATCH && Read(c.pma, EP0_RX, 8) == s
    requires Fulfils(Bytes(msg), Resolve(s, c.configured, c.desc, c.ctl.strbuf), WLength(s), c.desc, c.ctl.line)
    ensures Answered(Ep0Handler(c), Bytes(msg), WLength(s), noises)
  {
    MessageIsDue(c, s, msg);
    hide Read, Resolve, Sound, Message, Resolved, Ep0Handler, Taken, AfterRounds, Packets, DataStage, Fulfils;
    if |noises| == |DataStage(msg, WLength(s))| && AllElsewhere(noises) {
      ControlRead(c, noises);
      SetupStartsStage(c);
      ReceptionArmed(c);
      RoundsKeepReception(Ep0Handler(c), Ep0Handler(c).daddr, noises);
    }
  }

  /** A data answer also arms the reception of the status stage. */
  lemma {:induction false} ReceptionArmed(c: Dev)
    requires AsksForData(c) && !c.ep0.ctrTx
    ensures var e := Ep0Handler(c); e.ep0.statRx.Valid? && !e.ep0.ctrRx && !e.ep0.ctrTx && Sound(e)
  {
    Ep0KeepsSound(c);
    hide Resolve, Read, Write;
    var e := c.(ep0 := c.ep0.(ctrRx := false));
    SetupIsExecuted(e);
    BeginSummary(Latched(e), Resolved(c));
    hide Ep0BeginIn;
  }

  /** Nothing that happens in a data stage touches the reception side of EP0. */
  lemma {:induction false} RoundsKeepReception(d: Dev, addr: nat, noises: seq<seq<Ev>>)
    requires Sound(d) && !d.ep0.ctrRx && !d.ep0.ctrTx && AllElsewhere(noises)
    ensures AfterRounds(d, addr, noises).ep0.statRx == d.ep0.statRx
    decreases |noises|
  {
    if noises != [] {
      hide RunOf, Sound, RoundAt;
      NoiseKeepsPacket(d, noises[0]);
      RoundKeepsReception(RunOf(d, noises[0]), addr);
      RoundsKeepReception(RoundAt(RunOf(d, noises[0]), addr), addr, noises[1..]);
    }
  }

  lemma {:induction false} RoundKeepsReception(d: Dev, addr: nat)
    requires Sound(d) && !d.ep0.ctrRx && !d.ep0.ctrTx
    ensures var e := RoundAt(d, addr); Sound(e) && e.ep0.statRx == d.ep0.statRx && !e.ep0.ctrRx && !e.ep0.ctrTx
  {
    SoundScratch(d);
    RoundIsTx(d);
    RoundIsSound(d);
    hide Sound, Round, Ep0Tx;
    TxSummary(InTaken0(d));
  }

  lemma {:induction false} RoundIsTx(d: Dev)
    requires |d.ctl.strbuf| == SCRATCH && !d.ep0.ctrRx && !d.ep0.ctrTx
    ensures Round(d) == if d.ep0.statTx.Valid? then Ep0Tx(InTaken0(d)) else d
  {
    hide Ep0Rx, Ep0Tx;
  }

  lemma {:induction false} RoundIsSound(d: Dev)
    requires Sound(d)
    ensures Sound(Round(d))
  {
    hide Sound, Apply;
    ApplyKeepsSound(d, EvIn0);
    ApplyKeepsSound(Apply(d, EvIn0), Serve0);
  }

  lemma {:induction false} OtherAnswered(c: Dev, s: Setup, a: Answer, noises: seq<seq<Ev>>)
    requires Sound(c) && c.ep0.ctrRx && c.ep0.setup && !c.ep0.ctrTx && c.ep0.statTx.Nak?
    requires |c.ctl.strbuf| == SCRATCH && Read(c.pma, EP0_RX, 8) == s && !a.Bytes?
    requires Fulfils(a, Resolve(s, c.configured, c.desc, c.ctl.strbuf), WLength(s), c.desc, c.ctl.line)
    ensures Answered(Ep0Handler(c), a, WLength(s), noises)
  {
    hide Read, Resolve, Write, Execute;
    var e := c.(ep0 := c.ep0.(ctrRx := false));
    SetupIsExecuted(e);
    ExecuteKeepsCtr(Latched(e), Resolved(e));
    if a.Acknowledge? {
      StatusArms(Latched(e), Resolved(e));
    } else {
      AwaitsOrStalls(Latched(e), Resolved(e));
    }
  }

  lemma {:induction false} AwaitsOrStalls(d: Dev, r: Response)
    requires d.ep0.statTx.Nak? && (r.ExpectOut? || r.Stall?)
    ensures var e := Execute(d, r);
            if r.Stall? then e.ep0.statRx.Stalled? && e.ep0.statTx.Stalled?
            else e.ep0.statRx.Valid? && e.ep0.statTx.Nak? && e.ctl.outData
  {
    hide Ep0BeginIn, ApplyConfig, Ep0SendStatus;
  }

  /**
   * Every request is answered as it should be, over every serviced run and for every SETUP packet: the device, the
   * configuration or a string descriptor, the status of the device, its interfaces and endpoints, the configuration
   * and the line coding as they are then, in exactly the packets of the first min(length, wLength) bytes, with
   * reception armed for the status stage; the requests without data by an empty status packet; the line coding is
   * awaited; everything else is stalled.
   */
  lemma {:induction false} EveryRequestAnswered(
      desc: Descriptors, pma: Memory, bs: seq<Bus>, s: Setup, noises: seq<seq<Ev>>)
    requires FollowAll(bs).up
    ensures var d, e := ServeAll(PowerOn(desc, pma), bs), ServeAll(PowerOn(desc, pma), bs + [SetupPacket(s)]);
            var t := FollowAll(bs);
            e.daddr == d.daddr && Answered(e, AnswerTo(s, t.config, t.line, desc), WLength(s), noises)
  {
    AgreeAll(desc, pma, bs);
    ServedKeepsDesc(desc, pma, bs);
    var d, t := ServeAll(PowerOn(desc, pma), bs), FollowAll(bs);
    ServeLast(PowerOn(desc, pma), bs, SetupPacket(s));
    hide ServeAll, FollowAll, PowerOn, Serve, Fulfils, AnswerTo, Answered, Resolve, Ep0Handler, Sound, Read, Agrees;
    SetupKeepsAddress(d, t, s);
    Waiting(d, t, s);
    NothingArmed(d, t, s);
    var c := Apply(d, EvSetup(s));
    hide Apply;
    ConfigIsBit(d, t);
    ResolverFulfils(s, c.configured, c.desc, c.ctl.strbuf, c.ctl.line);
    var a := AnswerTo(s, t.config, t.line, desc);
    if a.Bytes? {
      DataAnswered(c, s, a.msg, noises);
    } else {
      OtherAnswered(c, s, a, noises);
    }
  }

  lemma {:induction false} NothingArmed(d: Dev, t: Spec, s: Setup)
    requires Agrees(d, t) && t.up
    ensures Apply(d, EvSetup(s)).ep0.statTx.Nak?
  {
    hide Write;
  }

  lemma {:induction false} ConfigIsBit(d: Dev, t: Spec)
    requires Agrees(d, t)
    ensures t.config == if d.configured then 1 else 0
  {
  }

  /**
   * Section 9.4.7 of USB 2.0: over every serviced run, SET_CONFIGURATION(1) leaves the bulk endpoint ready to receive
   * with nothing armed, both toggles at DATA0 and no completion, the notification endpoint NAKing at DATA0, and what is
   * queued to be sent; SET_CONFIGURATION(0) leaves both disabled and nothing queued.
   */
  lemma {:induction false} ConfigurationSets(desc: Descriptors, pma: Memory, bs: seq<Bus>, v: byte)
    requires FollowAll(bs).up && (v == 0 || v == 1)
    ensures var d := ServeAll(PowerOn(desc, pma), bs);
            var e := ServeAll(PowerOn(desc, pma), bs + [SetupPacket(SetConfiguration(v))]);
            && e.configured == (v == 1) && !e.busy
            && if v == 1 then
                 && e.ep1 == Ep(false, false, Valid, d.ep1.setup, false, false, Nak, 0x0001)
                 && e.ep2 == Ep(false, false, d.ep2.statRx, d.ep2.setup, false, false, Nak, 0x0602)
                 && e.tx1 == 0 && e.fifo == d.fifo
               else
                 && e.ep1 == d.ep1.(statRx := Disabled, statTx := Disabled) && e.ep2 == d.ep2.(statTx := Disabled)
                 && e.fifo == []
  {
    var s := SetConfiguration(v);
    AgreeAll(desc, pma, bs);
    var d, t := ServeAll(PowerOn(desc, pma), bs), FollowAll(bs);
    ServeLast(PowerOn(desc, pma), bs, SetupPacket(s));
    hide ServeAll, FollowAll, PowerOn, Serve, Agrees;
    Configured(d, t, v);
  }

  lemma {:induction false} Configured(d: Dev, t: Spec, v: byte)
    requires Agrees(d, t) && t.up && (v == 0 || v == 1)
    ensures var e := Serve(d, SetupPacket(SetConfiguration(v)));
            && e.configured == (v == 1) && !e.busy
            && if v == 1 then
                 && e.ep1 == Ep(false, false, Valid, d.ep1.setup, false, false, Nak, 0x0001)
                 && e.ep2 == Ep(false, false, d.ep2.statRx, d.ep2.setup, false, false, Nak, 0x0602)
                 && e.tx1 == 0 && e.fifo == d.fifo
               else
                 && e.ep1 == d.ep1.(statRx := Disabled, statTx := Disabled) && e.ep2 == d.ep2.(statTx := Disabled)
                 && e.fifo == []
  {
    var s := SetConfiguration(v);
    Waiting(d, t, s);
    var c := Apply(d, EvSetup(s));
    assert SameEp1(d, c);
    Numerals();
    AcceptedPackets(s, c.configured, c.desc, c.ctl.strbuf);
    hide Read, Write, Resolve, Ep0Handler, Serve, Agrees;
    Ep0AndEp1(c);
  }

  /** What the packets of a data stage add up to. */
  lemma {:induction false} StageCarries(msg: seq<byte>, wlen: nat)
    ensures Joined(DataStage(msg, wlen)) == if |msg| > wlen then msg[..wlen] else msg
  {
    var part := if |msg| > wlen then msg[..wlen] else msg;
    PacketsJoin(part, ZlpNeeded(|part|, wlen, 64));
  }

  /** The empty OUT packet that ends a read is taken, and leaves EP0 as ready for the next as before. */
  lemma {:induction false} ReadEnds(d: Dev)
    requires Sound(d) && d.ep0.statRx.Valid? && !d.ep0.ctrRx && !d.ep0.ctrTx && !d.ctl.outData
    ensures Apply(d, EvOut([])).ep0.ctrRx
    ensures var e := Serve(d, OutPacket([]));
            e.ep0.statRx.Valid? && e.ep0.statTx == d.ep0.statTx && !e.ep0.ctrRx && e.ctl == d.ctl && e.daddr == d.daddr
  {
    SoundScratch(d);
    hide Write, Sound, HandleSetup, Ep0Tx;
  }

  /**
   * A bus reset, served, leaves the default state of section 9.1.1.3 of USB 2.0 whatever was before: EP0 ready for a
   * SETUP and with nothing armed, address 0, not configured, nothing queued and the default line coding.
   */
  lemma {:induction false} ResetToDefault(d: Dev)
    requires Sound(d)
    ensures var e := Serve(d, Reset);
            && e.ep0 == Ep(false, false, Valid, false, false, false, Nak, 0x0200)
            && e.daddr == 0x80 && !e.configured && !e.busy && e.fifo == [] && !e.resetPending
            && e.ctl.line == [0x00, 0xC2, 0x01, 0x00, 0x00, 0x00, 0x08]
            && e.ctl.rem == 0 && !e.ctl.zlp && !e.ctl.outData && !e.ctl.addrPending
  {
  }
}
