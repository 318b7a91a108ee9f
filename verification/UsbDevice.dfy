/**
 * The USB device as a state machine: the driver's handlers, the bus and the peripheral. Every handler is masked
 * against every other, so each is one step; bus events come in between, at any time.
 */
module UsbDevice {
  import opened Bytes
  import opened EpReg
  import opened Pma
  import opened UsbCtrl

  const EP0_TX: nat := 0x040
  const EP0_RX: nat := 0x080
  const EP1_TX: nat := 0x0C0
  const EP1_RX: nat := 0x100
  const BULK_MAX: nat := 64
  const TX_USABLE: nat := 255
  const DADDR_EF: nat := 0x80
  const LINE_DEFAULT: seq<byte> := [0x00, 0xC2, 0x01, 0x00, 0x00, 0x00, 0x08]

  /** The state of the control transfer under way, and what it may read from. */
  datatype Control = Control(
    src: Source, off: nat,      // the pointer to the data still to send
    rem: nat, zlp: bool,
    outData: bool,              // an OUT data stage is expected
    addrPending: bool, pendingAddr: nat,
    strbuf: seq<byte>, setup: Setup, line: seq<byte>)

  datatype Dev = Dev(
    desc: Descriptors,
    ep0: Ep, ep1: Ep, ep2: Ep,
    pma: Memory,
    tx0: nat, rx0: nat, tx1: nat,   // byte counts in the buffer table
    daddr: nat,
    resetPending: bool,             // the peripheral has seen a bus reset the driver has not served
    fifo: seq<byte>, busy: bool, configured: bool,
    ctl: Control)

  const NO_EP := Ep(false, false, Disabled, false, false, false, Disabled, 0)

  /** After power-on initialisation, before the first bus reset. */
  function PowerOn(desc: Descriptors, pma: Memory): Dev {
    Dev(desc, NO_EP, NO_EP, NO_EP, pma, 0, 0, 0, 0, false, [], false, false,
        Control(Nowhere, 0, 0, false, false, false, 0, seq(SCRATCH, _ => 0), [0, 0, 0, 0, 0, 0, 0, 0], LINE_DEFAULT))
  }

  // ---- EP0 ----

  function Mem(d: Dev): seq<byte> { MemoryOf(d.ctl.src, d.desc, d.ctl.strbuf, d.ctl.line) }

  /** The bytes behind the pointer; out of bounds there is no telling what they are. */
  function Behind(mem: seq<byte>, off: nat, n: nat): (s: seq<byte>)
    ensures |s| == n
  {
    if off + n <= |mem| then mem[off..off + n] else seq(n, _ => 0)
  }

  function Chunk(rem: nat): nat { if rem > EP0_MAX then EP0_MAX else rem }

  function Ep0InContinue(d: Dev): Dev {
    var n := Chunk(d.ctl.rem);
    d.(pma := Write(d.pma, EP0_TX, Behind(Mem(d), d.ctl.off, n)), tx0 := n,
       ctl := d.ctl.(off := d.ctl.off + n, rem := d.ctl.rem - n), ep0 := d.ep0.(statTx := Valid))
  }

  function Ep0BeginIn(d: Dev, src: Source, len: nat, zlp: bool): Dev {
    var e := Ep0InContinue(d.(ctl := d.ctl.(src := src, off := 0, rem := len, zlp := zlp)));
    e.(ep0 := e.ep0.(statRx := Valid))
  }

  function Ep0SendStatus(d: Dev): Dev {
    d.(tx0 := 0, ctl := d.ctl.(src := Nowhere, off := 0, rem := 0, zlp := false), ep0 := d.ep0.(statTx := Valid))
  }

  function Ep0Stall(d: Dev): Dev { d.(ep0 := d.ep0.(statTx := Stalled, statRx := Stalled)) }

  function ApplyConfig(d: Dev, cfg: int): Dev {
    if cfg == 1 then
      d.(ep1 := d.ep1.(ctrRx := false, ctrTx := false, plain := TYPE_BULK | 1,
                       dtogRx := false, dtogTx := false, statRx := Valid, statTx := Nak),
         ep2 := d.ep2.(ctrRx := false, ctrTx := false, plain := TYPE_INTERRUPT | 2,
                       dtogRx := false, dtogTx := false, statTx := Nak),
         tx1 := 0, busy := false, configured := true)
    else
      d.(ep1 := d.ep1.(statRx := Disabled, statTx := Disabled), ep2 := d.ep2.(statTx := Disabled),
         fifo := [], busy := false, configured := false)
  }

  function Execute(d: Dev, r: Response): Dev {
    match r
    case TxData(src, len, zlp) => Ep0BeginIn(d, src, len, zlp)
    case ExpectOut => d.(ctl := d.ctl.(outData := true), ep0 := d.ep0.(statRx := Valid))
    case StatusStage(addr, cfg) =>
      var e := if addr >= 0 then d.(ctl := d.ctl.(pendingAddr := addr, addrPending := true)) else d;
      Ep0SendStatus(if cfg >= 0 then ApplyConfig(e, cfg) else e)
    case Stall => Ep0Stall(d)
  }

  function HandleSetup(d: Dev): Dev
    requires |d.ctl.strbuf| == SCRATCH
  {
    var s := Read(d.pma, EP0_RX, 8);
    var res := Resolve(s, d.configured, d.desc, d.ctl.strbuf);
    Execute(d.(ctl := d.ctl.(setup := s, src := Nowhere, off := 0, rem := 0, zlp := false, outData := false,
                             strbuf := res.scratch)), res.r)
  }

  /** The reception half of the EP0 handler. */
  function Ep0Rx(d: Dev): Dev
    requires |d.ctl.strbuf| == SCRATCH
  {
    var e := d.(ep0 := d.ep0.(ctrRx := false));
    if d.ep0.setup then HandleSetup(e)
    else if d.ctl.outData then
      var line := if d.rx0 >= LINE_LEN then Read(d.pma, EP0_RX, LINE_LEN) else d.ctl.line;
      var f := Ep0SendStatus(e.(ctl := e.ctl.(line := line, outData := false)));
      f.(ep0 := f.ep0.(statRx := Valid))
    else e.(ep0 := e.ep0.(statRx := Valid))
  }

  /** The transmission half. */
  function Ep0Tx(d: Dev): Dev {
    var e := d.(ep0 := d.ep0.(ctrTx := false));
    if e.ctl.rem > 0 then Ep0InContinue(e)
    else if e.ctl.zlp then e.(tx0 := 0, ctl := e.ctl.(zlp := false), ep0 := e.ep0.(statTx := Valid))
    else if e.ctl.addrPending then e.(daddr := DADDR_EF + e.ctl.pendingAddr, ctl := e.ctl.(addrPending := false))
    else e
  }

  function Ep0Handler(d: Dev): Dev
    requires |d.ctl.strbuf| == SCRATCH
  {
    var e := if d.ep0.ctrRx then Ep0Rx(d) else d;
    if e.ep0.ctrTx then Ep0Tx(e) else e
  }

  // ---- EP1 ----

  function Ep1Handler(d: Dev): Dev {
    var e := if d.ep1.ctrRx then d.(ep1 := d.ep1.(ctrRx := false, statRx := Valid)) else d;
    if e.ep1.ctrTx then e.(ep1 := e.ep1.(ctrTx := false), busy := false) else e
  }

  /** Completions of an endpoint the driver does not expect to hear from are dropped. */
  function DropFromEp2(d: Dev): Dev { d.(ep2 := d.ep2.(ctrRx := false, ctrTx := false)) }

  function UsbReset(d: Dev): Dev {
    d.(resetPending := false, tx0 := 0, rx0 := 0,
       ep0 := d.ep0.(ctrRx := false, ctrTx := false, plain := TYPE_CONTROL, statRx := Valid, statTx := Nak),
       ctl := d.ctl.(src := Nowhere, off := 0, rem := 0, zlp := false, outData := false,
                     addrPending := false, pendingAddr := 0, line := LINE_DEFAULT),
       configured := false, busy := false, fifo := [], daddr := DADDR_EF)
  }

  predicate Accepts(d: Dev, buf: seq<byte>) { |buf| <= TX_USABLE - |d.fifo| }

  function CdcWrite(d: Dev, buf: seq<byte>): Dev { if Accepts(d, buf) then d.(fifo := d.fifo + buf) else d }

  /** The poll hands a packet to the peripheral. */
  predicate Arms(d: Dev) { d.configured && !d.busy && d.fifo != [] }

  function Packet(d: Dev): (s: seq<byte>)
    ensures |s| <= BULK_MAX && (d.fifo != [] ==> s != [])
  {
    d.fifo[..if |d.fifo| > BULK_MAX then BULK_MAX else |d.fifo|]
  }

  function CdcPoll(d: Dev): Dev {
    if Arms(d) then
      d.(fifo := d.fifo[|Packet(d)|..], pma := Write(d.pma, EP1_TX, Packet(d)), tx1 := |Packet(d)|,
         busy := true, ep1 := d.ep1.(statTx := Valid))
    else d
  }

  // ---- The bus and the peripheral ----

  /** A bus reset clears the endpoint registers except their CTR bits. */
  function ResetRegister(e: Ep): Ep { NO_EP.(ctrRx := e.ctrRx, ctrTx := e.ctrTx) }

  function BusReset(d: Dev): Dev {
    d.(resetPending := true, ep0 := ResetRegister(d.ep0), ep1 := ResetRegister(d.ep1), ep2 := ResetRegister(d.ep2))
  }

  /** A SETUP packet is taken whenever EP0 is enabled, and leaves both directions NAK. */
  function SetupArrives(d: Dev, s: Setup): Dev {
    if d.ep0.statRx.Disabled? then d
    else d.(pma := Write(d.pma, EP0_RX, s), rx0 := 8,
            ep0 := d.ep0.(ctrRx := true, setup := true, statRx := Nak, statTx := Nak))
  }

  function OutArrives(d: Dev, bytes: seq<byte>): Dev
    requires |bytes| <= EP0_MAX
  {
    if !d.ep0.statRx.Valid? then d
    else d.(pma := Write(d.pma, EP0_RX, bytes), rx0 := |bytes|,
            ep0 := d.ep0.(ctrRx := true, setup := false, statRx := Nak, dtogRx := !d.ep0.dtogRx))
  }

  function BulkOutArrives(d: Dev, bytes: seq<byte>): Dev
    requires |bytes| <= BULK_MAX
  {
    if !d.ep1.statRx.Valid? then d
    else d.(pma := Write(d.pma, EP1_RX, bytes), ep1 := d.ep1.(ctrRx := true, statRx := Nak, dtogRx := !d.ep1.dtogRx))
  }

  /** What the host receives when it takes the armed packet of EP0, and of EP1. */
  function Sent0(d: Dev): seq<byte> { if d.tx0 <= EP0_MAX then Read(d.pma, EP0_TX, d.tx0) else [] }

  function Sent1(d: Dev): seq<byte> { if d.tx1 <= BULK_MAX then Read(d.pma, EP1_TX, d.tx1) else [] }

  /** An acknowledged IN packet sets CTR_TX and moves STAT_TX to NAK. */
  function InTaken0(d: Dev): Dev {
    if !d.ep0.statTx.Valid? then d
    else d.(ep0 := d.ep0.(ctrTx := true, statTx := Nak, dtogTx := !d.ep0.dtogTx))
  }

  function InTaken1(d: Dev): Dev {
    if !d.ep1.statTx.Valid? then d
    else d.(ep1 := d.ep1.(ctrTx := true, statTx := Nak, dtogTx := !d.ep1.dtogTx))
  }

  type Small = s: seq<byte> | |s| <= 64 witness []

  datatype Ev =
    | EvReset | EvSetup(s: Setup) | EvOut(data: Small) | EvIn0 | EvIn1 | EvBulkOut(data: Small)
    | ServeReset | Serve0 | Serve1 | Serve2
    | EvWrite(buf: seq<byte>) | EvPoll

  function Apply(d: Dev, e: Ev): Dev {
    match e
    case EvReset => BusReset(d)
    case EvSetup(s) => SetupArrives(d, s)
    case EvOut(data) => OutArrives(d, data)
    case EvIn0 => InTaken0(d)
    case EvIn1 => InTaken1(d)
    case EvBulkOut(data) => BulkOutArrives(d, data)
    case ServeReset => if d.resetPending then UsbReset(d) else d
    case Serve0 => if |d.ctl.strbuf| == SCRATCH then Ep0Handler(d) else d
    case Serve1 => Ep1Handler(d)
    case Serve2 => DropFromEp2(d)
    case EvWrite(buf) => CdcWrite(d, buf)
    case EvPoll => CdcPoll(d)
  }

  function RunOf(d: Dev, evs: seq<Ev>): Dev {
    if evs == [] then d else Apply(RunOf(d, evs[..|evs| - 1]), evs[|evs| - 1])
  }

  // ---- Memory invariant ----

  /** Sizes, and that the pointer of a control transfer stays inside what it points to. */
  ghost predicate Sound(d: Dev) {
    && |d.ctl.strbuf| == SCRATCH && |d.ctl.line| == LINE_LEN
    && d.ctl.off + d.ctl.rem <= |Mem(d)|
    && d.tx0 <= EP0_MAX && d.tx1 <= BULK_MAX && d.rx0 <= EP0_MAX
    && |d.fifo| <= TX_USABLE
    && (d.ctl.addrPending ==> d.ctl.pendingAddr <= 127)
  }

  lemma {:induction false} PowerOnSound(desc: Descriptors, pma: Memory)
    ensures Sound(PowerOn(desc, pma))
  {
  }

  lemma {:induction false} ContinueKeepsSound(d: Dev)
    requires Sound(d)
    ensures Sound(Ep0InContinue(d))
  {
    hide Write;
  }

  lemma {:induction false} ConfigKeepsSound(d: Dev, cfg: int)
    requires Sound(d)
    ensures Sound(ApplyConfig(d, cfg))
  {
  }

  lemma {:induction false} StatusKeepsSound(d: Dev)
    requires Sound(d)
    ensures Sound(Ep0SendStatus(d))
  {
  }

  lemma {:induction false} BeginKeepsSound(d: Dev, src: Source, len: nat, zlp: bool)
    requires Sound(d) && len <= |MemoryOf(src, d.desc, d.ctl.strbuf, d.ctl.line)|
    ensures Sound(Ep0BeginIn(d, src, len, zlp))
  {
    ContinueKeepsSound(d.(ctl := d.ctl.(src := src, off := 0, rem := len, zlp := zlp)));
    hide Ep0InContinue;
  }

  lemma {:induction false} ExecuteKeepsSound(d: Dev, r: Response)
    requires Sound(d)
    requires r.TxData? ==> r.len <= |MemoryOf(r.src, d.desc, d.ctl.strbuf, d.ctl.line)|
    requires r.StatusStage? ==> r.setAddress <= 127
    ensures Sound(Execute(d, r))
  {
    hide Ep0BeginIn, ApplyConfig, Ep0SendStatus, MemoryOf;
    match r
    case TxData(src, len, zlp) => BeginKeepsSound(d, src, len, zlp);
    case StatusStage(addr, cfg) =>
      var e := if addr >= 0 then d.(ctl := d.ctl.(pendingAddr := addr, addrPending := true)) else d;
      ConfigKeepsSound(e, cfg);
      StatusKeepsSound(if cfg >= 0 then ApplyConfig(e, cfg) else e);
    case _ =>
  }

  lemma {:induction false} LatchKeepsSound(d: Dev, s: Setup, scratch: seq<byte>)
    requires Sound(d) && |scratch| == SCRATCH
    ensures Sound(d.(ctl := d.ctl.(setup := s, src := Nowhere, off := 0, rem := 0, zlp := false, outData := false,
                                   strbuf := scratch)))
  {
  }

  lemma {:induction false} HandleSetupKeepsSound(d: Dev)
    requires Sound(d)
    ensures Sound(HandleSetup(d))
  {
    assert |d.ctl.strbuf| == SCRATCH && |d.ctl.line| == LINE_LEN;
    hide Read, Resolve, Sound, Execute, MemoryOf;
    var s := Read(d.pma, EP0_RX, 8);
    ResolutionIsSound(s, d.configured, d.desc, d.ctl.strbuf, d.ctl.line);
    var res := Resolve(s, d.configured, d.desc, d.ctl.strbuf);
    LatchKeepsSound(d, s, res.scratch);
    ExecuteKeepsSound(d.(ctl := d.ctl.(setup := s, src := Nowhere, off := 0, rem := 0, zlp := false, outData := false,
                                       strbuf := res.scratch)), res.r);
  }

  lemma {:induction false} Ep0RxKeepsSound(d: Dev)
    requires Sound(d)
    ensures Sound(Ep0Rx(d))
  {
    hide Write, Read, HandleSetup;
    if d.ep0.setup { HandleSetupKeepsSound(d.(ep0 := d.ep0.(ctrRx := false))); }
  }

  lemma {:induction false} Ep0TxKeepsSound(d: Dev)
    requires Sound(d)
    ensures Sound(Ep0Tx(d))
  {
    hide Write, Ep0InContinue;
    ContinueKeepsSound(d.(ep0 := d.ep0.(ctrTx := false)));
  }

  lemma {:induction false} Ep0KeepsSound(d: Dev)
    requires Sound(d)
    ensures Sound(Ep0Handler(d))
  {
    assert |d.ctl.strbuf| == SCRATCH;
    hide Sound, Ep0Rx, Ep0Tx;
    if d.ep0.ctrRx { Ep0RxKeepsSound(d); }
    var e := if d.ep0.ctrRx then Ep0Rx(d) else d;
    if e.ep0.ctrTx { Ep0TxKeepsSound(e); }
  }

  lemma {:induction false} ApplyKeepsSound(d: Dev, e: Ev)
    requires Sound(d)
    ensures Sound(Apply(d, e))
  {
    hide Write, Read, Ep0Handler;
    if e.Serve0? { Ep0KeepsSound(d); }
  }

  /** Over all runs the driver's own buffers and pointers stay in bounds. */
  lemma {:induction false} RunKeepsSound(d: Dev, evs: seq<Ev>)
    requires Sound(d)
    ensures Sound(RunOf(d, evs))
    decreases |evs|
  {
    if evs != [] {
      hide Apply, Sound;
      RunKeepsSound(d, evs[..|evs| - 1]);
      ApplyKeepsSound(RunOf(d, evs[..|evs| - 1]), evs[|evs| - 1]);
    }
  }
}
