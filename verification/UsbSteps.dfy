/**
 * The device machine one register, one table entry or one group of fields at a time: what the driver's routines do
 * between their first and last store adds up to the machine's steps.
 */
module UsbSteps {
  import opened Bytes
  import opened EpReg
  import opened Pma
  import opened UsbCtrl
  import opened UsbDevice
  import opened UsbInFlight
  import UsbRuns

  /** The half-words of the buffer table entry of an endpoint. */
  function TxAddr(n: nat): nat { 4 * n }
  function TxCount(n: nat): nat { 4 * n + 1 }
  function RxAddr(n: nat): nat { 4 * n + 2 }
  function RxCount(n: nat): nat { 4 * n + 3 }

  const TABLE: nat := 32           // half-words before the first buffer, with the buffer table in them
  const RXCOUNT_64: half := 0x8400

  const BLANK_MEMORY: Memory := seq(HALVES, _ => 0)

  /** The packet memory without the buffer table. */
  function Buffers(m: Memory): Memory {
    seq(HALVES, i requires 0 <= i < HALVES => if i < TABLE then 0 else m[i])
  }

  /** A byte count as the buffer table holds it, and the count in an entry: its bits 9 to 0. */
  function CountWord(n: nat): half
    requires n < 256
  {
    Pack(ByteOf(n), 0)
  }

  function CountOf(w: half): nat { IntOf(Lo(w)) + 256 * IntOf(Hi(w) & 0x03) }

  lemma {:induction false} CountKept(n: nat)
    requires n < 256
    ensures CountOf(CountWord(n)) == n
  {
    IntOfByteOf(n);
    Unpack(ByteOf(n), 0);
    hide Lo, Hi, Pack, ByteOf;
  }

  lemma {:induction false} Zeros()
    ensures CountOf(0) == 0 && Decode(0) == NO_EP && IntOf(0) == 0 && IntOf(0x80) == DADDR_EF
    ensures Buffers(BLANK_MEMORY) == BLANK_MEMORY
  {
  }

  lemma {:induction false} EmptyReception()
    ensures CountOf(RXCOUNT_64) == 0
  {
  }

  lemma {:induction false} BuffersWritten(m: Memory, off: nat, src: seq<byte>)
    requires Fits(off, |src|) && off >= 2 * TABLE
    ensures Buffers(Write(m, off, src)) == Write(Buffers(m), off, src)
    ensures forall i :: 0 <= i < TABLE ==> Write(m, off, src)[i] == m[i]
  {
    hide HalfOf;
  }

  lemma {:induction false} BuffersRead(m: Memory, off: nat, n: nat)
    requires Fits(off, n) && off >= 2 * TABLE
    ensures Read(Buffers(m), off, n) == Read(m, off, n)
  {
    hide Lo, Hi;
  }

  lemma {:induction false} TableWritten(m: Memory, i: nat, w: half)
    requires i < TABLE
    ensures Buffers(m[i := w]) == Buffers(m)
  {
  }

  // ---- The buffer table ----

  /** Where the peripheral finds the packet buffers, and the sizes it allows: what the table holds beside the counts. */
  datatype Table = Table(tx0: half, rx0: half, size0: half, tx1: half, rx1: half, size1: half, tx2: half)

  function TableOf(m: Memory): Table {
    Table(m[TxAddr(0)], m[RxAddr(0)], SizeOf(m[RxCount(0)]), m[TxAddr(1)], m[RxAddr(1)], SizeOf(m[RxCount(1)]),
          m[TxAddr(2)])
  }

  /** The block size and number beside a reception count. */
  function SizeOf(w: half): half { w & 0xFC00 }

  /** The entries of EP0 after a bus reset, and those of EP1 and EP2 after SET_CONFIGURATION(1). */
  function ControlMapped(a: Table): Table { a.(tx0 := 0x40, rx0 := 0x80, size0 := 0x8400) }

  function DataMapped(a: Table): Table { a.(tx1 := 0xC0, rx1 := 0x100, size1 := 0x8400) }

  function Remapped(a: Table, cfg: int): Table { if cfg == 1 then DataMapped(a).(tx2 := 0x140) else a }

  function AddressPut(a: Table, i: nat, w: half): Table {
    if i == TxAddr(0) then a.(tx0 := w)
    else if i == RxAddr(0) then a.(rx0 := w)
    else if i == TxAddr(1) then a.(tx1 := w)
    else if i == RxAddr(1) then a.(rx1 := w)
    else a.(tx2 := w)
  }

  function SizePut(a: Table, n: nat): Table { if n == 0 then a.(size0 := 0x8400) else a.(size1 := 0x8400) }

  lemma {:induction false} TableKept(m: Memory, off: nat, src: seq<byte>)
    requires Fits(off, |src|) && off >= 2 * TABLE
    ensures TableOf(Write(m, off, src)) == TableOf(m)
  {
    BuffersWritten(m, off, src);
    hide Write;
  }

  lemma {:induction false} CountIsNoAddress(m: Memory, n: nat, w: half)
    requires n < 3
    ensures TableOf(m[TxCount(n) := w]) == TableOf(m)
  {
    hide SizeOf;
  }

  lemma {:induction false} AddressSet(m: Memory, w: half)
    ensures TableOf(m[TxAddr(0) := w]) == TableOf(m).(tx0 := w) && TableOf(m[RxAddr(0) := w]) == TableOf(m).(rx0 := w)
    ensures TableOf(m[TxAddr(1) := w]) == TableOf(m).(tx1 := w) && TableOf(m[RxAddr(1) := w]) == TableOf(m).(rx1 := w)
    ensures TableOf(m[TxAddr(2) := w]) == TableOf(m).(tx2 := w)
  {
    hide SizeOf;
  }

  lemma {:induction false} SizeSet(m: Memory, w: half)
    ensures TableOf(m[RxCount(0) := w]) == TableOf(m).(size0 := SizeOf(w))
    ensures TableOf(m[RxCount(1) := w]) == TableOf(m).(size1 := SizeOf(w))
  {
    hide SizeOf;
  }

  lemma {:induction false} SizeKept(w: half, n: nat)
    requires n < 256
    ensures SizeOf(ReceptionStored(w, n)) == SizeOf(w)
  {
    SizeBits(w, ByteOf(n));
    hide Pack, ByteOf;
  }

  lemma {:induction false} SizeBits(w: half, b: byte)
    ensures ((w & 0xFC00) | Pack(b, 0)) & 0xFC00 == w & 0xFC00 && SizeOf(RXCOUNT_64) == 0x8400
  {
  }

  function OffsetOf(w: half): nat { w as nat }

  lemma {:induction false} Offsets()
    ensures OffsetOf(0x40) == EP0_TX && OffsetOf(0x80) == EP0_RX && OffsetOf(0xC0) == EP1_TX
    ensures OffsetOf(0x100) == EP1_RX
  {
  }

  /** The endpoint has been set up: it answers, or has answered. */
  predicate Live0(d: Dev) {
    !d.ep0.statRx.Disabled? || !d.ep0.statTx.Disabled? || d.ep0.ctrRx || d.ep0.ctrTx || d.daddr >= DADDR_EF
  }

  predicate Live1(d: Dev) {
    d.configured || !d.ep1.statRx.Disabled? || !d.ep1.statTx.Disabled? || d.ep1.ctrRx
  }

  predicate Live2(d: Dev) { d.configured || !d.ep2.statTx.Disabled? }

  /** Every endpoint that is set up has its buffers where the driver puts and finds the packets, 64 bytes each. */
  predicate Mapped(a: Table, d: Dev) {
    && (Live0(d) ==> a.tx0 == 0x40 && a.rx0 == 0x80 && a.size0 == 0x8400)
    && (Live1(d) ==> a.tx1 == 0xC0 && a.rx1 == 0x100 && a.size1 == 0x8400)
    && (Live2(d) ==> a.tx2 == 0x140)
  }

  /** The configuration a waiting SETUP asks for, or -1. */
  function ConfigIn(d: Dev): int {
    if |d.ctl.strbuf| != SCRATCH then -1
    else
      var r := Resolve(Read(d.pma, EP0_RX, 8), d.configured, d.desc, d.ctl.strbuf).r;
      if r.StatusStage? then r.setConfig else -1
  }

  lemma {:induction false} WhichConfig(d: Dev)
    requires |d.ctl.strbuf| == SCRATCH
    ensures ConfigOf(d) == if d.ep0.ctrRx && d.ep0.setup then ConfigIn(d) else -1
    ensures ConfigIn(CtrRxCleared(d, 0)) == ConfigIn(d)
  {
    hide Read, Resolve;
  }

  lemma {:induction false} HandlerMaps(a: Table, d: Dev)
    requires |d.ctl.strbuf| == SCRATCH
    ensures TableAfter(a, d, Serve0) ==
            if d.ep0.ctrRx then Remapped(a, if d.ep0.setup then ConfigIn(d) else -1) else a
  {
    WhichConfig(d);
    hide ConfigIn, ConfigOf;
  }

  /** What an event does to the entries. */
  function TableAfter(a: Table, d: Dev, e: Ev): Table {
    match e
    case ServeReset => if d.resetPending then ControlMapped(a) else a
    case Serve0 => if |d.ctl.strbuf| == SCRATCH then Remapped(a, ConfigOf(d)) else a
    case _ => a
  }

  lemma {:induction false} StaysMapped(a: Table, d: Dev, e: Ev)
    requires Sound(d) && Mapped(a, d)
    ensures Mapped(TableAfter(a, d, e), Apply(d, e))
  {
    hide Sound, Mapped, ConfigOf, UsbDevice.Ep0Handler, Live0, Live1, Live2, ControlMapped, Remapped, Apply;
    if e.Serve0? {
      ServedStaysMapped(a, d);
      ServeApplies(d);
    } else if e.ServeReset? {
      ResetStaysMapped(a, d);
    } else {
      StaysLive(d, e);
      LessLive(a, d, Apply(d, e));
    }
  }

  lemma {:induction false} ServeApplies(d: Dev)
    requires |d.ctl.strbuf| == SCRATCH
    ensures Apply(d, Serve0) == UsbDevice.Ep0Handler(d)
  {
    hide UsbDevice.Ep0Handler;
  }

  lemma {:induction false} ResetStaysMapped(a: Table, d: Dev)
    requires Mapped(a, d)
    ensures Mapped(if d.resetPending then ControlMapped(a) else a, Apply(d, ServeReset))
  {
    ResetLive(d);
    hide Apply, Live0, Live1, Live2;
  }

  lemma {:induction false} ResetLive(d: Dev)
    ensures var f := Apply(d, ServeReset);
            (Live1(f) ==> Live1(d)) && (Live2(f) ==> Live2(d)) && (!d.resetPending ==> f == d)
  {
  }

  /** Nothing but a bus reset served or a SETUP served sets up an endpoint. */
  lemma {:induction false} StaysLive(d: Dev, e: Ev)
    requires !e.Serve0? && !e.ServeReset?
    ensures var f := Apply(d, e);
            (Live0(f) ==> Live0(d)) && (Live1(f) ==> Live1(d)) && (Live2(f) ==> Live2(d))
  {
    hide Write, Read, UsbDevice.Ep0Handler;
  }

  lemma {:induction false} LessLive(a: Table, d: Dev, f: Dev)
    requires Mapped(a, d) && (Live0(f) ==> Live0(d)) && (Live1(f) ==> Live1(d)) && (Live2(f) ==> Live2(d))
    ensures Mapped(a, f)
  {
    hide Live0, Live1, Live2;
  }

  lemma {:induction false} ServedStaysMapped(a: Table, d: Dev)
    requires Sound(d) && Mapped(a, d)
    ensures |d.ctl.strbuf| == SCRATCH && Mapped(Remapped(a, ConfigOf(d)), UsbDevice.Ep0Handler(d))
  {
    ScratchSize(d);
    Ep0AndEp1(d);
    hide Sound, ConfigOf, UsbDevice.Ep0Handler;
    Live0Stays(d);
    ConfigMaps(a, d, ConfigOf(d), UsbDevice.Ep0Handler(d));
  }

  lemma {:induction false} Live0Stays(d: Dev)
    requires |d.ctl.strbuf| == SCRATCH
    ensures Live0(UsbDevice.Ep0Handler(d)) ==> Live0(d)
  {
    hide UsbDevice.Ep0Rx, UsbDevice.Ep0Tx;
  }

  lemma {:induction false} ConfigMaps(a: Table, d: Dev, cfg: int, f: Dev)
    requires Mapped(a, d) && (Live0(f) ==> Live0(d))
    requires SameEp1(if cfg >= 0 then UsbDevice.ApplyConfig(d, cfg) else d, f)
    ensures Mapped(Remapped(a, cfg), f)
  {
    hide Live0;
  }

  lemma {:induction false} NothingLive(a: Table, desc: Descriptors)
    ensures Mapped(a, PowerOn(desc, BLANK_MEMORY))
  {
  }

  /** Where the peripheral finds the buffers of the endpoints that answer. */
  lemma {:induction false} WhereMapped(a: Table, d: Dev)
    requires Mapped(a, d)
    ensures !d.ep0.statRx.Disabled? ==> a.rx0 == 0x80
    ensures d.ep0.statTx.Valid? ==> a.tx0 == 0x40
    ensures d.ep1.statRx.Valid? ==> a.rx1 == 0x100
    ensures d.ep1.statTx.Valid? ==> a.tx1 == 0xC0
  {
  }

  lemma {:induction false} ServeApply(d: Dev, n: nat)
    requires n < 3 && |d.ctl.strbuf| == SCRATCH
    ensures Apply(d, ServeOf(n)) ==
            if n == 0 then UsbDevice.Ep0Handler(d) else if n == 1 then UsbDevice.Ep1Handler(d) else DropFromEp2(d)
  {
    hide UsbDevice.Ep0Handler, UsbDevice.Ep1Handler, DropFromEp2;
  }

  lemma {:induction false} QuietTable(a: Table, d: Dev)
    ensures TableAfter(a, d, Serve1) == a && TableAfter(a, d, Serve2) == a
  {
  }

  lemma {:induction false} CountReceived(m: Memory, n: nat, count: nat)
    requires n < 2 && count < 256
    ensures TableOf(m[RxCount(n) := ReceptionStored(m[RxCount(n)], count)]) == TableOf(m)
  {
    SizeKept(m[RxCount(n)], count);
    SizeSet(m, ReceptionStored(m[RxCount(n)], count));
    hide SizeOf, ReceptionStored;
  }

  lemma {:induction false} TakesWhat(d: Dev, e: Ev)
    ensures HostTakes(d, e) ==
            match e
            case EvIn0 => if d.ep0.statTx.Valid? then Sent0(d) else []
            case EvIn1 => if d.ep1.statTx.Valid? then Sent1(d) else []
            case _ => []
  {
    hide Sent0, Sent1;
  }

  /** What the host receives when it takes a packet. */
  function HostTakes(d: Dev, e: Ev): seq<byte> {
    if e.EvIn0? && d.ep0.statTx.Valid? then Sent0(d) else if e.EvIn1? && d.ep1.statTx.Valid? then Sent1(d) else []
  }

  lemma {:induction false} EnableAndAddress(a: byte)
    requires IntOf(a) <= 127
    ensures IntOf(0x80 | a) == DADDR_EF + IntOf(a)
  {
    assert a < 0x80;
  }

  function EpOf(d: Dev, n: nat): Ep { if n == 0 then d.ep0 else if n == 1 then d.ep1 else d.ep2 }

  function WithEp(d: Dev, n: nat, e: Ep): Dev {
    if n == 0 then d.(ep0 := e) else if n == 1 then d.(ep1 := e) else d.(ep2 := e)
  }

  // ---- The machine's steps, one register or field group at a time ----

  function StatTxSet(d: Dev, n: nat, s: Stat): Dev { WithEp(d, n, EpOf(d, n).(statTx := s)) }
  function StatRxSet(d: Dev, n: nat, s: Stat): Dev { WithEp(d, n, EpOf(d, n).(statRx := s)) }
  function Filled0(d: Dev, bytes: Small): Dev { d.(pma := Write(d.pma, EP0_TX, bytes), tx0 := |bytes|) }
  function Filled1(d: Dev, bytes: Small): Dev { d.(pma := Write(d.pma, EP1_TX, bytes), tx1 := |bytes|) }

  function CtrRxCleared(d: Dev, n: nat): Dev { WithEp(d, n, EpOf(d, n).(ctrRx := false)) }
  function CtrTxCleared(d: Dev, n: nat): Dev { WithEp(d, n, EpOf(d, n).(ctrTx := false)) }
  function TogglesReset(d: Dev, n: nat): Dev { WithEp(d, n, EpOf(d, n).(dtogRx := false, dtogTx := false)) }

  function ConfiguredAs(d: Dev, n: nat, plain: reg): Dev {
    WithEp(d, n, EpOf(d, n).(ctrRx := false, ctrTx := false, plain := plain))
  }

  function TxCountSet(d: Dev, n: nat, count: nat): Dev {
    if n == 0 then d.(tx0 := count) else if n == 1 then d.(tx1 := count) else d
  }

  function TableSet(d: Dev, i: nat, w: half): Dev {
    d.(tx0 := if i == TxCount(0) then CountOf(w) else d.tx0,
       rx0 := if i == RxCount(0) then CountOf(w) else d.rx0,
       tx1 := if i == TxCount(1) then CountOf(w) else d.tx1)
  }

  function InSet(d: Dev, src: Source, off: nat, rem: nat, zlp: bool): Dev {
    d.(ctl := d.ctl.(src := src, off := off, rem := rem, zlp := zlp))
  }

  lemma {:induction false} ContinueInSteps(d: Dev)
    ensures var c, n := d.ctl, Chunk(d.ctl.rem);
            var e := Filled0(d, Behind(Mem(d), c.off, n));
            StatTxSet(InSet(e, c.src, c.off + n, c.rem - n, c.zlp), 0, Valid) == UsbDevice.Ep0InContinue(d)
  {
    hide Write, Behind, Mem;
  }

  function SessionSet(d: Dev, on: bool): Dev { d.(busy := false, configured := on) }
  function Flushed(d: Dev): Dev { d.(fifo := []) }

  function DataEnabled(d: Dev): Dev {
    d.(ep1 := d.ep1.(ctrRx := false, ctrTx := false, plain := TYPE_BULK | 1,
                     dtogRx := false, dtogTx := false, statRx := Valid, statTx := Nak),
       tx1 := 0)
  }

  function NotificationEnabled(d: Dev): Dev {
    d.(ep2 := d.ep2.(ctrRx := false, ctrTx := false, plain := TYPE_INTERRUPT | 2,
                     dtogRx := false, dtogTx := false, statTx := Nak))
  }

  function OutSet(d: Dev, on: bool): Dev { d.(ctl := d.ctl.(outData := on)) }
  function Deferred(d: Dev, addr: nat): Dev { d.(ctl := d.ctl.(pendingAddr := addr, addrPending := true)) }
  function ScratchSet(d: Dev, scratch: seq<byte>): Dev { d.(ctl := d.ctl.(strbuf := scratch)) }
  function SetupLatched(d: Dev): Dev { d.(ctl := d.ctl.(setup := Read(d.pma, EP0_RX, 8))) }
  function LineLatched(d: Dev): Dev { d.(ctl := d.ctl.(line := Read(d.pma, EP0_RX, LINE_LEN))) }

  lemma {:induction false} ExecuteInSteps(d: Dev, r: Response)
    ensures match r
            case TxData(src, len, zlp) => UsbDevice.Execute(d, r) == UsbDevice.Ep0BeginIn(d, src, len, zlp)
            case ExpectOut => UsbDevice.Execute(d, r) == StatRxSet(OutSet(d, true), 0, Valid)
            case StatusStage(addr, cfg) =>
              var e := if addr >= 0 then Deferred(d, addr) else d;
              UsbDevice.Execute(d, r) ==
              UsbDevice.Ep0SendStatus(if cfg >= 0 then UsbDevice.ApplyConfig(e, cfg) else e)
            case Stall => UsbDevice.Execute(d, r) == UsbDevice.Ep0Stall(d)
  {
    hide UsbDevice.Ep0BeginIn, UsbDevice.Ep0SendStatus, UsbDevice.Ep0Stall, UsbDevice.ApplyConfig;
  }

  /** The device when the resolver is called. */
  function BeforeResolve(d: Dev): Dev { OutSet(InSet(SetupLatched(d), Nowhere, 0, 0, false), false) }

  lemma {:induction false} SetupInSteps(d: Dev)
    requires Sound(d)
    ensures var e := BeforeResolve(d);
            && |e.ctl.strbuf| == SCRATCH && e.desc == d.desc && e.configured == d.configured
            && e.ctl.line == d.ctl.line
            && var res := UsbCtrl.Resolve(e.ctl.setup, e.configured, e.desc, e.ctl.strbuf);
               && UsbDevice.HandleSetup(d) == UsbDevice.Execute(ScratchSet(e, res.scratch), res.r)
               && (res.r.TxData? ==> res.r.len <= |MemoryOf(res.r.src, d.desc, res.scratch, d.ctl.line)|)
               && (res.r.StatusStage? ==> res.r.setAddress <= 127 && res.r.setConfig <= 1)
               && ConfigIn(d) == (if res.r.StatusStage? then res.r.setConfig else -1)
  {
    hide Read, UsbCtrl.Resolve, UsbDevice.Execute;
    ResolutionIsSound(Read(d.pma, EP0_RX, 8), d.configured, d.desc, d.ctl.strbuf, d.ctl.line);
  }

  function AddressApplied(d: Dev): Dev
  {
    d.(daddr := DADDR_EF + d.ctl.pendingAddr, ctl := d.ctl.(addrPending := false))
  }

  lemma {:induction false} RxInSteps(d: Dev)
    requires Sound(d)
    ensures var e := CtrRxCleared(d, 0);
            && Sound(e) && e.rx0 == d.rx0
            && UsbDevice.Ep0Rx(d) ==
               if d.ep0.setup then UsbDevice.HandleSetup(e)
               else if d.ctl.outData then
                 var f := if d.rx0 >= LINE_LEN then LineLatched(e) else e;
                 StatRxSet(UsbDevice.Ep0SendStatus(OutSet(f, false)), 0, Valid)
               else StatRxSet(e, 0, Valid)
  {
    hide Read, UsbDevice.HandleSetup;
  }

  lemma {:induction false} TxInSteps(d: Dev)
    requires Sound(d)
    ensures var e, c := CtrTxCleared(d, 0), d.ctl;
            && c.off + c.rem <= |Mem(e)| && (c.addrPending ==> c.pendingAddr <= 127)
            && UsbDevice.Ep0Tx(d) ==
               if c.rem > 0 then UsbDevice.Ep0InContinue(e)
               else if c.zlp then StatTxSet(TxCountSet(InSet(e, c.src, c.off, c.rem, false), 0, 0), 0, Valid)
               else if c.addrPending then AddressApplied(e)
               else e
  {
    hide UsbDevice.Ep0InContinue;
  }

  lemma {:induction false} Flags(r: reg)
    ensures var e := Decode(r);
            (e.ctrRx <==> r & CTR_RX != 0) && (e.setup <==> r & SETUP != 0) && (e.ctrTx <==> r & CTR_TX != 0)
  {
  }

  lemma {:induction false} ScratchSize(d: Dev)
    requires Sound(d)
    ensures |d.ctl.strbuf| == SCRATCH
  {
  }

  function BusySet(d: Dev, busy: bool): Dev { d.(busy := busy) }
  function AddressReset(d: Dev): Dev { d.(daddr := DADDR_EF) }

  function ControlReset(d: Dev): Dev {
    d.(ctl := d.ctl.(src := Nowhere, off := 0, rem := 0, zlp := false, outData := false,
                     addrPending := false, pendingAddr := 0, line := LINE_DEFAULT),
       configured := false, busy := false)
  }

  function AddressForgotten(d: Dev): Dev { d.(ctl := d.ctl.(addrPending := false, pendingAddr := 0)) }
  function LineRestored(d: Dev): Dev { d.(ctl := d.ctl.(line := LINE_DEFAULT)) }

  lemma {:induction false} ControlInSteps(d: Dev)
    ensures var e := AddressForgotten(OutSet(InSet(d, Nowhere, 0, 0, false), false));
            LineRestored(SessionSet(e, false)) == ControlReset(d)
  {
  }

  function PacketTaken(d: Dev): Dev { d.(fifo := d.fifo[|Packet(d)|..]) }

  lemma {:induction false} FrontTaken(s: seq<byte>, front: seq<byte>, rest: seq<byte>)
    requires s == front + rest && |front| <= BULK_MAX && (|front| == BULK_MAX || rest == [])
    ensures var n := if |s| > BULK_MAX then BULK_MAX else |s|; front == s[..n] && rest == s[n..]
  {
  }

  lemma {:induction false} PollInSteps(d: Dev)
    requires Sound(d)
    ensures Sound(CdcPoll(d)) && |Packet(d)| <= BULK_MAX
    ensures CdcPoll(d) ==
            if Arms(d) then StatTxSet(BusySet(Filled1(PacketTaken(d), Packet(d)), true), 1, Valid) else d
  {
    ApplyKeepsSound(d, EvPoll);
    hide Write;
  }

  lemma {:induction false} ResetInSteps(d: Dev)
    ensures var e := TableSet(TxCountSet(TableSet(d, TxAddr(0), 0x40), 0, 0), RxAddr(0), 0x80);
            var f := ConfiguredAs(TableSet(e, RxCount(0), RXCOUNT_64), 0, TYPE_CONTROL | 0);
            AddressReset(Flushed(ControlReset(StatTxSet(StatRxSet(f, 0, Valid), 0, Nak)))) ==
            UsbDevice.UsbReset(d).(resetPending := d.resetPending)
  {
    EmptyReception();
    hide CountOf;
  }

  function ResetSeen(d: Dev): Dev { d.(resetPending := false) }

  lemma {:induction false} ResetIsServed(d: Dev)
    ensures UsbDevice.UsbReset(ResetSeen(d)).(resetPending := ResetSeen(d).resetPending) == UsbDevice.UsbReset(d)
  {
  }

  lemma {:induction false} ResetKeepsSound(d: Dev)
    requires Sound(d)
    ensures Sound(UsbDevice.UsbReset(d))
  {
    ApplyKeepsSound(d.(resetPending := true), ServeReset);
    hide Sound;
  }

  lemma {:induction false} BothCtrsClear(r: reg)
    ensures Decode(Store(r, r & EPREG_MASK & !(CTR_RX | CTR_TX))) == Decode(r).(ctrRx := false, ctrTx := false)
  {
  }

  // ---- The bus on the registers ----

  function ReceptionStored(w: half, n: nat): half
    requires n < 256
  {
    (w & 0xFC00) | CountWord(n)
  }

  /** The peripheral writes the byte count and leaves the buffer size as it is. */
  lemma {:induction false} ReceptionCounted(w: half, n: nat)
    requires n < 256
    ensures CountOf(ReceptionStored(w, n)) == n
  {
    var b := ByteOf(n);
    IntOfByteOf(n);
    CountBits(w, b);
    hide Lo, Hi, Pack, ByteOf;
    assert IntOf(0) == 0;
  }

  lemma {:induction false} CountBits(w: half, b: byte)
    ensures Lo((w & 0xFC00) | Pack(b, 0)) == b && Hi((w & 0xFC00) | Pack(b, 0)) & 0x03 == 0
  {
  }

  predicate BusEvent(e: Ev) { e.EvReset? || e.EvSetup? || e.EvOut? || e.EvIn0? || e.EvIn1? || e.EvBulkOut? }

  predicate ServiceEvent(e: Ev) { e.ServeReset? || e.Serve0? || e.Serve1? || e.Serve2? }

  function Received0(d: Dev, bytes: Small): Dev { d.(pma := Write(d.pma, EP0_RX, bytes), rx0 := |bytes|) }
  function Received1(d: Dev, bytes: Small): Dev { d.(pma := Write(d.pma, EP1_RX, bytes)) }
  function ResetRaised(d: Dev): Dev { d.(resetPending := true) }

  lemma {:induction false} BusInSteps(d: Dev, e: Ev)
    requires BusEvent(e)
    ensures match e
            case EvReset =>
              Apply(d, e) == ResetRaised(WithEp(WithEp(WithEp(d, 0, ResetRegister(d.ep0)), 1, ResetRegister(d.ep1)),
                                               2, ResetRegister(d.ep2)))
            case EvSetup(s) =>
              Apply(d, e) ==
              if d.ep0.statRx.Disabled? then d
              else WithEp(Received0(d, s), 0, d.ep0.(ctrRx := true, setup := true, statRx := Nak, statTx := Nak))
            case EvOut(data) =>
              Apply(d, e) ==
              if !d.ep0.statRx.Valid? then d
              else WithEp(Received0(d, data), 0,
                         d.ep0.(ctrRx := true, setup := false, statRx := Nak, dtogRx := !d.ep0.dtogRx))
            case EvBulkOut(data) =>
              Apply(d, e) ==
              if !d.ep1.statRx.Valid? then d
              else WithEp(Received1(d, data), 1, d.ep1.(ctrRx := true, statRx := Nak, dtogRx := !d.ep1.dtogRx))
            case EvIn0 =>
              Apply(d, e) ==
              if !d.ep0.statTx.Valid? then d
              else WithEp(d, 0, d.ep0.(ctrTx := true, statTx := Nak, dtogTx := !d.ep0.dtogTx))
            case EvIn1 =>
              Apply(d, e) ==
              if !d.ep1.statTx.Valid? then d
              else WithEp(d, 1, d.ep1.(ctrTx := true, statTx := Nak, dtogTx := !d.ep1.dtogTx))
            case _ => true
  {
    hide Write;
  }

  predicate Pending(e: Ep) { e.ctrRx || e.ctrTx }

  /** All completions served, EP0 first. */
  function Served(d: Dev): Dev
    requires Sound(d)
  {
    ScratchSize(d);
    DropFromEp2(UsbDevice.Ep1Handler(UsbDevice.Ep0Handler(d)))
  }

  /** The service of endpoint `n`. */
  function ServeOf(n: nat): Ev { if n == 0 then Serve0 else if n == 1 then Serve1 else Serve2 }

  function Unserved(d: Dev): nat {
    (if Pending(d.ep0) then 1 else 0) + (if Pending(d.ep1) then 1 else 0) + if Pending(d.ep2) then 1 else 0
  }

  /** No completion of `e` is new. */
  predicate NoneNew(d: Dev, e: Dev) {
    && (e.ep1.ctrRx ==> d.ep1.ctrRx) && (e.ep1.ctrTx ==> d.ep1.ctrTx)
    && (e.ep2.ctrRx ==> d.ep2.ctrRx) && (e.ep2.ctrTx ==> d.ep2.ctrTx)
  }

  lemma {:induction false} ConfigServesNone(d: Dev, cfg: int)
    ensures NoneNew(d, UsbDevice.ApplyConfig(d, cfg))
  {
  }

  lemma {:induction false} ExecuteServesNone(d: Dev, r: Response)
    ensures var e := UsbDevice.Execute(d, r);
            NoneNew(d, e) && e.ep0.ctrRx == d.ep0.ctrRx && e.ep0.ctrTx == d.ep0.ctrTx
  {
    UsbRuns.ExecuteKeepsCtr(d, r);
    if r.StatusStage? { ConfigServesNone(if r.setAddress >= 0 then Deferred(d, r.setAddress) else d, r.setConfig); }
    hide Write, UsbDevice.ApplyConfig, Behind;
  }

  lemma {:induction false} RxServes(d: Dev)
    requires |d.ctl.strbuf| == SCRATCH
    ensures var e := UsbDevice.Ep0Rx(d);
            NoneNew(d, e) && !e.ep0.ctrRx && e.ep0.ctrTx == d.ep0.ctrTx
  {
    hide Write, Read, UsbDevice.HandleSetup, UsbDevice.Ep0SendStatus;
    var e := d.(ep0 := d.ep0.(ctrRx := false));
    var line := if d.rx0 >= LINE_LEN then Read(d.pma, EP0_RX, LINE_LEN) else d.ctl.line;
    StatusSummary(e.(ctl := e.ctl.(line := line, outData := false)));
    if d.ep0.setup { SetupServes(d.(ep0 := d.ep0.(ctrRx := false))); }
  }

  lemma {:induction false} StatusSummary(d: Dev)
    ensures var e := UsbDevice.Ep0SendStatus(d);
            e.ep0 == d.ep0.(statTx := Valid) && e.ep1 == d.ep1 && e.ep2 == d.ep2
  {
  }

  lemma {:induction false} SetupServes(d: Dev)
    requires |d.ctl.strbuf| == SCRATCH
    ensures var e := UsbDevice.HandleSetup(d);
            NoneNew(d, e) && e.ep0.ctrRx == d.ep0.ctrRx && e.ep0.ctrTx == d.ep0.ctrTx
  {
    hide Read, UsbCtrl.Resolve, UsbDevice.Execute, UsbDevice.HandleSetup;
    SetupIsExecuted(d);
    ExecuteServesNone(Latched(d), Resolved(d));
  }

  lemma {:induction false} TxServes(d: Dev)
    ensures var e := UsbDevice.Ep0Tx(d);
            NoneNew(d, e) && !e.ep0.ctrTx && e.ep0.ctrRx == d.ep0.ctrRx
  {
    hide Write, Behind;
  }

  lemma {:induction false} Ep0Serves(d: Dev)
    requires |d.ctl.strbuf| == SCRATCH
    ensures NoneNew(d, UsbDevice.Ep0Handler(d)) && !Pending(UsbDevice.Ep0Handler(d).ep0)
  {
    hide UsbDevice.Ep0Rx, UsbDevice.Ep0Tx;
    RxServes(d);
    TxServes(if d.ep0.ctrRx then UsbDevice.Ep0Rx(d) else d);
  }

  lemma {:induction false} Ep1Serves(d: Dev)
    requires Sound(d)
    ensures var e := UsbDevice.Ep1Handler(d);
            && Sound(e) && !Pending(e.ep1) && e.ep0 == d.ep0 && e.ep2 == d.ep2 && UsbDevice.Ep1Handler(e) == e
            && (!Pending(d.ep1) ==> e == d)
  {
  }

  /** Serving the lowest pending endpoint brings the end of the interrupt nearer and does not change its outcome. */
  lemma {:induction false} OneServed(d: Dev, n: nat)
    requires Sound(d) && n < 3 && Pending(EpOf(d, n)) && forall k :: 0 <= k < n ==> !Pending(EpOf(d, k))
    ensures var e := Apply(d, ServeOf(n)); Sound(e) && Served(e) == Served(d) && Unserved(e) < Unserved(d)
  {
    if n == 0 {
      Ep0First(d);
    } else if n == 1 {
      assert !Pending(EpOf(d, 0));
      Ep1First(d);
    } else {
      assert !Pending(EpOf(d, 0)) && !Pending(EpOf(d, 1));
      Ep2First(d);
    }
    hide Sound, Apply, Served;
  }

  lemma {:induction false} Ep0First(d: Dev)
    requires Sound(d) && Pending(d.ep0)
    ensures var e := Apply(d, Serve0); Sound(e) && Served(e) == Served(d) && Unserved(e) < Unserved(d)
  {
    hide Sound, UsbDevice.Ep0Handler, UsbDevice.Ep1Handler, DropFromEp2, Pending;
    Ep0KeepsSound(d);
    ScratchSize(d);
    Ep0Serves(d);
    var e := UsbDevice.Ep0Handler(d);
    ScratchSize(e);
    NothingForEp0(e);
    NonePending(d, e);
  }

  lemma {:induction false} NothingForEp0(d: Dev)
    requires !Pending(d.ep0) && |d.ctl.strbuf| == SCRATCH
    ensures UsbDevice.Ep0Handler(d) == d
  {
    hide UsbDevice.Ep0Rx, UsbDevice.Ep0Tx;
  }

  lemma {:induction false} NonePending(d: Dev, e: Dev)
    requires NoneNew(d, e)
    ensures (Pending(e.ep1) ==> Pending(d.ep1)) && (Pending(e.ep2) ==> Pending(d.ep2))
  {
  }

  lemma {:induction false} Ep1First(d: Dev)
    requires Sound(d) && !Pending(d.ep0) && Pending(d.ep1)
    ensures var e := Apply(d, Serve1); Sound(e) && Served(e) == Served(d) && Unserved(e) < Unserved(d)
  {
    Ep1Serves(d);
    ScratchSize(d);
    hide Sound, UsbDevice.Ep0Rx, UsbDevice.Ep0Tx, UsbDevice.Ep1Handler, DropFromEp2;
    ScratchSize(UsbDevice.Ep1Handler(d));
  }

  lemma {:induction false} Ep2First(d: Dev)
    requires Sound(d) && !Pending(d.ep0) && !Pending(d.ep1) && Pending(d.ep2)
    ensures var e := Apply(d, Serve2); Sound(e) && Served(e) == Served(d) && Unserved(e) < Unserved(d)
  {
    DropKeepsSound(d);
    ScratchSize(d);
    Ep1Serves(d);
    Ep1Serves(DropFromEp2(d));
    hide Sound, UsbDevice.Ep0Rx, UsbDevice.Ep0Tx, UsbDevice.Ep1Handler;
    ScratchSize(DropFromEp2(d));
  }

  lemma {:induction false} DropKeepsSound(d: Dev)
    requires Sound(d)
    ensures Sound(DropFromEp2(d))
  {
  }

  lemma {:induction false} NoneUnserved(d: Dev)
    requires Sound(d) && forall k :: 0 <= k < 3 ==> !Pending(EpOf(d, k))
    ensures Served(d) == d && Unserved(d) == 0
  {
    assert !Pending(EpOf(d, 0)) && !Pending(EpOf(d, 1)) && !Pending(EpOf(d, 2));
    hide UsbDevice.Ep0Rx, UsbDevice.Ep0Tx;
  }

  // ---- The interrupt and the machine's events ----

  lemma {:induction false} ApplyRaisesNone2(d: Dev, e: Ev)
    requires Sound(d) && !Pending(d.ep2)
    ensures !Pending(Apply(d, e).ep2)
  {
    hide Write, UsbDevice.Ep0Handler;
    if e.Serve0? { Ep0Serves(d); }
  }

  /** The notification endpoint never completes anything. */
  lemma {:induction false} NothingFromEp2(desc: Descriptors, pma: Memory, evs: seq<Ev>)
    ensures var d := RunOf(PowerOn(desc, pma), evs); Sound(d) && !Pending(d.ep2)
    decreases |evs|
  {
    if evs == [] {
      PowerOnSound(desc, pma);
    } else {
      hide Apply, Sound, PowerOn;
      NothingFromEp2(desc, pma, evs[..|evs| - 1]);
      var d := RunOf(PowerOn(desc, pma), evs[..|evs| - 1]);
      ApplyKeepsSound(d, evs[|evs| - 1]);
      ApplyRaisesNone2(d, evs[|evs| - 1]);
    }
  }

  /** Serving everything is a run of service events; from power-on EP2 takes no part in it. */
  lemma {:induction false} ServedIsRun(desc: Descriptors, pma: Memory, evs: seq<Ev>)
    ensures var d := RunOf(PowerOn(desc, pma), evs);
            && Sound(d) && Served(d) == RunOf(PowerOn(desc, pma), evs + [Serve0, Serve1])
  {
    NothingFromEp2(desc, pma, evs);
    var p, d := PowerOn(desc, pma), RunOf(PowerOn(desc, pma), evs);
    hide Sound, UsbDevice.Ep0Handler, PowerOn;
    ScratchSize(d);
    Ep0Serves(d);
    RunTwo(p, evs, Serve0, Serve1);
    hide RunOf;
  }

  lemma {:induction false} EmptyRun(d: Dev)
    ensures RunOf(d, []) == d
  {
  }

  lemma {:induction false} RunTwo(d: Dev, evs: seq<Ev>, a: Ev, b: Ev)
    ensures RunOf(d, evs + [a]) == Apply(RunOf(d, evs), a)
    ensures RunOf(d, evs + [a, b]) == Apply(Apply(RunOf(d, evs), a), b)
  {
    hide Apply;
    var two := evs + [a, b];
    assert two[..|two| - 1] == evs + [a] && (evs + [a])[..|evs|] == evs;
    assert RunOf(d, two) == Apply(RunOf(d, evs + [a]), b);
  }

  /**
   * An interrupt that serves SET_CONFIGURATION(0) leaves the bulk OUT direction disabled exactly if no bulk OUT packet
   * was waiting to be served: EP1's handler comes second and makes the direction valid again.
   */
  lemma {:induction false} DeconfiguredStaysDisabledIff(d: Dev)
    requires Sound(d) && |d.ctl.strbuf| == SCRATCH && ConfigOf(d) == 0
    ensures var e := Served(d);
            && !e.configured && e.fifo == [] && e.ep1.statTx.Disabled?
            && e.ep1.statRx == if d.ep1.ctrRx then Valid else Disabled
  {
    Ep0AndEp1(d);
    hide Sound, ConfigOf, UsbDevice.Ep0Handler;
  }

  /** A run from power-on that ends with the device not configured and bulk OUT valid. */
  lemma {:induction false} BulkOutOutlivesConfiguration(desc: Descriptors, pma: Memory) returns (evs: seq<Ev>)
    ensures |evs| >= 4 && evs[|evs| - 4..] == [EvBulkOut([]), EvSetup(UsbRuns.SetConfiguration(0)), Serve0, Serve1]
    ensures var e := RunOf(PowerOn(desc, pma), evs); !e.configured && e.ep1.statRx.Valid?
  {
    hide RunOf, PowerOn, Apply, Sound, Served;
    var first := ConfiguredRun(desc, pma);
    var s := UsbRuns.SetConfiguration(0);
    var d := RunOf(PowerOn(desc, pma), first);
    RunTwo(PowerOn(desc, pma), first, EvBulkOut([]), EvSetup(s));
    BulkOutWaits(d, s);
    evs := first + [EvBulkOut([]), EvSetup(s)];
    DeconfiguredStaysDisabledIff(RunOf(PowerOn(desc, pma), evs));
    ServedIsRun(desc, pma, evs);
    evs := evs + [Serve0, Serve1];
  }

  /**
   * A run from power-on with the same end and no SET_CONFIGURATION(0) in it: the completion outlives a bus reset,
   * whose service never touches EP1.
   */
  lemma {:induction false} BulkOutOutlivesReset(desc: Descriptors, pma: Memory) returns (evs: seq<Ev>)
    ensures |evs| >= 4 && evs[|evs| - 4..] == [EvBulkOut([]), EvReset, ServeReset, Serve1]
    ensures var e := RunOf(PowerOn(desc, pma), evs); !e.configured && !e.resetPending && e.ep1.statRx.Valid?
  {
    hide RunOf, PowerOn, Sound;
    var first := ConfiguredRun(desc, pma);
    var d := RunOf(PowerOn(desc, pma), first);
    RunTwo(PowerOn(desc, pma), first, EvBulkOut([]), EvReset);
    RunTwo(PowerOn(desc, pma), first + [EvBulkOut([]), EvReset], ServeReset, Serve1);
    evs := first + [EvBulkOut([]), EvReset] + [ServeReset, Serve1];
    OutlivesReset(d);
  }

  lemma {:induction false} OutlivesReset(d: Dev)
    requires BulkOutReady(d) && d.configured && !d.resetPending
    ensures var e := Apply(Apply(Apply(Apply(d, EvBulkOut([])), EvReset), ServeReset), Serve1);
            !e.configured && !e.resetPending && e.ep1.statRx.Valid?
  {
    hide Write;
  }

  lemma {:induction false} ConfiguredRun(desc: Descriptors, pma: Memory) returns (evs: seq<Ev>)
    ensures var d := RunOf(PowerOn(desc, pma), evs);
            Sound(d) && BulkOutReady(d) && d.configured && !d.resetPending && !d.ep0.statRx.Disabled?
  {
    var bs := [UsbRuns.Reset, UsbRuns.SetupPacket(UsbRuns.SetConfiguration(1))];
    UsbRuns.AgreeAll(desc, pma, bs);
    UsbRuns.ServedRunsAreRuns(PowerOn(desc, pma), bs);
    ConfiguringReference();
    evs := UsbRuns.AllEvents(bs);
    BulkOutNeverStuck(desc, pma, evs);
    hide RunOf, UsbRuns.ServeAll, UsbRuns.FollowAll, UsbRuns.AllEvents, PowerOn, Sound, UsbRuns.AcceptsAddress;
  }

  lemma {:induction false} ConfiguringReference()
    ensures var t := UsbRuns.FollowAll([UsbRuns.Reset, UsbRuns.SetupPacket(UsbRuns.SetConfiguration(1))]);
            t.up && t.config == 1
  {
    var a, b := UsbRuns.Reset, UsbRuns.SetupPacket(UsbRuns.SetConfiguration(1));
    assert [a][..0] == [] && [a, b][..1] == [a];
    assert IntOf(1) == 1;
    assert UsbRuns.FollowAll([a]) == UsbRuns.Follow(UsbRuns.BLANK, a);
    assert UsbRuns.FollowAll([a, b]) == UsbRuns.Follow(UsbRuns.FollowAll([a]), b);
  }

  lemma {:induction false} BulkOutWaits(d: Dev, s: Setup)
    requires Sound(d) && BulkOutReady(d) && d.configured && !d.resetPending && !d.ep0.statRx.Disabled?
    requires s == UsbRuns.SetConfiguration(0)
    ensures var e := Apply(Apply(d, EvBulkOut([])), EvSetup(s));
            Sound(e) && |e.ctl.strbuf| == SCRATCH && ConfigOf(e) == 0 && e.ep1.ctrRx
  {
    var c := Apply(d, EvBulkOut([]));
    ApplyKeepsSound(d, EvBulkOut([]));
    ApplyKeepsSound(c, EvSetup(s));
    ReadWritten(c.pma, EP0_RX, s);
    assert IntOf(0) == 0;
    UsbRuns.AcceptedPackets(s, d.configured, d.desc, d.ctl.strbuf);
    hide Write, Read, UsbCtrl.Resolve;
  }

  lemma {:induction false} DataInSteps(d: Dev)
    ensures var e := TogglesReset(ConfiguredAs(d, 1, TYPE_BULK | 1), 1);
            var f := TableSet(TxCountSet(TableSet(e, TxAddr(1), 0xC0), 1, 0), RxAddr(1), 0x100);
            StatTxSet(StatRxSet(TableSet(f, RxCount(1), RXCOUNT_64), 1, Valid), 1, Nak) == DataEnabled(d)
  {
    hide CountOf;
  }

  lemma {:induction false} NotificationInSteps(d: Dev)
    ensures var e := TogglesReset(ConfiguredAs(d, 2, TYPE_INTERRUPT | 2), 2);
            StatTxSet(TxCountSet(TableSet(e, TxAddr(2), 0x140), 2, 0), 2, Nak) == NotificationEnabled(d)
  {
    hide CountOf;
  }

  lemma {:induction false} ConfigInSteps(d: Dev)
    ensures SessionSet(NotificationEnabled(DataEnabled(d)), true) == UsbDevice.ApplyConfig(d, 1)
    ensures var e := StatTxSet(StatTxSet(StatRxSet(d, 1, Disabled), 1, Disabled), 2, Disabled);
            SessionSet(Flushed(e), false) == UsbDevice.ApplyConfig(d, 0)
  {
  }
}
