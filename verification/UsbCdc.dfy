/**
 * The USB driver over its registers and its packet memory: the endpoint registers as 16-bit values with their
 * write-to-toggle bits, the buffer table inside the packet memory, the transmit FIFO as a circular buffer. Seen
 * through `View`, every routine does what the device machine says, so all that is proved of the machine holds of it.
 */
module UsbCdc {
  import opened Bytes
  import opened EpReg
  import opened Pma
  import opened UsbCtrl
  import opened UsbDevice
  import opened UsbInFlight
  import opened ByteFifos
  import UsbRuns
  import opened UsbSteps

  class Driver {
    const desc: Descriptors
    const epr: array<reg>
    const pma: array<half>
    var daddr: byte
    var istrReset: bool
    const tx: ByteFifo
    var busy: bool
    var inSrc: Source
    var inOff: nat
    var inRem: nat
    var inZlp: bool
    var outData: bool
    var addrPending: bool
    var pendingAddr: byte
    var configured: bool
    const strbuf: array<byte>
    const setup: array<byte>
    const line: array<byte>

    ghost predicate Shape()
      reads this, tx
    {
      && epr != pma && epr.Length == 3 && pma.Length == HALVES && strbuf.Length == SCRATCH && setup.Length == 8
      && line.Length == LINE_LEN && tx.Valid() && tx.buf.Length == TX_USABLE + 1
      && strbuf != setup && strbuf != line && setup != line
      && tx.buf != strbuf && tx.buf != setup && tx.buf != line
    }

    ghost function Transfer(): Control
      requires Shape()
      reads this, tx, strbuf, setup, line
    {
      Control(inSrc, inOff, inRem, inZlp, outData, addrPending, IntOf(pendingAddr), strbuf[..], setup[..], line[..])
    }

    /** The device but for the endpoint registers. */
    ghost function Core(): Dev
      requires Shape()
      reads this, pma, tx, tx.buf, strbuf, setup, line
    {
      Dev(desc, NO_EP, NO_EP, NO_EP, Buffers(pma[..]),
          CountOf(pma[TxCount(0)]), CountOf(pma[RxCount(0)]), CountOf(pma[TxCount(1)]),
          IntOf(daddr), istrReset, tx.Contents(), busy, configured, Transfer())
    }

    ghost function View(): Dev
      requires Shape()
      reads this, epr, pma, tx, tx.buf, strbuf, setup, line
    {
      Core().(ep0 := Decode(epr[0]), ep1 := Decode(epr[1]), ep2 := Decode(epr[2]))
    }

    /** The packet buffer addresses and sizes in the buffer table. */
    ghost function Addresses(): Table
      reads pma
    {
      if pma.Length == HALVES then TableOf(pma[..]) else TableOf(BLANK_MEMORY)
    }

    lemma {:induction false} Seen()
      requires Shape()
      ensures var c := View().ctl;
              && c.src == inSrc && c.off == inOff && c.rem == inRem && c.zlp == inZlp && c.outData == outData
              && c.addrPending == addrPending && c.pendingAddr == IntOf(pendingAddr)
              && c.strbuf == strbuf[..] && c.setup == setup[..] && c.line == line[..]
      ensures View().desc == desc && View().fifo == tx.Contents()
      ensures View().busy == busy && View().configured == configured && View().resetPending == istrReset
      ensures View().rx0 == CountOf(pma[RxCount(0)]) && View().pma == Buffers(pma[..])
      ensures View().ep0 == Decode(epr[0]) && View().ep1 == Decode(epr[1]) && View().ep2 == Decode(epr[2])
    {
      hide Decode, CountOf, Buffers, ByteFifo.Contents;
    }

    /** Registers, packet memory and buffers as initialised. */
    ghost predicate Blank()
      requires Shape()
      reads this, epr, pma, tx, tx.buf, strbuf, setup, line
    {
      && (forall i :: 0 <= i < 3 ==> epr[i] == 0) && (forall i :: 0 <= i < HALVES ==> pma[i] == 0)
      && daddr == 0 && !istrReset && tx.Contents() == [] && !busy && !configured
      && inSrc == Nowhere && inOff == 0 && inRem == 0 && !inZlp && !outData && !addrPending && pendingAddr == 0
      && (forall i :: 0 <= i < SCRATCH ==> strbuf[i] == 0) && (forall i :: 0 <= i < 8 ==> setup[i] == 0)
      && (forall i :: 0 <= i < LINE_LEN ==> line[i] == LINE_DEFAULT[i])
    }

    lemma {:induction false} BlankIsPowerOn()
      requires Shape() && Blank()
      ensures View() == PowerOn(desc, BLANK_MEMORY)
    {
      hide Decode, CountOf, Buffers, ByteFifo.Contents;
      Zeros();
      var d := PowerOn(desc, BLANK_MEMORY);
      assert strbuf[..] == d.ctl.strbuf;
      assert setup[..] == d.ctl.setup;
      assert line[..] == d.ctl.line;
      assert pma[..] == BLANK_MEMORY;
    }

    /** The state before the first bus reset: the registers and the packet memory zero, the FIFO empty. */
    constructor (desc: Descriptors)
      ensures Shape() && fresh(epr) && fresh(pma) && fresh(tx) && fresh(tx.buf)
      ensures fresh(strbuf) && fresh(setup) && fresh(line)
      ensures this.desc == desc && Blank()
    {
      this.desc := desc;
      epr, pma := new reg[3](_ => 0), new half[HALVES](_ => 0);
      daddr, istrReset, busy, configured := 0, false, false, false;
      inSrc, inOff, inRem, inZlp, outData := Nowhere, 0, 0, false, false;
      addrPending, pendingAddr := false, 0;
      strbuf, setup := new byte[SCRATCH](_ => 0), new byte[8](_ => 0);
      line := new byte[LINE_LEN](i requires 0 <= i < LINE_LEN => LINE_DEFAULT[i]);
      var storage := new byte[TX_USABLE + 1];
      tx := new ByteFifo(storage);
    }

    // ---- Endpoint registers ----

    /** A store to an endpoint register. */
    method StoreEp(n: nat, w: reg)
      requires Shape() && n < 3
      modifies epr
      ensures EpOf(old(View()), n) == Decode(old(epr[n]))
      ensures View() == WithEp(old(View()), n, Decode(Store(old(epr[n]), w)))
      ensures Addresses() == old(Addresses())
    {
      hide TableOf;
      hide Decode, Store, Core;
      epr[n] := Store(epr[n], w);
    }

    method EpSetStatTx(n: nat, s: Stat)
      requires Shape() && n < 3
      modifies epr
      ensures View() == StatTxSet(old(View()), n, s)
      ensures Addresses() == old(Addresses())
    {
      hide TableOf;
      var r := epr[n];
      SetStatTxSets(r, s);
      hide Decode, Store, View;
      StoreEp(n, (r & EPREG_MASK) | CTR_RX | CTR_TX | ((r ^ (s.Code() << 4)) & STAT_TX));
    }

    method EpSetStatRx(n: nat, s: Stat)
      requires Shape() && n < 3
      modifies epr
      ensures View() == StatRxSet(old(View()), n, s)
      ensures Addresses() == old(Addresses())
    {
      hide TableOf;
      var r := epr[n];
      SetStatRxSets(r, s);
      hide Decode, Store, View;
      StoreEp(n, (r & EPREG_MASK) | CTR_RX | CTR_TX | ((r ^ (s.Code() << 12)) & STAT_RX));
    }

    method EpClearCtrRx(n: nat)
      requires Shape() && n < 3
      modifies epr
      ensures View() == CtrRxCleared(old(View()), n)
      ensures Addresses() == old(Addresses())
    {
      hide TableOf;
      var r := epr[n];
      ClearCtrRxClears(r);
      hide Decode, Store, View;
      StoreEp(n, (r & EPREG_MASK & !CTR_RX) | CTR_TX);
    }

    method EpClearCtrTx(n: nat)
      requires Shape() && n < 3
      modifies epr
      ensures View() == CtrTxCleared(old(View()), n)
      ensures Addresses() == old(Addresses())
    {
      hide TableOf;
      var r := epr[n];
      ClearCtrTxClears(r);
      hide Decode, Store, View;
      StoreEp(n, (r & EPREG_MASK & !CTR_TX) | CTR_RX);
    }

    method EpConfig(n: nat, kind: reg, addr: reg)
      requires Shape() && n < 3 && (kind | addr) & !PLAIN == 0
      modifies epr
      ensures View() == ConfiguredAs(old(View()), n, kind | addr)
      ensures Addresses() == old(Addresses())
    {
      hide TableOf;
      var r := epr[n];
      ConfigureSets(r, kind, addr);
      hide Decode, Store, View;
      StoreEp(n, kind | addr);
    }

    method EpResetDtog(n: nat)
      requires Shape() && n < 3
      modifies epr
      ensures View() == TogglesReset(old(View()), n)
      ensures Addresses() == old(Addresses())
    {
      hide TableOf;
      var r := epr[n];
      ResetDtogResets(r);
      hide Decode, Store, View;
      StoreEp(n, (r & EPREG_MASK) | CTR_RX | CTR_TX | (r & (DTOG_RX | DTOG_TX)));
    }

    // ---- Packet memory ----

    /** Fills a packet buffer; the buffer table is out of its reach. */
    method PutBuffer(off: nat, bytes: seq<byte>)
      requires Shape() && off >= 2 * TABLE && Fits(off, |bytes|)
      modifies pma
      ensures View() == old(View()).(pma := Write(old(View().pma), off, bytes))
      ensures Addresses() == old(Addresses())
    {
      BuffersWritten(pma[..], off, bytes);
      TableKept(pma[..], off, bytes);
      hide Decode, Write, Buffers, Fits, TableOf;
      PmaWrite(pma, off, bytes);
    }

    /** Writes the buffer table. */
    method SetTable(i: nat, w: half)
      requires Shape() && i < TABLE
      modifies pma
      ensures View() == TableSet(old(View()), i, w)
      ensures pma[..] == old(pma[..])[i := w]
    {
      TableWritten(pma[..], i, w);
      hide Decode, Buffers, CountOf;
      pma[i] := w;
    }

    /** Writes the address of a packet buffer. */
    method SetAddress(i: nat, w: half)
      requires Shape() && (i == TxAddr(0) || i == RxAddr(0) || i == TxAddr(1) || i == RxAddr(1) || i == TxAddr(2))
      modifies pma
      ensures View() == TableSet(old(View()), i, w)
      ensures Addresses() == AddressPut(old(Addresses()), i, w)
    {
      AddressSet(pma[..], w);
      hide View, TableSet, TableOf;
      SetTable(i, w);
    }

    /** Writes the size of a reception buffer, with the count at zero. */
    method SetSize(n: nat)
      requires Shape() && n < 2
      modifies pma
      ensures View() == TableSet(old(View()), RxCount(n), RXCOUNT_64)
      ensures Addresses() == SizePut(old(Addresses()), n)
    {
      SizeSet(pma[..], RXCOUNT_64);
      SizeBits(0, 0);
      hide View, TableSet, TableOf, SizeOf;
      SetTable(RxCount(n), RXCOUNT_64);
    }

    method SetTxCount(n: nat, count: nat)
      requires Shape() && n < 3 && count <= BULK_MAX
      modifies pma
      ensures View() == TxCountSet(old(View()), n, count)
      ensures Addresses() == old(Addresses())
    {
      CountKept(count);
      CountIsNoAddress(pma[..], n, CountWord(count));
      hide View, CountOf, CountWord, TableOf;
      SetTable(TxCount(n), CountWord(count));
    }

    /** A packet and its length, for endpoint 0. */
    method PutPacket0(bytes: seq<byte>)
      requires Shape() && |bytes| <= EP0_MAX
      modifies pma
      ensures View() == Filled0(old(View()), bytes) && Addresses() == old(Addresses())
    {
      hide View, Write, Addresses;
      PutBuffer(EP0_TX, bytes);
      SetTxCount(0, |bytes|);
    }

    /** A packet and its length, for endpoint 1. */
    method PutPacket1(bytes: seq<byte>)
      requires Shape() && |bytes| <= BULK_MAX
      modifies pma
      ensures View() == Filled1(old(View()), bytes) && Addresses() == old(Addresses())
    {
      hide View, Write, Addresses;
      PutBuffer(EP1_TX, bytes);
      SetTxCount(1, |bytes|);
    }

    /** The next `n` bytes behind the pointer. */
    method Fetch(n: nat) returns (bytes: seq<byte>)
      requires Shape() && inOff + n <= |Mem(View())|
      ensures bytes == Behind(Mem(View()), inOff, n)
    {
      match inSrc
      case Nowhere => bytes := [];
      case DeviceDesc => bytes := desc.device[inOff..inOff + n];
      case ConfigDesc => bytes := desc.config[inOff..inOff + n];
      case Scratch => bytes := strbuf[inOff..inOff + n];
      case LineCoding => bytes := line[inOff..inOff + n];
    }

    // ---- EP0 ----

    /** Where the transfer under way stands. */
    method SetIn(src: Source, off: nat, rem: nat, zlp: bool)
      requires Shape()
      modifies this
      ensures Shape()
      ensures View() == InSet(old(View()), src, off, rem, zlp)
      ensures Addresses() == old(Addresses())
    {
      hide TableOf;
      hide Decode, Buffers, CountOf, ByteFifo.Contents;
      inSrc, inOff, inRem, inZlp := src, off, rem, zlp;
    }

    method Ep0InContinue()
      requires Shape() && inOff + inRem <= |Mem(View())|
      modifies this, pma, epr
      ensures Shape()
      ensures View() == UsbDevice.Ep0InContinue(old(View())) && Addresses() == old(Addresses())
    {
      hide Addresses;
      hide View, Shape, Core, Decode, Buffers, CountOf, Write, Behind, Mem, Transfer, ByteFifo.Contents, ByteFifo.Valid;
      hide UsbDevice.Ep0InContinue, Filled0, InSet, StatTxSet;
      Seen();
      ContinueInSteps(View());
      var chunk := if inRem > EP0_MAX then EP0_MAX else inRem;
      var bytes := Fetch(chunk);
      PutPacket0(bytes);
      SetIn(inSrc, inOff + chunk, inRem - chunk, inZlp);
      EpSetStatTx(0, Valid);
    }

    method Ep0BeginIn(src: Source, len: nat, zlp: bool)
      requires Shape() && len <= |MemoryOf(src, desc, strbuf[..], line[..])|
      modifies this, pma, epr
      ensures Shape()
      ensures View() == UsbDevice.Ep0BeginIn(old(View()), src, len, zlp) && Addresses() == old(Addresses())
    {
      hide Addresses;
      Seen();
      hide View, Shape, Transfer, MemoryOf, UsbDevice.Ep0InContinue;
      SetIn(src, 0, len, zlp);
      Ep0InContinue();
      EpSetStatRx(0, Valid);
    }

    method Ep0SendStatus()
      requires Shape()
      modifies this, pma, epr
      ensures Shape()
      ensures View() == UsbDevice.Ep0SendStatus(old(View())) && Addresses() == old(Addresses())
    {
      hide Addresses;
      hide View, Shape;
      SetTxCount(0, 0);
      SetIn(Nowhere, 0, 0, false);
      EpSetStatTx(0, Valid);
    }

    method Ep0Stall()
      requires Shape()
      modifies epr
      ensures View() == UsbDevice.Ep0Stall(old(View()))
      ensures Addresses() == old(Addresses())
    {
      hide TableOf;
      hide View, Shape;
      EpSetStatTx(0, Stalled);
      EpSetStatRx(0, Stalled);
    }

    method StartSession(on: bool)
      requires Shape()
      modifies this
      ensures Shape()
      ensures View() == SessionSet(old(View()), on)
      ensures Addresses() == old(Addresses())
    {
      hide TableOf;
      hide Decode, Buffers, CountOf, ByteFifo.Contents;
      busy, configured := false, on;
    }

    method Flush()
      requires Shape()
      modifies tx
      ensures Shape()
      ensures View() == Flushed(old(View()))
      ensures Addresses() == old(Addresses())
    {
      hide TableOf;
      hide Decode, Buffers, CountOf;
      tx.Clear();
    }

    /** The data endpoint of the configured device. */
    method EnableData()
      requires Shape()
      modifies epr, pma
      ensures View() == DataEnabled(old(View())) && Addresses() == DataMapped(old(Addresses()))
    {
      hide View, Shape, Core, Decode, Buffers, CountOf, Transfer, ByteFifo.Contents, ByteFifo.Valid;
      hide Addresses, ConfiguredAs, TogglesReset, TxCountSet, TableSet, StatRxSet, StatTxSet, DataEnabled;
      DataInSteps(View());
      EpConfig(1, TYPE_BULK, 1);
      EpResetDtog(1);
      SetAddress(TxAddr(1), 0xC0);
      SetTxCount(1, 0);
      SetAddress(RxAddr(1), 0x100);
      SetSize(1);
      EpSetStatRx(1, Valid);
      EpSetStatTx(1, Nak);
    }

    method EnableNotification()
      requires Shape()
      modifies epr, pma
      ensures View() == NotificationEnabled(old(View()))
      ensures Addresses() == old(Addresses()).(tx2 := 0x140)
    {
      hide View, Shape, Core, Decode, Buffers, CountOf, Transfer, ByteFifo.Contents, ByteFifo.Valid;
      hide Addresses, ConfiguredAs, TogglesReset, TxCountSet, TableSet, StatTxSet, NotificationEnabled;
      NotificationInSteps(View());
      EpConfig(2, TYPE_INTERRUPT, 2);
      EpResetDtog(2);
      SetAddress(TxAddr(2), 0x140);
      SetTxCount(2, 0);
      EpSetStatTx(2, Nak);
    }

    method ApplyConfig(cfg: int)
      requires Shape() && 0 <= cfg <= 1
      modifies this, epr, pma, tx
      ensures Shape()
      ensures View() == UsbDevice.ApplyConfig(old(View()), cfg) && Addresses() == Remapped(old(Addresses()), cfg)
    {
      hide Addresses;
      hide View, Shape, Core, Decode, Buffers, CountOf, Transfer, ByteFifo.Contents, ByteFifo.Valid;
      hide StatRxSet, StatTxSet, DataEnabled, NotificationEnabled, Flushed, SessionSet, UsbDevice.ApplyConfig;
      ConfigInSteps(View());
      if cfg == 1 {
        EnableData();
        EnableNotification();
      } else {
        EpSetStatRx(1, Disabled);
        EpSetStatTx(1, Disabled);
        EpSetStatTx(2, Disabled);
        Flush();
      }
      StartSession(cfg == 1);
    }

    method ExpectOutData(on: bool)
      requires Shape()
      modifies this
      ensures Shape()
      ensures View() == OutSet(old(View()), on)
      ensures Addresses() == old(Addresses())
    {
      hide TableOf;
      hide Decode, Buffers, CountOf, ByteFifo.Contents;
      outData := on;
    }

    method DeferAddress(addr: int)
      requires Shape() && 0 <= addr <= 127
      modifies this
      ensures Shape()
      ensures View() == Deferred(old(View()), addr)
      ensures Addresses() == old(Addresses())
    {
      hide TableOf;
      hide Decode, Buffers, CountOf, ByteFifo.Contents;
      IntOfByteOf(addr);
      hide IntOf, ByteOf;
      pendingAddr, addrPending := ByteOf(addr), true;
    }

    /** Copies the received SETUP packet out of the packet memory. */
    method LatchSetup()
      requires Shape()
      modifies setup
      ensures View() == SetupLatched(old(View()))
      ensures Addresses() == old(Addresses())
    {
      hide TableOf;
      hide Decode, Buffers, CountOf, ByteFifo.Contents;
      hide Read;
      BuffersRead(pma[..], EP0_RX, 8);
      PmaRead(pma, EP0_RX, setup, 8);
      assert setup[..] == setup[..8];
    }

    method LatchLine()
      requires Shape()
      modifies line
      ensures View() == LineLatched(old(View()))
      ensures Addresses() == old(Addresses())
    {
      hide TableOf;
      hide Decode, Buffers, CountOf, ByteFifo.Contents;
      hide Read;
      BuffersRead(pma[..], EP0_RX, LINE_LEN);
      PmaRead(pma, EP0_RX, line, LINE_LEN);
      assert line[..] == line[..LINE_LEN];
    }

    method Resolve() returns (r: Response)
      requires Shape()
      modifies strbuf
      ensures Resolution(r, strbuf[..]) ==
              UsbCtrl.Resolve(old(View().ctl.setup), old(View().configured), desc, old(View().ctl.strbuf))
      ensures View() == ScratchSet(old(View()), strbuf[..])
      ensures Addresses() == old(Addresses())
    {
      hide TableOf;
      hide Decode, Buffers, CountOf, ByteFifo.Contents;
      hide UsbCtrl.Resolve;
      r := ResolveInto(setup[..], configured, desc, strbuf);
    }

    method Execute(r: Response)
      requires Shape()
      requires r.TxData? ==> r.len <= |MemoryOf(r.src, desc, strbuf[..], line[..])|
      requires r.StatusStage? ==> r.setAddress <= 127 && r.setConfig <= 1
      modifies this, epr, pma, tx
      ensures Shape()
      ensures View() == UsbDevice.Execute(old(View()), r)
      ensures Addresses() == Remapped(old(Addresses()), if r.StatusStage? then r.setConfig else -1)
    {
      hide Addresses;
      hide View, Shape, Core, Decode, Buffers, CountOf, Transfer, ByteFifo.Contents, ByteFifo.Valid;
      hide UsbDevice.Ep0BeginIn, UsbDevice.Ep0SendStatus, UsbDevice.Ep0Stall, UsbDevice.ApplyConfig, MemoryOf;
      hide StatRxSet, OutSet, Deferred, UsbDevice.Execute;
      ExecuteInSteps(View(), r);
      match r
      case TxData(src, len, zlp) =>
        Ep0BeginIn(src, len, zlp);
      case ExpectOut =>
        ExpectOutData(true);
        EpSetStatRx(0, Valid);
      case StatusStage(addr, cfg) =>
        if addr >= 0 { DeferAddress(addr); }
        if cfg >= 0 { ApplyConfig(cfg); }
        Ep0SendStatus();
      case Stall =>
        Ep0Stall();
    }

    method HandleSetup()
      requires Shape() && Sound(View())
      modifies this, epr, pma, tx, strbuf, setup
      ensures Shape()
      ensures View() == UsbDevice.HandleSetup(old(View()))
      ensures Addresses() == Remapped(old(Addresses()), ConfigIn(old(View())))
    {
      hide Addresses, ConfigIn;
      hide View, Shape, Core, Decode, Buffers, CountOf, Transfer, ByteFifo.Contents, ByteFifo.Valid;
      hide SetupLatched, InSet, OutSet, ScratchSet, UsbDevice.Execute, UsbDevice.HandleSetup, UsbCtrl.Resolve;
      Seen();
      SetupInSteps(View());
      LatchSetup();
      SetIn(Nowhere, 0, 0, false);
      ExpectOutData(false);
      var r := Resolve();
      Execute(r);
    }

    method RxLength0() returns (n: nat)
      requires Shape()
      ensures n == View().rx0
    {
      hide Decode, Buffers, ByteFifo.Contents;
      n := CountOf(pma[RxCount(0)]);
    }

    method Ep0Rx(isSetup: bool)
      requires Shape() && Sound(View()) && isSetup == View().ep0.setup
      modifies this, epr, pma, tx, strbuf, setup, line
      ensures Shape()
      ensures View() == UsbDevice.Ep0Rx(old(View()))
      ensures Addresses() == Remapped(old(Addresses()), if isSetup then ConfigIn(old(View())) else -1)
    {
      hide Addresses, ConfigIn;
      hide View, Shape, Core, Decode, Buffers, CountOf, Transfer, ByteFifo.Contents, ByteFifo.Valid;
      hide CtrRxCleared, LineLatched, OutSet, StatRxSet;
      hide UsbDevice.Ep0SendStatus, UsbDevice.HandleSetup, UsbDevice.Ep0Rx;
      Seen();
      RxInSteps(View());
      ScratchSize(View());
      WhichConfig(View());
      EpClearCtrRx(0);
      if isSetup {
        HandleSetup();
      } else if outData {
        var count := RxLength0();
        if count >= LINE_LEN { LatchLine(); }
        ExpectOutData(false);
        Ep0SendStatus();
        EpSetStatRx(0, Valid);
      } else {
        EpSetStatRx(0, Valid);
      }
    }

    /** The address takes effect. */
    method ApplyAddress()
      requires Shape() && IntOf(pendingAddr) <= 127
      modifies this
      ensures Shape()
      ensures View() == AddressApplied(old(View()))
      ensures Addresses() == old(Addresses())
    {
      hide TableOf;
      hide Decode, Buffers, CountOf, ByteFifo.Contents;
      EnableAndAddress(pendingAddr);
      hide IntOf;
      daddr := 0x80 | pendingAddr;
      addrPending := false;
    }

    method Ep0Tx()
      requires Shape() && Sound(View())
      modifies this, epr, pma
      ensures Shape()
      ensures View() == UsbDevice.Ep0Tx(old(View())) && Addresses() == old(Addresses())
    {
      hide Addresses;
      hide View, Shape, Core, Decode, Buffers, CountOf, Transfer, ByteFifo.Contents, ByteFifo.Valid;
      hide CtrTxCleared, InSet, TxCountSet, StatTxSet, AddressApplied, UsbDevice.Ep0InContinue, UsbDevice.Ep0Tx;
      Seen();
      TxInSteps(View());
      EpClearCtrTx(0);
      if inRem > 0 {
        Ep0InContinue();
      } else if inZlp {
        SetIn(inSrc, inOff, inRem, false);
        SetTxCount(0, 0);
        EpSetStatTx(0, Valid);
      } else if addrPending {
        ApplyAddress();
      }
    }

    method ReadEp(n: nat) returns (r: reg)
      requires Shape() && n < 3
      ensures Decode(r) == EpOf(View(), n)
    {
      hide Decode, Core;
      r := epr[n];
    }

    method Ep0Handler()
      requires Shape() && Sound(View())
      modifies this, epr, pma, tx, strbuf, setup, line
      ensures Shape() && Sound(View())
      ensures View() == UsbDevice.Ep0Handler(old(View()))
      ensures Addresses() == TableAfter(old(Addresses()), old(View()), Serve0)
    {
      hide Addresses, ConfigIn, Remapped, TableAfter;
      hide View, Shape, Core, Decode, Buffers, CountOf, Transfer, ByteFifo.Contents, ByteFifo.Valid;
      hide UsbDevice.Ep0Rx, UsbDevice.Ep0Tx, Sound;
      Ep0KeepsSound(View());
      ScratchSize(View());
      HandlerMaps(Addresses(), View());
      var r := ReadEp(0);
      Flags(r);
      if r & CTR_RX != 0 {
        Ep0RxKeepsSound(View());
        Ep0Rx(r & SETUP != 0);
      }
      r := ReadEp(0);
      Flags(r);
      if r & CTR_TX != 0 {
        Ep0Tx();
      }
    }

    // ---- EP1 ----

    method Sent()
      requires Shape()
      modifies this
      ensures Shape()
      ensures View() == BusySet(old(View()), false)
      ensures Addresses() == old(Addresses())
    {
      hide TableOf;
      hide Decode, Buffers, CountOf, ByteFifo.Contents;
      busy := false;
    }

    method Ep1Handler()
      requires Shape()
      modifies this, epr
      ensures Shape()
      ensures View() == UsbDevice.Ep1Handler(old(View())) && Addresses() == old(Addresses())
    {
      hide Addresses;
      hide View, Shape, Core, Decode, Buffers, CountOf, Transfer, ByteFifo.Contents, ByteFifo.Valid;
      var r := ReadEp(1);
      Flags(r);
      if r & CTR_RX != 0 {
        EpClearCtrRx(1);
        EpSetStatRx(1, Valid);
      }
      r := ReadEp(1);
      Flags(r);
      if r & CTR_TX != 0 {
        EpClearCtrTx(1);
        Sent();
      }
    }

    // ---- Bus reset ----

    method ForgetAddress()
      requires Shape()
      modifies this
      ensures Shape()
      ensures View() == AddressForgotten(old(View()))
      ensures Addresses() == old(Addresses())
    {
      hide TableOf;
      hide Decode, Buffers, CountOf, ByteFifo.Contents;
      Zeros();
      addrPending, pendingAddr := false, 0;
    }

    method RestoreLine()
      requires Shape()
      modifies line
      ensures View() == LineRestored(old(View()))
      ensures Addresses() == old(Addresses())
    {
      hide TableOf;
      hide Decode, Buffers, CountOf, ByteFifo.Contents;
      for i := 0 to LINE_LEN
        invariant forall j :: 0 <= j < i ==> line[j] == LINE_DEFAULT[j]
      {
        line[i] := LINE_DEFAULT[i];
      }
      assert line[..] == LINE_DEFAULT;
    }

    method ResetControl()
      requires Shape()
      modifies this, line
      ensures Shape()
      ensures View() == ControlReset(old(View()))
      ensures Addresses() == old(Addresses())
    {
      hide TableOf;
      hide View, Shape, Core, Decode, Buffers, CountOf, Transfer, ByteFifo.Contents, ByteFifo.Valid;
      hide InSet, OutSet, AddressForgotten, SessionSet, LineRestored, ControlReset;
      ControlInSteps(View());
      SetIn(Nowhere, 0, 0, false);
      ExpectOutData(false);
      ForgetAddress();
      StartSession(false);
      RestoreLine();
    }

    method ResetAddress()
      requires Shape()
      modifies this
      ensures Shape()
      ensures View() == AddressReset(old(View()))
      ensures Addresses() == old(Addresses())
    {
      hide TableOf;
      hide Decode, Buffers, CountOf, ByteFifo.Contents;
      Zeros();
      hide IntOf;
      daddr := 0x80;
    }

    method UsbReset()
      requires Shape()
      modifies this, epr, pma, tx, line
      ensures Shape()
      ensures View() == UsbDevice.UsbReset(old(View())).(resetPending := old(View().resetPending))
      ensures Addresses() == ControlMapped(old(Addresses()))
    {
      hide Addresses;
      hide View, Shape, Core, Decode, Buffers, CountOf, Transfer, ByteFifo.Contents, ByteFifo.Valid;
      hide TableSet, TxCountSet, ConfiguredAs, StatRxSet, StatTxSet, ControlReset, Flushed, AddressReset;
      hide UsbDevice.UsbReset;
      ResetInSteps(View());
      SetAddress(TxAddr(0), 0x40);
      SetTxCount(0, 0);
      SetAddress(RxAddr(0), 0x80);
      SetSize(0);
      EpConfig(0, TYPE_CONTROL, 0);
      EpSetStatRx(0, Valid);
      EpSetStatTx(0, Nak);
      ResetControl();
      Flush();
      ResetAddress();
    }

    method AcknowledgeReset()
      requires Shape()
      modifies this
      ensures Shape()
      ensures View() == ResetSeen(old(View()))
      ensures Addresses() == old(Addresses())
    {
      hide TableOf;
      hide Decode, Buffers, CountOf, ByteFifo.Contents;
      istrReset := false;
    }

    /** The endpoint the driver does not expect to hear from: both completions are dropped. */
    method DropCompletions()
      requires Shape()
      modifies epr
      ensures View() == DropFromEp2(old(View()))
      ensures Addresses() == old(Addresses())
    {
      hide TableOf;
      var r := epr[2];
      BothCtrsClear(r);
      hide Decode, Store, View;
      StoreEp(2, r & EPREG_MASK & !(CTR_RX | CTR_TX));
    }

    /** The lowest endpoint with a completion pending, as the status register shows it. */
    method FirstPending() returns (n: nat)
      requires Shape()
      ensures n <= 3 && (n < 3 ==> Pending(EpOf(View(), n))) && forall k :: 0 <= k < n ==> !Pending(EpOf(View(), k))
    {
      hide View, Decode;
      for i := 0 to 3
        invariant forall k :: 0 <= k < i ==> !Pending(EpOf(View(), k))
      {
        var r := ReadEp(i);
        Flags(r);
        if r & (CTR_RX | CTR_TX) != 0 { return i; }
      }
      n := 3;
    }

    // ---- The bus ----

    /** The peripheral updates an endpoint register. */
    method Latch(n: nat, r: reg)
      requires Shape() && n < 3
      modifies epr
      ensures View() == WithEp(old(View()), n, Decode(r))
      ensures Addresses() == old(Addresses())
    {
      hide TableOf;
      hide Decode, Core;
      epr[n] := r;
    }

    /** The peripheral puts a received packet where the table says, and its length into the table. */
    method Receive0(bytes: Small)
      requires Shape() && Addresses().rx0 == 0x80
      modifies pma
      ensures View() == Received0(old(View()), bytes) && Addresses() == old(Addresses())
    {
      hide View, Write, CountOf, TableOf, SizeOf, OffsetOf;
      Offsets();
      TableIs();
      PutBuffer(OffsetOf(pma[RxAddr(0)]), bytes);
      var w := ReadTable(RxCount(0));
      ReceptionCounted(w, |bytes|);
      CountReceived(pma[..], 0, |bytes|);
      SetTable(RxCount(0), ReceptionStored(w, |bytes|));
    }

    method Receive1(bytes: Small)
      requires Shape() && Addresses().rx1 == 0x100
      modifies pma
      ensures View() == Received1(old(View()), bytes) && Addresses() == old(Addresses())
    {
      hide View, Write, CountOf, TableOf, SizeOf, OffsetOf;
      Offsets();
      TableIs();
      PutBuffer(OffsetOf(pma[RxAddr(1)]), bytes);
      var w := ReadTable(RxCount(1));
      CountReceived(pma[..], 1, |bytes|);
      SetTable(RxCount(1), ReceptionStored(w, |bytes|));
    }

    lemma {:induction false} TableIs()
      requires Shape()
      ensures Addresses() == TableOf(pma[..])
      ensures Addresses().rx0 == pma[RxAddr(0)] && Addresses().rx1 == pma[RxAddr(1)]
      ensures Addresses().tx0 == pma[TxAddr(0)] && Addresses().tx1 == pma[TxAddr(1)]
    {
      hide SizeOf;
    }

    /** What the host receives in an IN transaction: as many bytes as the table says, from where it says. */
    method Transmit(n: nat) returns (sent: seq<byte>)
      requires Shape() && Sound(View()) && n < 2
      requires if n == 0 then Addresses().tx0 == 0x40 else Addresses().tx1 == 0xC0
      ensures sent == if n == 0 then Sent0(View()) else Sent1(View())
    {
      hide Decode, ByteFifo.Contents, Read, OffsetOf, CountOf, TableOf;
      Offsets();
      TableIs();
      var off, count := OffsetOf(pma[TxAddr(n)]), CountOf(pma[TxCount(n)]);
      CountsFit();
      BuffersRead(pma[..], off, count);
      sent := Read(pma[..], off, count);
    }

    lemma {:induction false} CountsFit()
      requires Shape() && Sound(View())
      ensures View().tx0 == CountOf(pma[TxCount(0)]) <= 64 && View().tx1 == CountOf(pma[TxCount(1)]) <= 64
      ensures View().pma == Buffers(pma[..])
    {
      hide Decode, CountOf, Buffers, ByteFifo.Contents, Mem;
    }

    method ReadTable(i: nat) returns (w: half)
      requires Shape() && i < TABLE
      ensures w == pma[i]
    {
      w := pma[i];
    }

    method RaiseReset()
      requires Shape()
      modifies this
      ensures Shape()
      ensures View() == ResetRaised(old(View()))
      ensures Addresses() == old(Addresses())
    {
      hide TableOf;
      hide Decode, Buffers, CountOf, ByteFifo.Contents;
      istrReset := true;
    }

    /** A packet arrives at endpoint `n`, whose register becomes `r`. */
    method Delivered(n: nat, bytes: Small, r: reg)
      requires Shape() && n < 2
      requires if n == 0 then Addresses().rx0 == 0x80 else Addresses().rx1 == 0x100
      modifies pma, epr
      ensures var d := old(View());
              View() == WithEp(if n == 0 then Received0(d, bytes) else Received1(d, bytes), n, Decode(r))
      ensures Addresses() == old(Addresses())
    {
      hide View, Decode, Addresses, Received0, Received1;
      if n == 0 {
        Receive0(bytes);
      } else {
        Receive1(bytes);
      }
      Latch(n, r);
    }

    /** The host takes the packet of endpoint `n`, whose register is `r`. */
    method Acknowledged(n: nat, r: reg) returns (sent: seq<byte>)
      requires Shape() && Sound(View()) && n < 2 && Decode(r) == EpOf(View(), n)
      requires if n == 0 then Addresses().tx0 == 0x40 else Addresses().tx1 == 0xC0
      modifies epr
      ensures var d := old(View());
              && View() == WithEp(d, n, EpOf(d, n).(ctrTx := true, statTx := Nak, dtogTx := !EpOf(d, n).dtogTx))
              && sent == (if n == 0 then Sent0(d) else Sent1(d)) && Addresses() == old(Addresses())
    {
      hide View, Decode, Sound, Addresses, Sent0, Sent1;
      InUpdates(r);
      sent := Transmit(n);
      Latch(n, AfterIn(r));
    }

    /**
     * What a bus event does to registers, buffer table and packet memory. Packets go where the buffer table says and
     * come from where it says; `sent` is what the host receives, if it takes one.
     */
    method Bus(e: Ev) returns (sent: seq<byte>)
      requires Shape() && Sound(View()) && Mapped(Addresses(), View()) && BusEvent(e)
      modifies this, epr, pma
      ensures Shape() && Sound(View()) && Mapped(Addresses(), View())
      ensures View() == Apply(old(View()), e) && sent == HostTakes(old(View()), e)
    {
      hide View, Shape, Core, Decode, Buffers, CountOf, Transfer, ByteFifo.Contents, ByteFifo.Valid;
      hide Sound, Apply, Received0, Received1, ResetRaised, Mapped, Addresses, Sent0, Sent1, HostTakes;
      ApplyKeepsSound(View(), e);
      StaysMapped(Addresses(), View(), e);
      BusInSteps(View(), e);
      WhereMapped(Addresses(), View());
      TakesWhat(View(), e);
      sent := [];
      var r0 := ReadEp(0);
      var r1 := ReadEp(1);
      States(r0);
      States(r1);
      match e
      case EvReset => ResetBus();
      case EvSetup(s) =>
        if r0 & STAT_RX != 0 {
          SetupUpdates(r0);
          Delivered(0, s, AfterSetup(r0));
        }
      case EvOut(data) =>
        if r0 & STAT_RX == STAT_RX {
          OutUpdates(r0);
          Delivered(0, data, AfterOut(r0));
        }
      case EvBulkOut(data) =>
        if r1 & STAT_RX == STAT_RX {
          BulkOutUpdates(r1);
          Delivered(1, data, AfterBulkOut(r1));
        }
      case EvIn0 =>
        if r0 & STAT_TX == STAT_TX {
          sent := Acknowledged(0, r0);
        }
      case EvIn1 =>
        if r1 & STAT_TX == STAT_TX {
          sent := Acknowledged(1, r1);
        }
    }

    method ResetBus()
      requires Shape()
      modifies this, epr
      ensures Shape()
      ensures var d := old(View());
              View() == ResetRaised(WithEp(WithEp(WithEp(d, 0, ResetRegister(d.ep0)), 1, ResetRegister(d.ep1)),
                                           2, ResetRegister(d.ep2)))
      ensures Addresses() == old(Addresses())
    {
      hide Addresses;
      hide View, Shape, Core, Decode, ResetRaised;
      var r0 := ReadEp(0);
      var r1 := ReadEp(1);
      var r2 := ReadEp(2);
      ResetUpdates(r0);
      ResetUpdates(r1);
      ResetUpdates(r2);
      Latch(0, AfterReset(r0));
      Latch(1, AfterReset(r1));
      Latch(2, AfterReset(r2));
      RaiseReset();
    }

    /** Up to `most` bus events; `left` is what remains of them. */
    method BusActs(most: nat) returns (left: nat, ghost evs: seq<Ev>)
      requires Shape() && Sound(View()) && Mapped(Addresses(), View())
      modifies this, epr, pma
      ensures Shape() && Sound(View()) && Mapped(Addresses(), View())
      ensures View() == RunOf(old(View()), evs) && forall e :: e in evs ==> BusEvent(e)
      ensures left <= most && (left == most ==> evs == [])
    {
      hide View, Shape, Sound, Apply, Mapped, Addresses;
      left, evs := most, [];
      var more: bool := *;
      while more && left > 0
        invariant Shape() && Sound(View()) && Mapped(Addresses(), View())
        invariant left <= most && (left == most ==> evs == [])
        invariant View() == RunOf(old(View()), evs) && forall e :: e in evs ==> BusEvent(e)
        decreases left
      {
        var e: Ev := *;
        if BusEvent(e) {
          var sent := Bus(e);
          assert (evs + [e])[..|evs|] == evs;
          evs := evs + [e];
          left := left - 1;
        } else {
          break;
        }
        more := *;
      }
    }

    // ---- The interrupt ----

    /** Serves endpoint `n`. */
    method ServeEp(n: nat)
      requires Shape() && Sound(View()) && Mapped(Addresses(), View()) && n < 3
      modifies this, epr, pma, tx, strbuf, setup, line
      ensures Shape() && Sound(View()) && Mapped(Addresses(), View())
      ensures View() == Apply(old(View()), ServeOf(n))
    {
      hide View, Shape, Core, Decode, Buffers, CountOf, Transfer, ByteFifo.Contents, ByteFifo.Valid;
      hide Mapped, Addresses, TableAfter, Sound, Apply;
      hide UsbDevice.Ep0Handler, UsbDevice.Ep1Handler, DropFromEp2;
      StaysMapped(Addresses(), View(), ServeOf(n));
      QuietTable(Addresses(), View());
      ApplyKeepsSound(View(), ServeOf(n));
      ScratchSize(View());
      ServeApply(View(), n);
      if n == 0 {
        Ep0Handler();
      } else if n == 1 {
        Ep1Handler();
      } else {
        DropCompletions();
      }
    }

    /**
     * The interrupt: a bus reset first, else every pending completion, until none is left. Before each look at the
     * status register the bus may act, `most` times in all. The interrupt is a run of bus events and services; left
     * alone by the bus, its outcome is that of serving EP0, EP1 and EP2 once each.
     */
    method Irq(most: nat) returns (ghost evs: seq<Ev>)
      requires Shape() && Sound(View()) && Mapped(Addresses(), View())
      modifies this, epr, pma, tx, strbuf, setup, line
      ensures Shape() && Sound(View()) && Mapped(Addresses(), View())
      ensures View() == RunOf(old(View()), evs) && forall e :: e in evs ==> BusEvent(e) || ServiceEvent(e)
      ensures old(View().resetPending) ==> evs == [ServeReset]
      ensures !old(View().resetPending) ==> Unserved(View()) == 0
      ensures !old(View().resetPending) && most == 0 ==> View() == Served(old(View()))
    {
      hide View, Shape, Core, Decode, Buffers, CountOf, Transfer, ByteFifo.Contents, ByteFifo.Valid;
      hide Mapped, Addresses, Sound, Apply, Pending, Served, EpOf, Unserved, UsbDevice.UsbReset, ResetSeen;
      Seen();
      ghost var start := View();
      EmptyRun(start);
      evs := [];
      if istrReset {
        evs := ResetIrq();
        return;
      }
      var left: nat;
      ghost var seen;
      left, seen := BusActs(most);
      evs := seen;
      var n := FirstPending();
      while n < 3
        invariant Shape() && Sound(View()) && Mapped(Addresses(), View()) && n <= 3 && left <= most
        invariant n < 3 ==> Pending(EpOf(View(), n))
        invariant forall k :: 0 <= k < n ==> !Pending(EpOf(View(), k))
        invariant View() == RunOf(start, evs) && forall e :: e in evs ==> BusEvent(e) || ServiceEvent(e)
        invariant most == 0 ==> Served(View()) == Served(start)
        decreases left, Unserved(View())
      {
        OneServed(View(), n);
        ServeEp(n);
        RunTwo(start, evs, ServeOf(n), ServeOf(n));
        evs := evs + [ServeOf(n)];
        left, seen := BusActs(left);
        UsbRuns.RunOfSplits(start, evs, seen);
        evs := evs + seen;
        n := FirstPending();
      }
      NoneUnserved(View());
    }

    method ResetIrq() returns (ghost evs: seq<Ev>)
      requires Shape() && Sound(View()) && Mapped(Addresses(), View()) && istrReset
      modifies this, epr, pma, tx, line
      ensures Shape() && Sound(View()) && Mapped(Addresses(), View())
      ensures evs == [ServeReset] && View() == RunOf(old(View()), evs)
    {
      hide View, Shape, Core, Decode, Buffers, CountOf, Transfer, ByteFifo.Contents, ByteFifo.Valid;
      hide Sound, UsbDevice.UsbReset, ResetSeen, Mapped, Addresses, ControlMapped;
      Seen();
      StaysMapped(Addresses(), View(), ServeReset);
      evs := [ServeReset];
      UsbRuns.RunOfFew(View(), ServeReset, ServeReset);
      ResetKeepsSound(View());
      ResetIsServed(View());
      AcknowledgeReset();
      UsbReset();
    }

    // ---- The main loop's calls ----

    method UsbCdcWrite(buf: seq<byte>) returns (written: nat)
      requires Shape() && Sound(View())
      modifies tx, tx.buf
      ensures Shape() && Sound(View())
      ensures View() == CdcWrite(old(View()), buf) && Addresses() == old(Addresses())
      ensures written == if |buf| <= 255 - |old(View().fifo)| then |buf| else 0
    {
      ApplyKeepsSound(View(), EvWrite(buf));
      hide Decode, Buffers, CountOf, Transfer, ByteFifo.Contents, Sound;
      var ok := tx.PushAll(buf);
      written := if ok then |buf| else 0;
    }

    /** Takes up to a packet of bytes off the FIFO. */
    method TakePacket() returns (pkt: seq<byte>)
      requires Shape()
      modifies tx
      ensures Shape()
      ensures pkt == Packet(old(View())) && View() == PacketTaken(old(View()))
      ensures Addresses() == old(Addresses())
    {
      hide TableOf;
      hide Decode, Buffers, CountOf, ByteFifo.Contents;
      pkt := [];
      ghost var was := tx.Contents();
      var ok := true;
      while |pkt| < BULK_MAX && ok
        invariant Shape() && |pkt| <= BULK_MAX
        invariant pkt + tx.Contents() == was
        invariant !ok ==> tx.Contents() == []
        decreases BULK_MAX - |pkt|, ok
      {
        var b;
        ok, b := tx.Pop();
        if ok { pkt := pkt + [b]; }
      }
      FrontTaken(was, pkt, tx.Contents());
    }

    method PacketWaits() returns (b: bool)
      requires Shape()
      ensures b == Arms(View())
    {
      hide Decode, Buffers, CountOf, Transfer;
      tx.CountIsLength();
      b := configured && !busy && tx.Count() > 0;
    }

    method UsbCdcPoll()
      requires Shape() && Sound(View())
      modifies this, tx, pma, epr
      ensures Shape() && Sound(View())
      ensures View() == CdcPoll(old(View())) && Addresses() == old(Addresses())
    {
      hide Addresses;
      hide View, Shape, Core, Decode, Buffers, CountOf, Transfer, ByteFifo.Contents, ByteFifo.Valid;
      hide Sound, Arms, Packet, CdcPoll, PacketTaken, Filled1, BusySet, StatTxSet;
      PollInSteps(View());
      var waits := PacketWaits();
      if waits {
        var pkt := TakePacket();
        PutPacket1(pkt);
        SetBusy();
        EpSetStatTx(1, Valid);
      }
    }

    method SetBusy()
      requires Shape()
      modifies this
      ensures Shape()
      ensures View() == BusySet(old(View()), true)
      ensures Addresses() == old(Addresses())
    {
      hide TableOf;
      hide Decode, Buffers, CountOf, ByteFifo.Contents;
      busy := true;
    }

    // ---- Runs of the driver ----

    /** Main-loop calls, interrupts and bus events, in any order. */
    method AnyRun(rounds: nat) returns (ghost evs: seq<Ev>)
      requires Shape() && Sound(View()) && Mapped(Addresses(), View())
      modifies this, epr, pma, tx, tx.buf, strbuf, setup, line
      ensures Shape() && Sound(View()) && Mapped(Addresses(), View())
      ensures View() == RunOf(old(View()), evs)
    {
      hide View, Shape, Sound, Apply, RunOf, Mapped, Addresses;
      ghost var start := View();
      EmptyRun(start);
      evs := [];
      for i := 0 to rounds
        invariant Shape() && Sound(View()) && Mapped(Addresses(), View()) && View() == RunOf(start, evs)
      {
        ghost var more;
        more := OneOfAll();
        UsbRuns.RunOfSplits(start, evs, more);
        evs := evs + more;
      }
    }

    method OneOfAll() returns (ghost evs: seq<Ev>)
      requires Shape() && Sound(View()) && Mapped(Addresses(), View())
      modifies this, epr, pma, tx, tx.buf, strbuf, setup, line
      ensures Shape() && Sound(View()) && Mapped(Addresses(), View())
      ensures View() == RunOf(old(View()), evs)
    {
      hide View, Shape, Sound, CdcWrite, CdcPoll, Mapped, Addresses;
      var e, choice: nat, most: nat := *, *, *;
      EmptyRun(View());
      evs := [];
      if choice == 0 {
        evs := Irq(most);
      } else if choice == 1 {
        var buf: seq<byte> := *;
        UsbRuns.RunOfFew(View(), EvWrite(buf), EvPoll);
        StaysMapped(Addresses(), View(), EvWrite(buf));
        var written := UsbCdcWrite(buf);
        evs := [EvWrite(buf)];
      } else if choice == 2 {
        UsbRuns.RunOfFew(View(), EvPoll, EvPoll);
        StaysMapped(Addresses(), View(), EvPoll);
        UsbCdcPoll();
        evs := [EvPoll];
      } else if BusEvent(e) {
        UsbRuns.RunOfFew(View(), e, e);
        var sent := Bus(e);
        evs := [e];
      }
    }
  }

  /**
   * Every state a driver gets into from power-on, whatever the main loop, the interrupt and the bus do, is a
   * reachable state of the device machine: what is proved of those holds of it.
   */
  method DriverRun(desc: Descriptors, rounds: nat) returns (driver: Driver, ghost evs: seq<Ev>)
    ensures driver.Shape() && Sound(driver.View()) && Mapped(driver.Addresses(), driver.View())
    ensures driver.View() == RunOf(PowerOn(desc, BLANK_MEMORY), evs)
  {
    driver := new Driver(desc);
    driver.BlankIsPowerOn();
    PowerOnSound(desc, BLANK_MEMORY);
    NothingLive(driver.Addresses(), desc);
    hide Sound, RunOf, PowerOn, Mapped;
    evs := driver.AnyRun(rounds);
  }
}
