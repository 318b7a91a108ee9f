/**
 * The endpoint registers of the USB peripheral. A write toggles the DTOG and STAT bits it has as 1, clears the CTR
 * bits it has as 0, cannot change SETUP and sets the rest. The helpers of the driver, bit by bit, do to the decoded
 * register exactly what their names say.
 */
module EpReg {

  type reg = bv16

  const CTR_RX: reg := 0x8000
  const DTOG_RX: reg := 0x4000
  const STAT_RX: reg := 0x3000
  const SETUP: reg := 0x0800
  const CTR_TX: reg := 0x0080
  const DTOG_TX: reg := 0x0040
  const STAT_TX: reg := 0x0030
  const EPREG_MASK: reg := 0x878F      // plain and CTR bits
  const TOGGLE: reg := 0x7070
  const CTRS: reg := 0x8080
  const PLAIN: reg := 0x070F           // EP_TYPE, EP_KIND, EA

  const TYPE_BULK: reg := 0x0000
  const TYPE_CONTROL: reg := 0x0200
  const TYPE_INTERRUPT: reg := 0x0600

  datatype Stat = Disabled | Stalled | Nak | Valid
  {
    function Code(): reg { if Disabled? then 0 else if Stalled? then 1 else if Nak? then 2 else 3 }
  }

  /** The register after writing `w` to it. */
  function Store(r: reg, w: reg): reg {
    ((r ^ w) & TOGGLE) | (r & w & CTRS) | (r & SETUP) | (w & PLAIN)
  }

  // ---- The values the driver writes ----

  /** Toggles exactly the STAT_TX bits in which the register differs from the wanted state. */
  function SetStatTx(r: reg, s: Stat): reg {
    Store(r, (r & EPREG_MASK) | CTR_RX | CTR_TX | ((r ^ (s.Code() << 4)) & STAT_TX))
  }

  function SetStatRx(r: reg, s: Stat): reg {
    Store(r, (r & EPREG_MASK) | CTR_RX | CTR_TX | ((r ^ (s.Code() << 12)) & STAT_RX))
  }

  function ClearCtrRx(r: reg): reg { Store(r, (r & EPREG_MASK & !CTR_RX) | CTR_TX) }

  function ClearCtrTx(r: reg): reg { Store(r, (r & EPREG_MASK & !CTR_TX) | CTR_RX) }

  function Configure(r: reg, kind: reg, addr: reg): reg { Store(r, kind | addr) }

  function ResetDtog(r: reg): reg {
    Store(r, (r & EPREG_MASK) | CTR_RX | CTR_TX | (r & (DTOG_RX | DTOG_TX)))
  }

  // ---- The decoded register ----

  datatype Ep = Ep(
    ctrRx: bool, dtogRx: bool, statRx: Stat, setup: bool,
    ctrTx: bool, dtogTx: bool, statTx: Stat, plain: reg)

  function StatOf(high: bool, low: bool): Stat {
    if high then (if low then Valid else Nak) else (if low then Stalled else Disabled)
  }

  function Decode(r: reg): Ep {
    Ep(r & 0x8000 != 0, r & 0x4000 != 0, StatOf(r & 0x2000 != 0, r & 0x1000 != 0), r & 0x0800 != 0,
       r & 0x0080 != 0, r & 0x0040 != 0, StatOf(r & 0x0020 != 0, r & 0x0010 != 0), r & 0x070F)
  }

  /** Every bit of the register is in the decoded form. */
  lemma {:induction false} DecodeInjective(r: reg, q: reg)
    ensures Decode(r) == Decode(q) ==> r == q
  {
  }

  lemma {:induction false} TxDisabled(r: reg)
    ensures Decode(SetStatTx(r, Disabled)) == Decode(r).(statTx := Disabled)
  {
  }

  lemma {:induction false} TxStalled(r: reg)
    ensures Decode(SetStatTx(r, Stalled)) == Decode(r).(statTx := Stalled)
  {
  }

  lemma {:induction false} TxNak(r: reg)
    ensures Decode(SetStatTx(r, Nak)) == Decode(r).(statTx := Nak)
  {
  }

  lemma {:induction false} TxValid(r: reg)
    ensures Decode(SetStatTx(r, Valid)) == Decode(r).(statTx := Valid)
  {
  }

  lemma {:induction false} RxDisabled(r: reg)
    ensures Decode(SetStatRx(r, Disabled)) == Decode(r).(statRx := Disabled)
  {
  }

  lemma {:induction false} RxStalled(r: reg)
    ensures Decode(SetStatRx(r, Stalled)) == Decode(r).(statRx := Stalled)
  {
  }

  lemma {:induction false} RxNak(r: reg)
    ensures Decode(SetStatRx(r, Nak)) == Decode(r).(statRx := Nak)
  {
  }

  lemma {:induction false} RxValid(r: reg)
    ensures Decode(SetStatRx(r, Valid)) == Decode(r).(statRx := Valid)
  {
  }

  lemma {:induction false} SetStatTxSets(r: reg, s: Stat)
    ensures Decode(SetStatTx(r, s)) == Decode(r).(statTx := s)
  {
    hide SetStatTx, Decode;
    match s
    case Disabled => TxDisabled(r);
    case Stalled => TxStalled(r);
    case Nak => TxNak(r);
    case Valid => TxValid(r);
  }

  lemma {:induction false} SetStatRxSets(r: reg, s: Stat)
    ensures Decode(SetStatRx(r, s)) == Decode(r).(statRx := s)
  {
    hide SetStatRx, Decode;
    match s
    case Disabled => RxDisabled(r);
    case Stalled => RxStalled(r);
    case Nak => RxNak(r);
    case Valid => RxValid(r);
  }

  lemma {:induction false} ClearCtrRxClears(r: reg)
    ensures Decode(ClearCtrRx(r)) == Decode(r).(ctrRx := false)
  {
  }

  lemma {:induction false} ClearCtrTxClears(r: reg)
    ensures Decode(ClearCtrTx(r)) == Decode(r).(ctrTx := false)
  {
  }

  /** Configuring leaves the toggles as they were and drops pending completions. */
  lemma {:induction false} ConfigureSets(r: reg, kind: reg, addr: reg)
    requires (kind | addr) & !PLAIN == 0
    ensures Decode(Configure(r, kind, addr)) == Decode(r).(ctrRx := false, ctrTx := false, plain := kind | addr)
  {
  }

  lemma {:induction false} ResetDtogResets(r: reg)
    ensures Decode(ResetDtog(r)) == Decode(r).(dtogRx := false, dtogTx := false)
  {
  }

  /**
   * From any register contents the configuration sequence leaves the bulk endpoint with both data toggles at DATA0
   * (section 9.1.1.5 of USB 2.0), nothing pending, reception valid and transmission NAK.
   */
  lemma {:induction false} DataEndpointFromAny(r: reg)
    ensures Decode(SetStatTx(SetStatRx(ResetDtog(Configure(r, TYPE_BULK, 1)), Valid), Nak)) ==
            Ep(false, false, Valid, Decode(r).setup, false, false, Nak, 1)
  {
    ConfigureSets(r, TYPE_BULK, 1);
    ResetDtogResets(Configure(r, TYPE_BULK, 1));
    SetStatRxSets(ResetDtog(Configure(r, TYPE_BULK, 1)), Valid);
    SetStatTxSets(SetStatRx(ResetDtog(Configure(r, TYPE_BULK, 1)), Valid), Nak);
    hide Decode, Configure, ResetDtog, SetStatRx, SetStatTx;
  }

  /** The same for the notification endpoint, whose reception the driver never touches. */
  lemma {:induction false} NotificationEndpointFromAny(r: reg)
    ensures Decode(SetStatTx(ResetDtog(Configure(r, TYPE_INTERRUPT, 2)), Nak)) ==
            Ep(false, false, Decode(r).statRx, Decode(r).setup, false, false, Nak, 0x0602)
  {
    ConfigureSets(r, TYPE_INTERRUPT, 2);
    ResetDtogResets(Configure(r, TYPE_INTERRUPT, 2));
    SetStatTxSets(ResetDtog(Configure(r, TYPE_INTERRUPT, 2)), Nak);
    hide Decode, Configure, ResetDtog, SetStatTx;
  }

  /** Without the toggle reset the sequence would keep whatever toggles the register had. */
  lemma {:induction false} TogglesSurviveConfigure(r: reg)
    ensures var e := Decode(SetStatTx(SetStatRx(Configure(r, TYPE_BULK, 1), Valid), Nak));
            e.dtogRx == Decode(r).dtogRx && e.dtogTx == Decode(r).dtogTx
  {
    ConfigureSets(r, TYPE_BULK, 1);
    SetStatRxSets(Configure(r, TYPE_BULK, 1), Valid);
    SetStatTxSets(SetStatRx(Configure(r, TYPE_BULK, 1), Valid), Nak);
    hide Decode, Configure, SetStatRx, SetStatTx;
  }

  // ---- What the peripheral does to a register by itself ----

  /** A bus reset clears everything but the CTR bits. */
  function AfterReset(r: reg): reg { r & CTRS }

  /** A SETUP packet: CTR_RX and SETUP set, both directions NAK. */
  function AfterSetup(r: reg): reg { (r & !(STAT_RX | STAT_TX)) | 0x2020 | CTR_RX | SETUP }

  /** An OUT packet: CTR_RX set, SETUP clear, reception NAK, the toggle flipped. */
  function AfterOut(r: reg): reg { ((r & !(STAT_RX | SETUP)) | 0x2000 | CTR_RX) ^ DTOG_RX }

  /** The same on an endpoint that knows no SETUP. */
  function AfterBulkOut(r: reg): reg { ((r & !STAT_RX) | 0x2000 | CTR_RX) ^ DTOG_RX }

  /** An acknowledged IN packet: CTR_TX set, transmission NAK, the toggle flipped. */
  function AfterIn(r: reg): reg { ((r & !STAT_TX) | 0x0020 | CTR_TX) ^ DTOG_TX }

  lemma {:induction false} ResetUpdates(r: reg)
    ensures Decode(AfterReset(r)) ==
            Ep(Decode(r).ctrRx, false, Disabled, false, Decode(r).ctrTx, false, Disabled, 0)
  {
  }

  lemma {:induction false} SetupUpdates(r: reg)
    ensures Decode(AfterSetup(r)) == Decode(r).(ctrRx := true, setup := true, statRx := Nak, statTx := Nak)
  {
  }

  lemma {:induction false} OutUpdates(r: reg)
    ensures Decode(AfterOut(r)) ==
            Decode(r).(ctrRx := true, setup := false, statRx := Nak, dtogRx := !Decode(r).dtogRx)
  {
  }

  lemma {:induction false} BulkOutUpdates(r: reg)
    ensures Decode(AfterBulkOut(r)) == Decode(r).(ctrRx := true, statRx := Nak, dtogRx := !Decode(r).dtogRx)
  {
  }

  lemma {:induction false} InUpdates(r: reg)
    ensures Decode(AfterIn(r)) == Decode(r).(ctrTx := true, statTx := Nak, dtogTx := !Decode(r).dtogTx)
  {
  }

  lemma {:induction false} States(r: reg)
    ensures Decode(r).statRx.Disabled? <==> r & STAT_RX == 0
    ensures Decode(r).statRx.Valid? <==> r & STAT_RX == STAT_RX
    ensures Decode(r).statTx.Valid? <==> r & STAT_TX == STAT_TX
  {
  }
}
