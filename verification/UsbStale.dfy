/** Completions still pending when the next SETUP is served: what goes wrong, exactly when, and that it does. */
module UsbStale {
  import opened Bytes
  import opened EpReg
  import opened Pma
  import opened UsbCtrl
  import opened UsbDevice
  import opened UsbInFlight
  import opened UsbControl
  import opened UsbRuns

  // ---- SET_ADDRESS under a stale completion ----

  lemma {:induction false} TxOfStatus(d: Dev)
    requires d.ctl.rem == 0 && !d.ctl.zlp && d.ctl.addrPending
    ensures var e := Ep0Tx(d);
            && e.daddr == DADDR_EF + d.ctl.pendingAddr && !e.ctl.addrPending
            && e.ep0.statTx == d.ep0.statTx && e.tx0 == d.tx0
  {
    hide Write, Behind;
  }

  lemma {:induction false} RxOfAddress(d: Dev)
    requires Sound(d) && d.ep0.ctrRx && d.ep0.setup && AcceptsAddress(Read(d.pma, EP0_RX, 8))
    ensures var e := Ep0Rx(d);
            && e.daddr == d.daddr && e.ctl.addrPending && e.ctl.pendingAddr == IntOf(Read(d.pma, EP0_RX, 8)[2])
            && e.ctl.rem == 0 && !e.ctl.zlp && e.tx0 == 0 && e.ep0.statTx.Valid? && e.ep0.ctrTx == d.ep0.ctrTx
            && Ep0Handler(d) == if d.ep0.ctrTx then Ep0Tx(e) else e
  {
    SoundScratch(d);
    hide Resolve, Read, Ep0Tx, HandleSetup, Execute, AcceptsAddress, AcceptsConfiguration, Sound;
    AcceptedPackets(Read(d.pma, EP0_RX, 8), d.configured, d.desc, d.ctl.strbuf);
    var e := d.(ep0 := d.ep0.(ctrRx := false));
    SetupIsExecuted(e);
    ExecuteForTx(Latched(e), Resolved(e));
    StatusArms(Latched(e), Resolved(e));
  }

  /**
   * Serving a waiting SET_ADDRESS arms its empty status packet. The new address is in force before the host can take
   * it exactly if a completion was pending; otherwise it waits, as it should.
   */
  lemma {:induction false} AddressAtOnceIff(d: Dev)
    requires Sound(d) && d.ep0.ctrRx && d.ep0.setup && AcceptsAddress(Read(d.pma, EP0_RX, 8))
    ensures var e, v := Ep0Handler(d), IntOf(Read(d.pma, EP0_RX, 8)[2]);
            && e.ep0.statTx.Valid? && Sent0(e) == []
            && e.daddr == (if d.ep0.ctrTx then DADDR_EF + v else d.daddr)
            && (e.ctl.addrPending <==> !d.ep0.ctrTx)
  {
    SoundScratch(d);
    hide Read, AcceptsAddress, Ep0Handler, Ep0Rx, Ep0Tx, Sound;
    RxOfAddress(d);
    TxOfStatus(Ep0Rx(d));
  }

  // ---- Any SETUP under a stale completion ----

  /** There is more to send after the packet that answers. */
  predicate MoreToSend(r: Response) { r.TxData? && (r.len > EP0_MAX || r.zlp) }

  /** What executing a resolution means for a completion served right after it. */
  lemma {:induction false} ExecuteForTx(d: Dev, r: Response)
    requires d.ctl.rem == 0 && !d.ctl.zlp
    ensures var e := Execute(d, r);
            && e.daddr == d.daddr && e.ep0.ctrTx == d.ep0.ctrTx
            && (MoreToSend(r) <==> e.ctl.rem > 0 || e.ctl.zlp)
            && e.ctl.addrPending == (d.ctl.addrPending || (r.StatusStage? && r.setAddress >= 0))
            && e.ctl.pendingAddr == (if r.StatusStage? && r.setAddress >= 0 then r.setAddress else d.ctl.pendingAddr)
  {
    if r.TxData? {
      hide Ep0BeginIn;
      BeginChanges(d, r.src, r.len, r.zlp);
    } else if r.StatusStage? {
      hide ApplyConfig;
      ConfigForTx(WithAddress(d, r.setAddress), r.setConfig);
    }
  }

  lemma {:induction false} ConfigForTx(d: Dev, cfg: int)
    ensures var e := ApplyConfig(d, cfg); e.daddr == d.daddr && e.ep0 == d.ep0 && e.ctl == d.ctl
  {
  }

  /**
   * Serving any SETUP changes the device address exactly if a completion is pending, the answer needs no further
   * packet and an address is pending, be it the one just asked for or an earlier one.
   */
  lemma {:induction false} AddressOnAnySetup(d: Dev)
    requires Sound(d) && |d.ctl.strbuf| == SCRATCH && d.ep0.ctrRx && d.ep0.setup
    ensures var s := Read(d.pma, EP0_RX, 8);
            Ep0Handler(d).daddr ==
            if d.ep0.ctrTx && !MoreToSend(Resolved(d)) && (AcceptsAddress(s) || d.ctl.addrPending)
            then DADDR_EF + (if AcceptsAddress(s) then IntOf(s[2]) else d.ctl.pendingAddr)
            else d.daddr
  {
    hide Resolve, Read, HandleSetup, Execute, Sound, AcceptsAddress, AcceptsConfiguration, MoreToSend;
    AcceptedPackets(Read(d.pma, EP0_RX, 8), d.configured, d.desc, d.ctl.strbuf);
    var e := d.(ep0 := d.ep0.(ctrRx := false));
    SetupIsExecuted(e);
    ExecuteForTx(Latched(e), Resolved(e));
    TxAppliesAddress(Ep0Rx(d));
    hide Ep0Tx;
  }

  // ---- Runs from power-on ----

  lemma {:induction false} DescIsKept(d: Dev, evs: seq<Ev>)
    ensures RunOf(d, evs).desc == d.desc
    decreases |evs|
  {
    if evs != [] {
      hide Apply;
      DescIsKept(d, evs[..|evs| - 1]);
      ApplyKeepsDesc(RunOf(d, evs[..|evs| - 1]), evs[|evs| - 1]);
    }
  }

  lemma {:induction false} ExecuteKeepsDesc(d: Dev, r: Response)
    ensures Execute(d, r).desc == d.desc
  {
    hide Write, Behind;
  }

  lemma {:induction false} RxKeepsDesc(d: Dev)
    requires |d.ctl.strbuf| == SCRATCH
    ensures Ep0Rx(d).desc == d.desc
  {
    hide Write, Read, Resolve, Execute, HandleSetup;
    if d.ep0.setup {
      var e := d.(ep0 := d.ep0.(ctrRx := false));
      SetupIsExecuted(e);
      ExecuteKeepsDesc(Latched(e), Resolved(e));
    }
  }

  lemma {:induction false} TxKeepsDesc(d: Dev)
    ensures Ep0Tx(d).desc == d.desc
  {
    hide Write, Behind;
  }

  lemma {:induction false} ApplyKeepsDesc(d: Dev, e: Ev)
    ensures Apply(d, e).desc == d.desc
  {
    hide Write, Read, Ep0Rx, Ep0Tx;
    if e.Serve0? && |d.ctl.strbuf| == SCRATCH {
      if d.ep0.ctrRx { RxKeepsDesc(d); }
      TxKeepsDesc(if d.ep0.ctrRx then Ep0Rx(d) else d);
    }
  }

  /** A SETUP comes in between a status packet taken and the service of its completion. */
  lemma {:induction false} SetupAfterStatus(d: Dev, s: Setup)
    requires Sound(d) && d.ep0.statTx.Valid? && !d.ep0.ctrRx && !d.ep0.statRx.Disabled?
    ensures var e := RunOf(d, [EvIn0, EvSetup(s)]);
            && Sound(e) && e.ep0.ctrRx && e.ep0.setup && e.ep0.ctrTx && Read(e.pma, EP0_RX, 8) == s
            && e.daddr == d.daddr && e.ctl == d.ctl && e.desc == d.desc && e.configured == d.configured
  {
    RunOfFew(d, EvIn0, EvSetup(s));
    ApplyKeepsSound(d, EvIn0);
    ApplyKeepsSound(Apply(d, EvIn0), EvSetup(s));
    ReadWritten(d.pma, EP0_RX, s);
    hide Write, Read, RunOf, Sound;
  }

  /** After a reset: no address pending, address 0. */
  lemma {:induction false} FreshlyReset(desc: Descriptors, pma: Memory)
    ensures var d := ServeAll(PowerOn(desc, pma), [Reset]);
            Agrees(d, FollowAll([Reset])) && FollowAll([Reset]).up && !d.ctl.addrPending && d.daddr == DADDR_EF
  {
    AgreeAll(desc, pma, [Reset]);
    ExampleReference();
    ServeLast(PowerOn(desc, pma), [], Reset);
    assert [] + [Reset] == [Reset];
    hide Agrees;
  }

  /** The status packet of a SET_ADDRESS of 5 is armed. */
  lemma {:induction false} AddressStatus(desc: Descriptors, pma: Memory) returns (evs: seq<Ev>)
    ensures var d := RunOf(PowerOn(desc, pma), evs);
            && Sound(d) && AwaitsStatus(d, 5) && !d.ep0.statRx.Disabled? && d.daddr == DADDR_EF
  {
    var p, bs := PowerOn(desc, pma), [Reset, SetupPacket(SetAddress(5))];
    evs := AllEvents(bs);
    FreshlyReset(desc, pma);
    ServedRunsAreRuns(p, bs);
    assert [Reset] + [SetupPacket(SetAddress(5))] == bs;
    ServeLast(p, [Reset], SetupPacket(SetAddress(5)));
    ExampleReference();
    FiveIsSmall();
    AgreeAll(desc, pma, bs);
    hide Serve, ServeAll, FollowAll, RunOf, PowerOn, AllEvents, Sound;
    SetAddressAwaits(ServeAll(p, [Reset]), FollowAll([Reset]), 5);
  }

  /** The status packet of a SET_CONFIGURATION of 1 is armed. */
  lemma {:induction false} ConfigurationStatus(desc: Descriptors, pma: Memory) returns (evs: seq<Ev>)
    ensures var d := RunOf(PowerOn(desc, pma), evs);
            && Sound(d) && d.ep0.statTx.Valid? && !d.ep0.ctrRx && !d.ep0.statRx.Disabled?
            && !d.ctl.addrPending && d.daddr == DADDR_EF && d.desc == desc
  {
    var p, s := PowerOn(desc, pma), SetConfiguration(1);
    var bs := [Reset, SetupPacket(s)];
    evs := AllEvents(bs);
    FreshlyReset(desc, pma);
    ServedRunsAreRuns(p, bs);
    assert [Reset] + [SetupPacket(s)] == bs;
    ServeLast(p, [Reset], SetupPacket(s));
    AgreeAll(desc, pma, bs);
    DescIsKept(p, evs);
    OneIsSmall();
    hide Serve, ServeAll, FollowAll, RunOf, AllEvents, Sound;
    ConfigurationArms(ServeAll(p, [Reset]), FollowAll([Reset]), s);
    hide PowerOn;
  }

  lemma {:induction false} ConfigurationArms(d: Dev, t: Spec, s: Setup)
    requires Agrees(d, t) && t.up && AcceptsConfiguration(s)
    ensures var e := Serve(d, SetupPacket(s));
            && e.ep0.statTx.Valid? && !e.ep0.statRx.Disabled? && e.ctl.addrPending == d.ctl.addrPending
            && e.daddr == d.daddr && !e.ep0.ctrRx && Sound(e)
  {
    SoundScratch(d);
    hide Write, Read, Resolve, Execute, Serve, AcceptsAddress, AcceptsConfiguration, Sound;
    SetupServed(d, s);
    SetupKeepsAddress(d, t, s);
    SetupAgrees(d, t, s);
    AcceptedPackets(s, d.configured, d.desc, d.ctl.strbuf);
    var c := d.(pma := Write(d.pma, EP0_RX, s), rx0 := 8,
                ep0 := d.ep0.(setup := true, ctrRx := false, statRx := Nak, statTx := Nak));
    ExecuteAgrees(Latched(c), Resolved(c));
    ExecuteKeepsCtr(Latched(c), Resolved(c));
  }

  lemma {:induction false} OneIsSmall()
    ensures AcceptsConfiguration(SetConfiguration(1))
  {
    assert IntOf(1) == 1;
  }

  lemma {:induction false} FiveIsSmall()
    ensures IntOf(5) == 5
  {
  }

  lemma {:induction false} TwoPackets(msg: seq<byte>)
    requires EP0_MAX < |msg| <= 2 * EP0_MAX
    ensures |Packets(msg, false)| == 2
  {
  }

  // ---- A first packet lost ----

  /** GET_DESCRIPTOR for the configuration, asking for 255 bytes. */
  const GET_CONFIG_DESCRIPTOR: Setup := [0x80, 0x06, 0x00, 0x02, 0x00, 0x00, 0xFF, 0x00]

  lemma {:induction false} DescriptorReply(configured: bool, d: Descriptors, scratch: seq<byte>)
    requires |scratch| == SCRATCH && EP0_MAX < |d.config| < 128
    ensures Resolve(GET_CONFIG_DESCRIPTOR, configured, d, scratch).r == TxData(ConfigDesc, |d.config|, false)
  {
    var s := GET_CONFIG_DESCRIPTOR;
    assert IntOf(Kind(s)) == 0 && IntOf(Recipient(s)) == 0 && DirIn(s) && IntOf(s[1]) == 6 && IntOf(s[3]) == 2;
    assert WLength(s) == 255;
  }

  lemma {:induction false} AsksForDescriptor(d: Dev)
    requires Sound(d) && d.ep0.ctrRx && d.ep0.setup && Read(d.pma, EP0_RX, 8) == GET_CONFIG_DESCRIPTOR
    requires EP0_MAX < |d.desc.config| < 128
    ensures AsksForData(d) && !Resolved(d).zlp && |Message(d)| == |d.desc.config|
  {
    DescriptorReply(d.configured, d.desc, d.ctl.strbuf);
    hide Read, Resolve;
  }

  /**
   * A run from power-on that loses the first packet of an answer, with a configuration descriptor of the size the
   * device has: the host takes the status packet of a SET_CONFIGURATION and asks for the descriptor before the driver
   * has served the completion.
   */
  lemma {:induction false} StaleCompletionHappens(desc: Descriptors, pma: Memory, noises: seq<seq<Ev>>)
      returns (evs: seq<Ev>)
    requires EP0_MAX < |desc.config| < 128 && |noises| == 2 && AllElsewhere(noises)
    ensures var d := RunOf(PowerOn(desc, pma), evs);
            && AsksForData(d) && |Packets(Message(d), Resolved(d).zlp)| == 2
            && Taken(Ep0Handler(d), d.daddr, noises) == Packets(Message(d), Resolved(d).zlp)[1..]
  {
    hide Sound, Resolved, Message, Ep0Handler, Taken, RunOf, PowerOn, Read;
    var first := ConfigurationStatus(desc, pma);
    var d := RunOf(PowerOn(desc, pma), first);
    var more := [EvIn0, EvSetup(GET_CONFIG_DESCRIPTOR)];
    SetupAfterStatus(d, GET_CONFIG_DESCRIPTOR);
    RunOfSplits(PowerOn(desc, pma), first, more);
    evs := first + more;
    var e := RunOf(PowerOn(desc, pma), evs);
    AsksForDescriptor(e);
    TwoPackets(Message(e));
    StaleLosesFirst(e, noises);
  }

  // ---- An answer armed at the wrong address ----

  lemma {:induction false} AsksForConfiguration(d: Dev)
    requires Sound(d) && d.ep0.ctrRx && d.ep0.setup && Read(d.pma, EP0_RX, 8) == GET_CONFIGURATION
    ensures AsksForData(d) && !Resolved(d).zlp && |Message(d)| == 1
  {
    ConfigurationReply(d.configured, d.desc, d.ctl.strbuf);
    hide Read, Resolve;
  }

  /**
   * A run from power-on in which a one-byte answer never reaches the host: with the completion of a SET_ADDRESS still
   * pending, serving GET_CONFIGURATION puts the new address in force while the host waits at the old one.
   */
  lemma {:induction false} StaleAddressHappens(desc: Descriptors, pma: Memory, noises: seq<seq<Ev>>)
      returns (evs: seq<Ev>)
    requires |noises| == 1 && AllElsewhere(noises)
    ensures var d := RunOf(PowerOn(desc, pma), evs);
            && AsksForData(d) && |Message(d)| == 1 && d.daddr == DADDR_EF && Ep0Handler(d).daddr == DADDR_EF + 5
            && Taken(Ep0Handler(d), d.daddr, noises) == []
  {
    hide Sound, Resolved, Message, Ep0Handler, Taken, RunOf, PowerOn, Read, AsksForData, Packets;
    var first := AddressStatus(desc, pma);
    var d := RunOf(PowerOn(desc, pma), first);
    var more := [EvIn0, EvSetup(GET_CONFIGURATION)];
    SetupAfterStatus(d, GET_CONFIGURATION);
    RunOfSplits(PowerOn(desc, pma), first, more);
    evs := first + more;
    var e := RunOf(PowerOn(desc, pma), evs);
    AsksForConfiguration(e);
    AddressWhenServed(e);
    StaleSinglePacket(e, e.daddr, noises);
  }

  /** A run from power-on in which a SET_ADDRESS takes effect before its status packet can be taken. */
  lemma {:induction false} AddressAtOnceHappens(desc: Descriptors, pma: Memory) returns (evs: seq<Ev>)
    ensures |evs| > 0 && evs[|evs| - 1] == EvSetup(SetAddress(5))
    ensures var d := RunOf(PowerOn(desc, pma), evs);
            var e := Apply(d, Serve0);
            d.daddr == DADDR_EF && e.daddr == DADDR_EF + 5 && e.ep0.statTx.Valid? && Sent0(e) == []
  {
    hide Ep0Handler, RunOf, PowerOn, Read, Sent0;
    var first := ConfigurationStatus(desc, pma);
    var d := RunOf(PowerOn(desc, pma), first);
    var more := [EvIn0, EvSetup(SetAddress(5))];
    SetupAfterStatus(d, SetAddress(5));
    RunOfSplits(PowerOn(desc, pma), first, more);
    evs := first + more;
    FiveIsSmall();
    AddressAtOnceIff(RunOf(PowerOn(desc, pma), evs));
  }
}
