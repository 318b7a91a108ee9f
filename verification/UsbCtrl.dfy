/** The control-request resolver: what to answer to a SETUP packet. It has no state of its own. */
module UsbCtrl {
  import opened Bytes

  const EP0_MAX: nat := 64
  const SCRATCH: nat := 64
  const LINE_LEN: nat := 7
  const NUM_INTERFACES: nat := 2

  /** The descriptors, as arbitrary bytes; a missing or oversized string is an empty one. */
  datatype Descriptors = Descriptors(device: seq<byte>, config: seq<byte>, strings: seq<seq<byte>>)
  {
    /** What the string builder leaves in the scratch buffer, or nothing. */
    function StringOf(index: nat): (s: seq<byte>)
      ensures |s| <= SCRATCH
    {
      if index < |strings| && |strings[index]| <= SCRATCH then strings[index] else []
    }
  }

  /** Where the reply lives: the C code keeps a pointer. */
  datatype Source = Nowhere | DeviceDesc | ConfigDesc | Scratch | LineCoding

  datatype Response =
    | Stall
    | TxData(src: Source, len: nat, zlp: bool)
    | StatusStage(setAddress: int, setConfig: int)    // -1 where there is nothing to set
    | ExpectOut

  /** The response and what is in the scratch buffer afterwards. */
  datatype Resolution = Resolution(r: Response, scratch: seq<byte>)

  type Setup = s: seq<byte> | |s| == 8 witness [0, 0, 0, 0, 0, 0, 0, 0]

  function Word(lo: byte, hi: byte): (n: nat)
    ensures n < 65536
  {
    IntOf(lo) + 256 * IntOf(hi)
  }

  function WValue(s: Setup): nat { Word(s[2], s[3]) }
  function WIndex(s: Setup): nat { Word(s[4], s[5]) }
  function WLength(s: Setup): nat { Word(s[6], s[7]) }
  predicate DirIn(s: Setup) { s[0] & 0x80 != 0 }
  function Recipient(s: Setup): byte { s[0] & 0x1F }
  function Kind(s: Setup): byte { s[0] & 0x60 }

  predicate ValidEndpoint(windex: nat) { windex in {0x00, 0x01, 0x81, 0x82} }

  /** A terminating zero-length packet is due after `sent` bytes. */
  predicate ZlpNeeded(sent: nat, wlength: nat, maxpacket: nat)
    requires maxpacket > 0
  {
    sent != 0 && sent < wlength && sent % maxpacket == 0
  }

  function Reply(src: Source, full: nat, wlen: nat): Response {
    var len := if full > wlen then wlen else full;
    TxData(src, len, ZlpNeeded(len, wlen, EP0_MAX))
  }

  /** `scratch` with its first bytes overwritten. */
  function Fill(scratch: seq<byte>, bytes: seq<byte>): (s: seq<byte>)
    requires |scratch| == SCRATCH && |bytes| <= SCRATCH
    ensures |s| == SCRATCH
  {
    bytes + scratch[|bytes|..]
  }

  function GetDescriptor(s: Setup, d: Descriptors, scratch: seq<byte>): Resolution
    requires |scratch| == SCRATCH
  {
    match IntOf(s[3])
    case 1 => Resolution(Reply(DeviceDesc, |d.device|, WLength(s)), scratch)
    case 2 => Resolution(Reply(ConfigDesc, |d.config|, WLength(s)), scratch)
    case 3 =>
      var text := d.StringOf(IntOf(s[2]));
      if text == [] then Resolution(Stall, scratch)
      else Resolution(Reply(Scratch, |text|, WLength(s)), Fill(scratch, text))
    case _ => Resolution(Stall, scratch)
  }

  function GetStatus(s: Setup, scratch: seq<byte>): Resolution
    requires |scratch| == SCRATCH
  {
    var recip := IntOf(Recipient(s));
    if !DirIn(s) || WValue(s) != 0 || WLength(s) != 2 then Resolution(Stall, scratch)
    else if (recip == 0 && WIndex(s) == 0) || (recip == 1 && WIndex(s) < NUM_INTERFACES)
            || (recip == 2 && ValidEndpoint(WIndex(s))) then
      Resolution(Reply(Scratch, 2, 2), Fill(scratch, [if recip == 0 then 0x01 else 0x00, 0x00]))
    else Resolution(Stall, scratch)
  }

  function Standard(s: Setup, configured: bool, d: Descriptors, scratch: seq<byte>): Resolution
    requires |scratch| == SCRATCH
  {
    var recip := IntOf(Recipient(s));
    match IntOf(s[1])
    case 0x06 =>
      if !DirIn(s) || recip != 0 then Resolution(Stall, scratch) else GetDescriptor(s, d, scratch)
    case 0x05 =>
      if DirIn(s) || recip != 0 || WValue(s) > 0x7F || WIndex(s) != 0 || WLength(s) != 0 then Resolution(Stall, scratch)
      else Resolution(StatusStage(WValue(s), -1), scratch)
    case 0x09 =>
      if DirIn(s) || recip != 0 || WIndex(s) != 0 || WLength(s) != 0 || (WValue(s) != 0 && WValue(s) != 1) then
        Resolution(Stall, scratch)
      else Resolution(StatusStage(-1, WValue(s)), scratch)
    case 0x08 =>
      if !DirIn(s) || recip != 0 || WValue(s) != 0 || WIndex(s) != 0 || WLength(s) != 1 then Resolution(Stall, scratch)
      else Resolution(Reply(Scratch, 1, 1), Fill(scratch, [if configured then 1 else 0]))
    case 0x00 => GetStatus(s, scratch)
    case 0x01 => Feature(s, scratch)
    case 0x03 => Feature(s, scratch)
    case _ => Resolution(Stall, scratch)
  }

  function Feature(s: Setup, scratch: seq<byte>): Resolution {
    if DirIn(s) || WLength(s) != 0 then Resolution(Stall, scratch)
    else if IntOf(Recipient(s)) == 2 && WValue(s) == 0 && ValidEndpoint(WIndex(s)) then
      Resolution(StatusStage(-1, -1), scratch)
    else Resolution(Stall, scratch)
  }

  function ClassRequest(s: Setup): Response {
    if IntOf(Recipient(s)) != 1 || WIndex(s) != 0 then Stall
    else
      match IntOf(s[1])
      case 0x21 =>
        if !DirIn(s) || WValue(s) != 0 || WLength(s) != LINE_LEN then Stall
        else Reply(LineCoding, LINE_LEN, LINE_LEN)
      case 0x20 => if DirIn(s) || WValue(s) != 0 || WLength(s) != LINE_LEN then Stall else ExpectOut
      case 0x22 => if DirIn(s) || WLength(s) != 0 then Stall else StatusStage(-1, -1)
      case _ => Stall
  }

  function Resolve(s: Setup, configured: bool, d: Descriptors, scratch: seq<byte>): Resolution
    requires |scratch| == SCRATCH
  {
    match IntOf(Kind(s))
    case 0x00 => Standard(s, configured, d, scratch)
    case 0x20 => Resolution(ClassRequest(s), scratch)
    case _ => Resolution(Stall, scratch)
  }

  /** The bytes behind a source. */
  function MemoryOf(src: Source, d: Descriptors, scratch: seq<byte>, line: seq<byte>): seq<byte> {
    match src
    case Nowhere => []
    case DeviceDesc => d.device
    case ConfigDesc => d.config
    case Scratch => scratch
    case LineCoding => line
  }

  // ---- What the register-level driver relies on ----

  /**
   * Data goes out only for an IN request, never more than wLength and never beyond the memory behind it, and the
   * zero-length packet is due exactly when no short packet ends the stage; a status stage only without data; an OUT
   * stage only of seven bytes; addresses fit seven bits and the configuration is 0 or 1.
   */
  lemma {:induction false} ResolutionIsSound(
      s: Setup, configured: bool, d: Descriptors, scratch: seq<byte>, line: seq<byte>)
    requires |scratch| == SCRATCH && |line| == LINE_LEN
    ensures var res := Resolve(s, configured, d, scratch);
            && |res.scratch| == SCRATCH
            && match res.r
               case Stall => true
               case TxData(src, len, zlp) =>
                 && DirIn(s) && len <= WLength(s) && len <= |MemoryOf(src, d, res.scratch, line)|
                 && (zlp <==> 0 < len < WLength(s) && len % EP0_MAX == 0)
               case StatusStage(addr, cfg) =>
                 !DirIn(s) && WLength(s) == 0 && -1 <= addr <= 127 && -1 <= cfg <= 1 && (addr == -1 || cfg == -1)
               case ExpectOut => !DirIn(s) && WLength(s) == LINE_LEN
  {
    hide Word, IntOf, Recipient, Kind, DirIn, ValidEndpoint;
  }

  // ---- The resolver over the caller's scratch buffer ----

  /** Writes `bytes` at the start of the scratch buffer. */
  method Put(scratch: array<byte>, bytes: seq<byte>)
    requires scratch.Length == SCRATCH && |bytes| <= SCRATCH
    modifies scratch
    ensures scratch[..] == Fill(old(scratch[..]), bytes)
  {
    for i := 0 to |bytes|
      invariant forall j :: 0 <= j < i ==> scratch[j] == bytes[j]
      invariant forall j :: i <= j < SCRATCH ==> scratch[j] == old(scratch[j])
    {
      scratch[i] := bytes[i];
    }
  }

  method ResolveGetDescriptor(s: Setup, d: Descriptors, scratch: array<byte>) returns (r: Response)
    requires scratch.Length == SCRATCH
    modifies scratch
    ensures Resolution(r, scratch[..]) == GetDescriptor(s, d, old(scratch[..]))
  {
    var kind, wlen := IntOf(s[3]), WLength(s);
    if kind == 1 {
      r := Reply(DeviceDesc, |d.device|, wlen);
    } else if kind == 2 {
      r := Reply(ConfigDesc, |d.config|, wlen);
    } else if kind == 3 {
      var text := d.StringOf(IntOf(s[2]));
      Put(scratch, text);
      r := if |text| == 0 then Stall else Reply(Scratch, |text|, wlen);
    } else {
      r := Stall;
    }
  }

  method ResolveGetStatus(s: Setup, scratch: array<byte>) returns (r: Response)
    requires scratch.Length == SCRATCH
    modifies scratch
    ensures Resolution(r, scratch[..]) == GetStatus(s, old(scratch[..]))
  {
    hide Fill, Word;
    var recip, windex := IntOf(Recipient(s)), WIndex(s);
    if !DirIn(s) || WValue(s) != 0 || WLength(s) != 2 {
      return Stall;
    }
    if recip == 0 {
      if windex != 0 { return Stall; }
    } else if recip == 1 {
      if windex >= NUM_INTERFACES { return Stall; }
    } else if recip == 2 {
      if !ValidEndpoint(windex) { return Stall; }
    } else {
      return Stall;
    }
    Put(scratch, [if recip == 0 then 0x01 else 0x00, 0x00]);
    r := Reply(Scratch, 2, 2);
  }

  method ResolveStandard(s: Setup, configured: bool, d: Descriptors, scratch: array<byte>) returns (r: Response)
    requires scratch.Length == SCRATCH
    modifies scratch
    ensures Resolution(r, scratch[..]) == Standard(s, configured, d, old(scratch[..]))
  {
    hide Fill, Word, GetDescriptor, GetStatus, ValidEndpoint;
    var recip, request := IntOf(Recipient(s)), IntOf(s[1]);
    if request == 0x06 {
      if !DirIn(s) || recip != 0 { return Stall; }
      r := ResolveGetDescriptor(s, d, scratch);
    } else if request == 0x05 {
      if DirIn(s) || recip != 0 || WValue(s) > 0x7F || WIndex(s) != 0 || WLength(s) != 0 { return Stall; }
      r := StatusStage(WValue(s), -1);
    } else if request == 0x09 {
      if DirIn(s) || recip != 0 || WIndex(s) != 0 || WLength(s) != 0 || (WValue(s) != 0 && WValue(s) != 1) {
        return Stall;
      }
      r := StatusStage(-1, WValue(s));
    } else if request == 0x08 {
      if !DirIn(s) || recip != 0 || WValue(s) != 0 || WIndex(s) != 0 || WLength(s) != 1 { return Stall; }
      Put(scratch, [if configured then 1 else 0]);
      r := Reply(Scratch, 1, 1);
    } else if request == 0x00 {
      r := ResolveGetStatus(s, scratch);
    } else if request == 0x01 || request == 0x03 {
      if DirIn(s) || WLength(s) != 0 { return Stall; }
      r := if recip == 2 && WValue(s) == 0 && ValidEndpoint(WIndex(s)) then StatusStage(-1, -1) else Stall;
    } else {
      r := Stall;
    }
  }

  /** The resolver: its answer, and the scratch buffer it leaves. */
  method ResolveInto(s: Setup, configured: bool, d: Descriptors, scratch: array<byte>) returns (r: Response)
    requires scratch.Length == SCRATCH
    modifies scratch
    ensures Resolution(r, scratch[..]) == Resolve(s, configured, d, old(scratch[..]))
  {
    hide Standard, ClassRequest;
    var kind := IntOf(Kind(s));
    if kind == 0x00 {
      r := ResolveStandard(s, configured, d, scratch);
    } else {
      r := if kind == 0x20 then ClassRequest(s) else Stall;
    }
  }
}
