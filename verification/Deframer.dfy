/** The host's streaming decoder: one state machine fed byte by byte, resynchronising on FLAG. */
module Deframing {
  import opened Bytes
  import opened Framing
  import Crc

  datatype Report =
    | EscapeError(raw: seq<byte>)
    | MalformedError(raw: seq<byte>)
    | CrcError(raw: seq<byte>)
    | LenError(raw: seq<byte>)
    | StatusReport(no: byte, dropped: u32)
    | DataReport(kind: byte, no: byte, ts: u32, data: seq<byte>)
  {
    predicate IsError() { EscapeError? || MalformedError? || CrcError? || LenError? }
  }

  datatype State = State(buf: seq<byte>, inFrame: bool, esc: bool, bad: bool)

  const START := State([], false, false, false)

  /** Just after a FLAG. */
  const CLEAN := State([], true, false, false)

  /** The verdict on the unstuffed bytes between two FLAGs. */
  function Decode(inner: seq<byte>): Report {
    if |inner| < 5 then MalformedError(inner)
    else
      var body := inner[..|inner| - 1];
      if Crc.Crc8(body) != inner[|inner| - 1] then CrcError(inner)
      else if IntOf(body[2]) + 3 != |body| || IntOf(body[2]) < 4 then LenError(inner)
      else if body[0] == STATUS_TYPE then StatusReport(body[1], FromLE32(body[3..7]))
      else DataReport(body[0], body[1], FromLE32(body[3..7]), body[7..])
  }

  /** What a FLAG arriving in state `d` makes the decoder report. */
  function Flush(d: State): (r: seq<Report>)
    ensures |r| <= 1
  {
    if !d.inFrame || d.buf == [] then []
    else if d.bad || d.esc then [EscapeError(d.buf)]
    else [Decode(d.buf)]
  }

  function Next(d: State, b: byte): State {
    if b == FLAG then CLEAN
    else if !d.inFrame then d
    else if d.esc then
      if b == ESC_FLAG then d.(buf := d.buf + [FLAG], esc := false)
      else if b == ESC_ESC then d.(buf := d.buf + [ESC], esc := false)
      else d.(bad := true, esc := false)
    else if b == ESC then d.(esc := true)
    else d.(buf := d.buf + [b])
  }

  function Said(d: State, b: byte): seq<Report> { if b == FLAG then Flush(d) else [] }

  function After(d: State, s: seq<byte>): State {
    if s == [] then d else Next(After(d, s[..|s| - 1]), s[|s| - 1])
  }

  function Reports(d: State, s: seq<byte>): seq<Report> {
    if s == [] then [] else Reports(d, s[..|s| - 1]) + Said(After(d, s[..|s| - 1]), s[|s| - 1])
  }

  class Deframer {
    var buf: seq<byte>
    var inFrame: bool
    var esc: bool
    var bad: bool

    function Now(): State
      reads this
    {
      State(buf, inFrame, esc, bad)
    }

    constructor ()
      ensures Now() == START
    {
      buf, inFrame, esc, bad := [], false, false, false;
    }

    method Feed(chunk: seq<byte>) returns (out: seq<Report>)
      modifies this
      ensures Now() == After(old(Now()), chunk)
      ensures out == Reports(old(Now()), chunk)
    {
      hide Decode;
      out := [];
      for i := 0 to |chunk|
        invariant Now() == After(old(Now()), chunk[..i])
        invariant out == Reports(old(Now()), chunk[..i])
      {
        var b := chunk[i];
        assert chunk[..i + 1][..i] == chunk[..i];
        if b == FLAG {
          if inFrame && buf != [] {
            if bad || esc {
              out := out + [EscapeError(buf)];
            } else {
              out := out + [Decode(buf)];
            }
          }
          buf, inFrame, esc, bad := [], true, false, false;
        } else if !inFrame {
        } else if esc {
          if b == ESC_FLAG {
            buf := buf + [FLAG];
          } else if b == ESC_ESC {
            buf := buf + [ESC];
          } else {
            bad := true;
          }
          esc := false;
        } else if b == ESC {
          esc := true;
        } else {
          buf := buf + [b];
        }
      }
      assert chunk[..|chunk|] == chunk;
    }
  }

  // ---- Chunking ----

  lemma {:induction false} FeedAppend(d: State, s: seq<byte>, t: seq<byte>)
    ensures After(d, s + t) == After(After(d, s), t)
    ensures Reports(d, s + t) == Reports(d, s) + Reports(After(d, s), t)
    decreases |t|
  {
    hide Next, Said;
    if t == [] {
      assert s + t == s && Reports(d, s) + Reports(After(d, s), t) == Reports(d, s);
    } else {
      var n := |t| - 1;
      FeedAppend(d, s, t[..n]);
      DropLastOfConcat(s, t);
      ConcatAssociative(Reports(d, s), Reports(After(d, s), t[..n]), Said(After(After(d, s), t[..n]), t[n]));
    }
  }

  lemma {:induction false} FeedOne(d: State, b: byte)
    ensures After(d, [b]) == Next(d, b) && Reports(d, [b]) == Said(d, b)
  {
    assert [b][..0] == [];
  }

  function Concat(chunks: seq<seq<byte>>): seq<byte> {
    if chunks == [] then [] else Concat(chunks[..|chunks| - 1]) + chunks[|chunks| - 1]
  }

  /** Feeding chunk after chunk. */
  function AfterChunks(d: State, chunks: seq<seq<byte>>): State {
    if chunks == [] then d else After(AfterChunks(d, chunks[..|chunks| - 1]), chunks[|chunks| - 1])
  }

  function ReportsOfChunks(d: State, chunks: seq<seq<byte>>): seq<Report> {
    if chunks == [] then []
    else
      var n := |chunks| - 1;
      ReportsOfChunks(d, chunks[..n]) + Reports(AfterChunks(d, chunks[..n]), chunks[n])
  }

  /** How the input is cut into chunks makes no difference. */
  lemma {:induction false} ChunksDoNotMatter(d: State, chunks: seq<seq<byte>>)
    ensures AfterChunks(d, chunks) == After(d, Concat(chunks))
    ensures ReportsOfChunks(d, chunks) == Reports(d, Concat(chunks))
    decreases |chunks|
  {
    if chunks != [] {
      var n := |chunks| - 1;
      ChunksDoNotMatter(d, chunks[..n]);
      FeedAppend(d, Concat(chunks[..n]), chunks[n]);
    }
  }

  // ---- Stuffing and unstuffing ----

  lemma {:induction false} FeedStuffedByte(d: State, b: byte)
    requires d.inFrame && !d.esc
    ensures After(d, StuffByte(b)) == d.(buf := d.buf + [b]) && Reports(d, StuffByte(b)) == []
  {
    if b == FLAG || b == ESC {
      var e := if b == FLAG then ESC_FLAG else ESC_ESC;
      FeedAppend(d, [ESC], [e]);
      FeedOne(d, ESC);
      FeedOne(d.(esc := true), e);
      assert [ESC] + [e] == StuffByte(b);
    } else {
      FeedOne(d, b);
    }
  }

  /** A stuffed body is read back unchanged and without a report. */
  lemma {:induction false} FeedStuffed(d: State, s: seq<byte>)
    requires d.inFrame && !d.esc
    ensures After(d, Stuff(s)) == d.(buf := d.buf + s) && Reports(d, Stuff(s)) == []
    decreases |s|
  {
    hide StuffByte, Next, Said;
    if s == [] {
      assert d.buf + s == d.buf;
    } else {
      var n := |s| - 1;
      var mid := d.(buf := d.buf + s[..n]);
      FeedStuffed(d, s[..n]);
      FeedAppend(d, Stuff(s[..n]), StuffByte(s[n]));
      FeedStuffedByte(mid, s[n]);
      assert mid.buf + [s[n]] == d.buf + s;
    }
  }

  /** The bytes after the opening FLAG are a stuffing of d's buffer, an escape under way apart. */
  predicate ReadAs(d: State, w: seq<byte>) {
    d.inFrame && (!d.bad ==> w == if d.esc then Stuff(d.buf) + [ESC] else Stuff(d.buf))
  }

  /** One more byte between two FLAGs. */
  lemma {:induction false} ReadOneMore(d: State, b: byte, w: seq<byte>)
    requires b != FLAG && ReadAs(d, w)
    ensures ReadAs(Next(d, b), w + [b]) && Said(d, b) == []
  {
    var e := Next(d, b);
    if !e.bad && !e.esc {
      var x := if d.esc then (if b == ESC_FLAG then FLAG else ESC) else b;
      assert e.buf == d.buf + [x];
      assert (d.buf + [x])[..|d.buf|] == d.buf;
      assert w + [b] == Stuff(d.buf) + StuffByte(x);
    }
  }

  lemma {:induction false} CleanReads()
    ensures ReadAs(CLEAN, []) && ReadAs(After(CLEAN, []), [])
  {
    StuffEmpty();
  }

  /** Between two FLAGs the decoder has read exactly a stuffing of its buffer, unless it has noticed an error. */
  lemma {:induction false} ReadIsStuffed(w: seq<byte>)
    requires FLAG !in w
    ensures Reports(CLEAN, w) == [] && ReadAs(After(CLEAN, w), w)
    decreases |w|
  {
    hide ReadAs, Next, Said;
    if w == [] {
      CleanReads();
    } else {
      var n := |w| - 1;
      ReadIsStuffed(w[..n]);
      assert w == w[..n] + [w[n]];
      ReadOneMore(After(CLEAN, w[..n]), w[n], w[..n]);
    }
  }

  /** No non-canonical escape sequence is accepted: a clean read is the stuffing of what was read, and conversely. */
  lemma {:induction false} AcceptedIffStuffed(w: seq<byte>)
    requires FLAG !in w
    ensures var d := After(CLEAN, w); !d.bad && !d.esc <==> exists s :: w == Stuff(s)
    ensures var d := After(CLEAN, w); !d.bad && !d.esc ==> w == Stuff(d.buf)
  {
    hide Next, Said, After, Stuff;
    ReadIsStuffed(w);
    var d := After(CLEAN, w);
    assert !d.bad && !d.esc ==> w == Stuff(d.buf);
    forall s | w == Stuff(s)
      ensures var d := After(CLEAN, w); !d.bad && !d.esc
    {
      FeedStuffed(CLEAN, s);
    }
  }

  // ---- Printer and parser ----

  /** What a well-formed frame decodes to. */
  function Decoded(f: Frame): Report {
    match f
    case Data(no, ts, data) => DataReport(DATA_TYPE, no, ts, data)
    case Status(no, dropped) => StatusReport(no, dropped)
  }

  function DecodedAll(fs: seq<Frame>): seq<Report> {
    seq(|fs|, i requires 0 <= i < |fs| => Decoded(fs[i]))
  }

  /** The checks of the parser pass on what the printer puts between two FLAGs. */
  lemma {:induction false} DecodeInner(kind: byte, no: byte, arg: seq<byte>)
    requires 4 <= |arg| < 256
    ensures Decode(Inner(kind, no, arg)) ==
            if kind == STATUS_TYPE then StatusReport(no, FromLE32(arg[..4]))
            else DataReport(kind, no, FromLE32(arg[..4]), arg[4..])
  {
    hide Crc.Crc8, ByteOf, IntOf, FromLE32;
    var inner, body := Inner(kind, no, arg), Body(kind, no, arg);
    IntOfByteOf(|arg|);
    assert inner[..|inner| - 1] == body && inner[|inner| - 1] == Crc.Crc8(body);
    assert body[3..7] == arg[..4] && body[7..] == arg[4..];
  }

  /** An accepted sequence of inner bytes is what the printer makes of its own type, number and argument. */
  lemma {:induction false} AcceptedIsInner(x: seq<byte>)
    requires !Decode(x).IsError()
    ensures 8 <= |x| <= 259 && x == Inner(x[0], x[1], x[3..|x| - 1])
    ensures match Decode(x)
            case StatusReport(no, dropped) => x[0] == STATUS_TYPE && x[1] == no && x[3..7] == LE32(dropped)
            case DataReport(kind, no, ts, data) =>
              kind != STATUS_TYPE && |data| <= 251 && x == Inner(kind, no, LE32(ts) + data)
  {
    hide Crc.Crc8, ByteOf, IntOf, FromLE32, LE32;
    var body := x[..|x| - 1];
    var arg := x[3..|x| - 1];
    assert x == body + [x[|x| - 1]];
    ByteOfIntOf(body[2]);
    assert body == [x[0], x[1], body[2]] + arg;
    LE32FromLE32(body[3..7]);
    assert arg == body[3..7] + body[7..];
  }

  lemma {:induction false} DecodedWire(f: Frame)
    requires f.Fits()
    ensures Decode(Inner(f.Kind(), f.no, f.Arg())) == Decoded(f)
  {
    hide Crc.Crc8, ByteOf, IntOf, FromLE32, LE32, Inner, Decode;
    var arg := f.Arg();
    DecodeInner(f.Kind(), f.no, arg);
    FromLE32LE32(if f.Data? then f.ts else f.dropped);
    if f.Data? {
      assert arg[..4] == LE32(f.ts) && arg[4..] == f.data;
    } else {
      assert arg[..4] == LE32(f.dropped);
    }
  }

  /** Bytes `w` free of FLAG, then a FLAG, from just after a FLAG. */
  lemma {:induction false} FlagEndsFrame(w: seq<byte>)
    requires FLAG !in w
    ensures After(CLEAN, w + [FLAG]) == CLEAN && Reports(CLEAN, w + [FLAG]) == Flush(After(CLEAN, w))
  {
    hide Decode;
    ReadIsStuffed(w);
    FeedAppend(CLEAN, w, [FLAG]);
    FeedOne(After(CLEAN, w), FLAG);
  }

  /** A FLAG, a stuffed body and a FLAG. */
  lemma {:induction false} FramedBytes(d: State, inner: seq<byte>)
    requires inner != []
    ensures var w := [FLAG] + Stuff(inner) + [FLAG];
            After(d, w) == CLEAN && Reports(d, w) == Flush(d) + [Decode(inner)]
  {
    hide Decode, Stuff, Flush, After, Reports;
    var full := CLEAN.(buf := inner);
    FeedAppend(d, [FLAG] + Stuff(inner), [FLAG]);
    FeedAppend(d, [FLAG], Stuff(inner));
    FeedOne(d, FLAG);
    FeedStuffed(CLEAN, inner);
    assert CLEAN.buf + inner == inner;
    FeedOne(full, FLAG);
    FlushFull(full);
  }

  lemma {:induction false} FlushFull(d: State)
    requires d.inFrame && !d.esc && !d.bad && d.buf != []
    ensures Flush(d) == [Decode(d.buf)]
  {
  }

  /** From any state, an encoded frame yields whatever the state still had to report and then its own fields. */
  lemma {:induction false} FrameDecodes(d: State, f: Frame)
    requires f.Fits()
    ensures After(d, f.Wire()) == CLEAN && Reports(d, f.Wire()) == Flush(d) + [Decoded(f)]
  {
    hide Decode, Flush, Stuff, Decoded;
    DecodedWire(f);
    FramedBytes(d, Inner(f.Kind(), f.no, f.Arg()));
  }

  /**
   * Resynchronisation: whatever came before, a list of well-formed frames yields at most one extra report, for the
   * bytes before the first FLAG, and then exactly the frames, in order.
   */
  lemma {:induction false} Resynchronises(d: State, fs: seq<Frame>)
    requires AllFit(fs)
    ensures Reports(d, WireAll(fs)) == (if fs == [] then [] else Flush(d)) + DecodedAll(fs)
    ensures After(d, WireAll(fs)) == if fs == [] then d else CLEAN
    decreases |fs|
  {
    hide Flush, Frame.Wire, Decoded, Next, Said, After, Reports;
    if fs == [] {
      EmptyFeed(d);
    } else {
      var n := |fs| - 1;
      Resynchronises(d, fs[..n]);
      FeedAppend(d, WireAll(fs[..n]), fs[n].Wire());
      FrameDecodes(After(d, WireAll(fs[..n])), fs[n]);
      FlushClean();
      assert DecodedAll(fs) == DecodedAll(fs[..n]) + [Decoded(fs[n])];
      if n == 0 {
        EmptyFeed(d);
      }
    }
  }

  lemma {:induction false} WireAllNone()
    ensures WireAll([]) == [] && DecodedAll([]) == []
  {
  }

  lemma {:induction false} EmptyFeed(d: State)
    ensures After(d, []) == d && Reports(d, []) == []
  {
  }

  lemma {:induction false} FlushClean()
    ensures Flush(CLEAN) == [] && Flush(START) == []
  {
  }

  /** A partly received stream of frames has yielded a prefix of the frames, and nothing else. */
  lemma {:induction false} PrefixDecodes(fs: seq<Frame>, p: seq<byte>)
    requires AllFit(fs) && p <= WireAll(fs)
    ensures Reports(START, p) <= DecodedAll(fs)
    ensures p == WireAll(fs) ==> Reports(START, p) == DecodedAll(fs)
  {
    hide Flush, Decoded, DecodedAll, Next, Said, After, Reports, WireAll;
    var rest := WireAll(fs)[|p|..];
    assert WireAll(fs) == p + rest;
    FeedAppend(START, p, rest);
    Resynchronises(START, fs);
    FlushClean();
    EmptyFeed(START);
    assert [] + DecodedAll(fs) == DecodedAll(fs);
    assert fs == [] ==> WireAll(fs) == [] && DecodedAll(fs) == [] by { WireAllNone(); }
  }

  /**
   * The parser followed by the printer is the identity on everything reported as data: only the bytes the
   * printer would have produced are accepted, whatever their TYPE.
   */
  lemma {:induction false} DataReportIsCanonical(w: seq<byte>, kind: byte, no: byte, ts: u32, data: seq<byte>)
    requires FLAG !in w && Reports(CLEAN, w + [FLAG]) == [DataReport(kind, no, ts, data)]
    ensures |data| <= 251 && [FLAG] + w + [FLAG] == Encode(kind, no, LE32(ts) + data)
  {
    var x := After(CLEAN, w).buf;
    FlagEndsFrame(w);
    AcceptedIffStuffed(w);
    AcceptedIsInner(x);
    hide Decode, Inner, Stuff, Encode, Next, Said, After, Reports;
    EncodeIsIff(x, kind, no, LE32(ts) + data);
  }

  lemma {:induction false} StuffInjective(a: seq<byte>, b: seq<byte>)
    requires Stuff(a) == Stuff(b)
    ensures a == b
  {
    FeedStuffed(CLEAN, a);
    FeedStuffed(CLEAN, b);
    assert CLEAN.buf + a == a && CLEAN.buf + b == b;
  }

  lemma {:induction false} EncodeIsIff(x: seq<byte>, kind: byte, no: byte, arg: seq<byte>)
    requires |arg| < 256
    ensures [FLAG] + Stuff(x) + [FLAG] == Encode(kind, no, arg) <==> x == Inner(kind, no, arg)
  {
    hide Stuff, Inner;
    var y := Inner(kind, no, arg);
    assert ([FLAG] + Stuff(x) + [FLAG])[1..|Stuff(x)| + 1] == Stuff(x);
    assert ([FLAG] + Stuff(y) + [FLAG])[1..|Stuff(y)| + 1] == Stuff(y);
    if Stuff(x) == Stuff(y) { StuffInjective(x, y); }
  }

  lemma {:induction false} InnerWithFourArguments(x: seq<byte>)
    requires 8 <= |x| <= 259 && x == Inner(x[0], x[1], x[3..|x| - 1])
    ensures x == Inner(x[0], x[1], x[3..7]) <==> x[2] == ByteOf(4)
  {
    hide Crc.Crc8, ByteOf, IntOf;
    IntOfByteOf(4);
    IntOfByteOf(|x| - 4);
    if x[2] == ByteOf(4) {
      assert x[3..|x| - 1] == x[3..7];
    }
  }

  /** A STATUS report stands for the frame the printer makes of it exactly when its LEN byte is 4. */
  lemma {:induction false} StatusReportIsCanonicalIff(w: seq<byte>, no: byte, dropped: u32)
    requires FLAG !in w && Reports(CLEAN, w + [FLAG]) == [StatusReport(no, dropped)]
    ensures |After(CLEAN, w).buf| >= 8
    ensures [FLAG] + w + [FLAG] == Status(no, dropped).Wire() <==> After(CLEAN, w).buf[2] == ByteOf(4)
  {
    var x := After(CLEAN, w).buf;
    FlagEndsFrame(w);
    AcceptedIffStuffed(w);
    AcceptedIsInner(x);
    hide Decode, Inner, Stuff, Encode, Next, Said, After, Reports;
    InnerWithFourArguments(x);
    EncodeIsIff(x, STATUS_TYPE, no, LE32(dropped));
  }

  /** The errors the checksum is certain to notice. */
  predicate Noticed(e: seq<byte>) {
    || Crc.OddBits(e)
    || (exists i :: 0 <= i < |e| && e[i] != 0 && forall j :: 0 <= j < |e| && j != i ==> e[j] == 0)
    || (exists i, k :: 0 <= i < |e| - 1 && 0 <= k <= 8 && Crc.BurstMsbFirst(e, i, k) && (e[i] != 0 || e[i + 1] != 0))
  }

  lemma {:induction false} NoticedChangesResidue(x: seq<byte>, e: seq<byte>)
    requires |x| == |e| && Crc.Crc8(x) == 0 && Noticed(e)
    ensures Crc.Crc8(Crc.Flip(x, e)) != 0
  {
    hide Crc.Crc8, Crc.Flip, Crc.OddBits, Crc.BurstMsbFirst;
    if Crc.OddBits(e) {
      Crc.OddErrorsDetected(x, e);
    } else if i :| 0 <= i < |e| && e[i] != 0 && forall j :: 0 <= j < |e| && j != i ==> e[j] == 0 {
      Crc.SingleByteErrorsDetected(x, e, i);
    } else {
      var i, k :| 0 <= i < |e| - 1 && 0 <= k <= 8 && Crc.BurstMsbFirst(e, i, k) && (e[i] != 0 || e[i + 1] != 0);
      Crc.BurstsDetectedMsbFirst(x, e, i, k);
    }
  }

  lemma {:induction false} ResidueOfDecoded(x: seq<byte>)
    requires |x| >= 5
    ensures Decode(x) == CrcError(x) <==> Crc.Crc8(x) != 0
  {
    hide Crc.Crc8;
    Crc.ResidueZero(x[..|x| - 1], x[|x| - 1]);
    assert x == x[..|x| - 1] + [x[|x| - 1]];
  }

  /** Flipping bits of accepted inner bytes in any of these ways is reported, as one CRC error. */
  lemma {:induction false} CorruptionReported(x: seq<byte>, e: seq<byte>)
    requires !Decode(x).IsError() && |e| == |x| && Noticed(e)
    ensures Reports(CLEAN, Stuff(Crc.Flip(x, e)) + [FLAG]) == [CrcError(Crc.Flip(x, e))]
  {
    var y := Crc.Flip(x, e);
    ResidueOfDecoded(x);
    NoticedChangesResidue(x, e);
    ResidueOfDecoded(y);
    hide Decode, Stuff, Crc.Flip, Crc.Crc8, Noticed;
    FeedStuffed(CLEAN, y);
    assert CLEAN.buf + y == y;
    FeedAppend(CLEAN, Stuff(y), [FLAG]);
    FeedOne(After(CLEAN, Stuff(y)), FLAG);
  }

  // ---- What is reported, for any bytes between two FLAGs ----

  /** Bytes unstuffed: what is kept of them, and whether every ESC began one of the two pairs there are. */
  datatype Unstuffed = Unstuffed(kept: seq<byte>, clean: bool)

  /** Unstuffing from the front, a pair at a time. */
  function Unstuff(w: seq<byte>): Unstuffed
    decreases |w|
  {
    if w == [] then Unstuffed([], true)
    else if w[0] != 0x7D then
      var u := Unstuff(w[1..]);
      u.(kept := [w[0]] + u.kept)
    else if |w| == 1 then Unstuffed([], false)
    else
      var u := Unstuff(w[2..]);
      Unstuffed(PairOf(w[1]) + u.kept, u.clean && PairOf(w[1]) != [])
  }

  /** What an ESC and the byte after it stand for. */
  function PairOf(b: byte): seq<byte> { if b == 0x5E then [0x7E] else if b == 0x5D then [0x7D] else [] }

  lemma {:induction false} SingleRead(d: State, b: byte)
    requires d.inFrame && !d.esc && b != FLAG
    ensures After(d, [b]) == if b == ESC then d.(esc := true) else d.(buf := d.buf + [b])
  {
    FeedOne(d, b);
  }

  lemma {:induction false} NothingKept(d: State)
    ensures After(d, []) == d && d.buf + [] == d.buf
  {
  }

  /** The decoder, fed byte by byte, unstuffs. */
  lemma {:induction false} ReadIsUnstuffed(d: State, w: seq<byte>)
    requires FLAG !in w && d.inFrame && !d.esc
    ensures var e, u := After(d, w), Unstuff(w);
            e.inFrame && e.buf == d.buf + u.kept && (!e.bad && !e.esc <==> !d.bad && u.clean)
    decreases |w|
  {
    hide Next, After, Said, Reports, PairOf;
    NothingKept(d);
    if w == [] {
    } else if w[0] != ESC {
      SingleRead(d, w[0]);
      FeedAppend(d, [w[0]], w[1..]);
      assert w == [w[0]] + w[1..];
      ReadIsUnstuffed(d.(buf := d.buf + [w[0]]), w[1..]);
      ConcatAssociative(d.buf, [w[0]], Unstuff(w[1..]).kept);
    } else if |w| == 1 {
      SingleRead(d, ESC);
      assert w == [ESC];
    } else {
      PairRead(d, w[1]);
      FeedAppend(d, [ESC, w[1]], w[2..]);
      assert w == [ESC, w[1]] + w[2..];
      ReadIsUnstuffed(After(d, [ESC, w[1]]), w[2..]);
      ConcatAssociative(d.buf, PairOf(w[1]), Unstuff(w[2..]).kept);
    }
  }

  lemma {:induction false} PairRead(d: State, b: byte)
    requires d.inFrame && !d.esc && b != FLAG
    ensures var e := After(d, [ESC, b]);
            && e.inFrame && !e.esc && e.bad == (d.bad || PairOf(b) == []) && e.buf == d.buf + PairOf(b)
  {
    FeedOne(d, ESC);
    FeedOne(d.(esc := true), b);
    FeedAppend(d, [ESC], [b]);
    assert [ESC] + [b] == [ESC, b];
  }

  /** Bytes between two FLAGs that stuff nothing. */
  ghost predicate Broken(w: seq<byte>) { forall s :: w != Stuff(s) }

  /** The verdict on bytes between two FLAGs, in terms of what unstuffing keeps of them. */
  lemma {:induction false} FrameVerdict(w: seq<byte>)
    requires FLAG !in w
    ensures var x := Unstuff(w).kept;
            && (!Broken(w) <==> Unstuff(w).clean) && (!Broken(w) ==> w == Stuff(x))
            && Reports(CLEAN, w + [FLAG]) ==
               if x == [] then [] else if Broken(w) then [EscapeError(x)] else [Decode(x)]
  {
    hide Decode, Next, Said, After, Reports, Stuff, Unstuff;
    ReadIsUnstuffed(CLEAN, w);
    assert CLEAN.buf + Unstuff(w).kept == Unstuff(w).kept;
    BrokenIff(w);
    FlagEndsFrame(w);
  }

  lemma {:induction false} BrokenIff(w: seq<byte>)
    requires FLAG !in w
    ensures var d := After(CLEAN, w);
            (Broken(w) <==> d.bad || d.esc) && (!Broken(w) ==> w == Stuff(d.buf))
  {
    AcceptedIffStuffed(w);
    hide Next, Said, After, Reports;
    var d := After(CLEAN, w);
    if d.bad || d.esc {
      forall s
        ensures w != Stuff(s)
      {
        if w == Stuff(s) { FeedStuffed(CLEAN, s); }
      }
    } else {
      assert w == Stuff(d.buf);
    }
  }

  /** Which unstuffed bytes are rejected, and how. */
  lemma {:induction false} BodyVerdict(x: seq<byte>)
    ensures Decode(x) == MalformedError(x) <==> |x| < 5
    ensures Decode(x) == CrcError(x) <==> |x| >= 5 && Crc.Crc8(x) != 0
    ensures Decode(x) == LenError(x) <==>
            |x| >= 5 && Crc.Crc8(x) == 0 && (IntOf(x[2]) < 4 || |x| != IntOf(x[2]) + 4)
    ensures !Decode(x).IsError() <==>
            |x| >= 8 && Crc.Crc8(x) == 0 && |x| == IntOf(x[2]) + 4
    ensures !Decode(x).EscapeError?
  {
    if |x| >= 5 { ResidueOfDecoded(x); }
    hide Crc.Crc8, IntOf, FromLE32;
  }

  /**
   * Every frame between two FLAGs is reported, good or bad, exactly once and under its own error, unless nothing was
   * kept of it: a broken escape before anything else; of the rest, fewer than five bytes as malformed, a nonzero
   * residue as a checksum error, a LEN byte that is below four or not the number of argument bytes as a length error.
   */
  lemma {:induction false} EveryFrameReported(w: seq<byte>)
    requires FLAG !in w
    ensures var x, rs := Unstuff(w).kept, Reports(CLEAN, w + [FLAG]);
            && (rs == [] <==> x == []) && |rs| <= 1
            && (rs == [EscapeError(x)] <==> x != [] && Broken(w))
            && (rs == [MalformedError(x)] <==> 0 < |x| < 5 && !Broken(w))
            && (rs == [CrcError(x)] <==> |x| >= 5 && !Broken(w) && Crc.Crc8(x) != 0)
            && (rs == [LenError(x)] <==>
                |x| >= 5 && !Broken(w) && Crc.Crc8(x) == 0 && (IntOf(x[2]) < 4 || |x| != IntOf(x[2]) + 4))
            && (rs != [] && !rs[0].IsError() <==>
                |x| >= 8 && !Broken(w) && Crc.Crc8(x) == 0 && |x| == IntOf(x[2]) + 4)
  {
    FrameVerdict(w);
    BodyVerdict(Unstuff(w).kept);
    hide Decode, Reports, Unstuff, Broken, Crc.Crc8, IntOf;
  }

  /** Three frames gone bad: a dangling escape, an escape before a good pair, and a body too short. */
  lemma {:induction false} KnownBadFrames()
    ensures Reports(START, [0x7E, 0xAA, 0xBB, 0x7D, 0x7E]) == [EscapeError([0xAA, 0xBB])]
    ensures Reports(START, [0x7E, 0x01, 0x7D, 0x7D, 0x5E, 0x7E]) == [EscapeError([0x01, 0x5E])]
    ensures Reports(START, [0x7E, 0x01, 0x02, 0x03, 0x04, 0x7E]) == [MalformedError([0x01, 0x02, 0x03, 0x04])]
  {
    hide Decode, Next, Said, After, Reports, Stuff, Broken;
    var a: seq<byte>, b: seq<byte> := [0xAA, 0xBB, 0x7D], [0x01, 0x7D, 0x7D, 0x5E];
    var c: seq<byte> := [0x01, 0x02, 0x03, 0x04];
    FromStart(a);
    FromStart(b);
    FromStart(c);
    assert [0x7E] + a + [0x7E] == [0x7E, 0xAA, 0xBB, 0x7D, 0x7E];
    assert [0x7E] + b + [0x7E] == [0x7E, 0x01, 0x7D, 0x7D, 0x5E, 0x7E];
    assert [0x7E] + c + [0x7E] == [0x7E, 0x01, 0x02, 0x03, 0x04, 0x7E];
    UnstuffedThree();
    BodyVerdict([0x01, 0x02, 0x03, 0x04]);
  }

  lemma {:induction false} UnstuffedThree()
    ensures Unstuff([0xAA, 0xBB, 0x7D]) == Unstuffed([0xAA, 0xBB], false)
    ensures Unstuff([0x01, 0x7D, 0x7D, 0x5E]) == Unstuffed([0x01, 0x5E], false)
    ensures Unstuff([0x01, 0x02, 0x03, 0x04]) == Unstuffed([0x01, 0x02, 0x03, 0x04], true)
  {
    assert Unstuff([0xBB, 0x7D]) == Unstuffed([0xBB], false);
    assert Unstuff([0x7D, 0x7D, 0x5E]) == Unstuffed([0x5E], false);
    assert Unstuff([0x03, 0x04]) == Unstuffed([0x03, 0x04], true);
    assert Unstuff([0x02, 0x03, 0x04]) == Unstuffed([0x02, 0x03, 0x04], true);
  }

  lemma {:induction false} FromStart(w: seq<byte>)
    requires FLAG !in w
    ensures var x := Unstuff(w).kept;
            Reports(START, [0x7E] + w + [0x7E]) ==
            if x == [] then [] else if !Unstuff(w).clean then [EscapeError(x)] else [Decode(x)]
  {
    hide Decode, Next, Said, After, Reports, Unstuff, Broken, Flush;
    FrameVerdict(w);
    FlushClean();
    FromFlag(START);
    FeedAppend(START, [FLAG], w + [FLAG]);
    ConcatAssociative([FLAG], w, [FLAG]);
    assert [] + Reports(CLEAN, w + [FLAG]) == Reports(CLEAN, w + [FLAG]);
  }

  lemma {:induction false} FromFlag(d: State)
    ensures After(d, [FLAG]) == CLEAN && Reports(d, [FLAG]) == Flush(d)
  {
    FeedOne(d, FLAG);
  }
}
