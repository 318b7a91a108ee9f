/** The wire format: byte stuffing, the frame layout and its two encoders. */
module Framing {
  import opened Bytes
  import Crc

  const FLAG: byte := 0x7E
  const ESC: byte := 0x7D
  const ESC_FLAG: byte := 0x5E
  const ESC_ESC: byte := 0x5D
  const DATA_TYPE: byte := 0xF0
  const STATUS_TYPE: byte := 0xF1
  const MAX_CHUNK: nat := 32
  const INNER_MAX: nat := 4 + 4 + MAX_CHUNK
  const ENC_MAX: nat := 2 + 2 * INNER_MAX

  function StuffByte(b: byte): (s: seq<byte>)
    ensures 1 <= |s| <= 2
  {
    if b == FLAG then [ESC, ESC_FLAG] else if b == ESC then [ESC, ESC_ESC] else [b]
  }

  function Stuff(s: seq<byte>): (r: seq<byte>)
    ensures |s| <= |r| <= 2 * |s|
  {
    if s == [] then [] else Stuff(s[..|s| - 1]) + StuffByte(s[|s| - 1])
  }

  lemma {:induction false} StuffEmpty()
    ensures Stuff([]) == [] && Crc.Crc8([]) == 0
  {
  }

  lemma {:induction false} ConcatAssociative<T>(a: seq<T>, b: seq<T>, c: seq<T>)
    ensures (a + b) + c == a + (b + c)
  {
  }

  lemma {:induction false} DropLastOfConcat<T>(s: seq<T>, t: seq<T>)
    requires t != []
    ensures (s + t)[..|s + t| - 1] == s + t[..|t| - 1] && (s + t)[|s + t| - 1] == t[|t| - 1]
  {
  }

  lemma {:induction false} StuffAppend(s: seq<byte>, t: seq<byte>)
    ensures Stuff(s + t) == Stuff(s) + Stuff(t)
    decreases |t|
  {
    hide StuffByte;
    if t == [] {
      assert s + t == s && Stuff(s) + Stuff(t) == Stuff(s);
    } else {
      var n := |t| - 1;
      StuffAppend(s, t[..n]);
      DropLastOfConcat(s, t);
      ConcatAssociative(Stuff(s), Stuff(t[..n]), StuffByte(t[n]));
    }
  }

  /** The bytes the checksum covers. */
  function Body(kind: byte, no: byte, arg: seq<byte>): seq<byte>
    requires |arg| < 256
  {
    [kind, no, ByteOf(|arg|)] + arg
  }

  function Inner(kind: byte, no: byte, arg: seq<byte>): seq<byte>
    requires |arg| < 256
  {
    Body(kind, no, arg) + [Crc.Crc8(Body(kind, no, arg))]
  }

  function Encode(kind: byte, no: byte, arg: seq<byte>): seq<byte>
    requires |arg| < 256
  {
    [FLAG] + Stuff(Inner(kind, no, arg)) + [FLAG]
  }

  /** What a frame carries; `no` is its sequence number. */
  datatype Frame =
    | Data(no: byte, ts: u32, data: seq<byte>)
    | Status(no: byte, dropped: u32)
  {
    function Kind(): byte { if Data? then DATA_TYPE else STATUS_TYPE }

    function Arg(): seq<byte> { if Data? then LE32(ts) + data else LE32(dropped) }

    predicate Fits() { Data? ==> |data| <= 251 }

    function Wire(): seq<byte>
      requires Fits()
    {
      Encode(Kind(), no, Arg())
    }
  }

  predicate AllFit(fs: seq<Frame>) { forall f :: f in fs ==> f.Fits() }

  function WireAll(fs: seq<Frame>): seq<byte>
    requires AllFit(fs)
  {
    if fs == [] then [] else WireAll(fs[..|fs| - 1]) + fs[|fs| - 1].Wire()
  }

  lemma {:induction false} WireAllAppend(fs: seq<Frame>, gs: seq<Frame>)
    requires AllFit(fs) && AllFit(gs)
    ensures AllFit(fs + gs) && WireAll(fs + gs) == WireAll(fs) + WireAll(gs)
    decreases |gs|
  {
    hide Frame.Wire;
    if gs == [] {
      assert fs + gs == fs && WireAll(fs) + WireAll(gs) == WireAll(fs);
    } else {
      var n := |gs| - 1;
      WireAllAppend(fs, gs[..n]);
      DropLastOfConcat(fs, gs);
      ConcatAssociative(WireAll(fs), WireAll(gs[..n]), gs[n].Wire());
    }
  }

  lemma {:induction false} WireAllOne(f: Frame)
    requires f.Fits()
    ensures WireAll([f]) == f.Wire()
  {
    assert [f][..0] == [];
    assert WireAll([f]) == [] + f.Wire();
  }

  // ---- Length ----

  lemma {:induction false} PlainByte(b: byte)
    requires b != FLAG && b != ESC
    ensures StuffByte(b) == [b] == Stuff([b])
  {
    assert [b][..0] == [];
    assert Stuff([b]) == [] + StuffByte(b);
  }

  lemma {:induction false} SmallByte(n: nat)
    requires n <= 36
    ensures ByteOf(n) != FLAG && ByteOf(n) != ESC
  {
    IntOfByteOf(n);
    assert IntOf(FLAG) == 0x7E && IntOf(ESC) == 0x7D;
  }

  /** The type and length bytes of a relay frame are never stuffed. */
  lemma {:induction false} HeaderLength(kind: byte, no: byte, len: byte)
    requires kind != FLAG && kind != ESC && len != FLAG && len != ESC
    ensures 3 <= |Stuff([kind, no, len])| <= 4
  {
    PlainByte(kind);
    PlainByte(len);
    ThreeLengths([kind], [no], [len]);
    assert [kind] + [no] + [len] == [kind, no, len];
  }

  lemma {:induction false} ThreeLengths(a: seq<byte>, b: seq<byte>, c: seq<byte>)
    ensures |Stuff(a + b + c)| == |Stuff(a)| + |Stuff(b)| + |Stuff(c)|
  {
    hide StuffByte, Stuff;
    StuffAppend(a + b, c);
    StuffAppend(a, b);
  }

  lemma {:induction false} EncodedLength(kind: byte, no: byte, arg: seq<byte>)
    requires |arg| <= 4 + MAX_CHUNK && (kind == DATA_TYPE || kind == STATUS_TYPE)
    ensures |arg| + 6 <= |Encode(kind, no, arg)| <= 2 * |arg| + 8 <= ENC_MAX - 2
  {
    SmallByte(|arg|);
    HeaderLength(kind, no, ByteOf(|arg|));
    InnerLength([kind, no, ByteOf(|arg|)], arg, Crc.Crc8(Body(kind, no, arg)));
  }

  lemma {:induction false} InnerLength(header: seq<byte>, arg: seq<byte>, crc: byte)
    requires |header| <= |Stuff(header)| <= |header| + 1
    ensures |header| + |arg| + 1 <= |Stuff(header + arg + [crc])| <= |header| + 1 + 2 * |arg| + 2
  {
    hide StuffByte, Stuff;
    ThreeLengths(header, arg, [crc]);
  }

  /** A data frame of `n` bytes takes between n + 10 and 2n + 16 bytes on the wire. */
  lemma {:induction false} DataFrameLength(f: Frame)
    requires f.Data? && |f.data| <= MAX_CHUNK
    ensures f.Fits() && |f.data| + 10 <= |f.Wire()| <= 2 * |f.data| + 16
  {
    EncodedLength(DATA_TYPE, f.no, f.Arg());
  }

  // ---- The encoder of the firmware ----

  /** Appends one stuffed byte to the first `n` bytes of `out`. */
  method StuffInto(out: array<byte>, n: nat, b: byte) returns (m: nat)
    requires n + 2 <= out.Length
    modifies out
    ensures m == n + |StuffByte(b)| <= out.Length
    ensures out[..m] == old(out[..n]) + StuffByte(b)
  {
    m := n;
    if b == FLAG {
      out[m] := ESC;
      out[m + 1] := ESC_FLAG;
      m := m + 2;
    } else if b == ESC {
      out[m] := ESC;
      out[m + 1] := ESC_ESC;
      m := m + 2;
    } else {
      out[m] := b;
      m := m + 1;
    }
  }

  lemma {:induction false} StuffNext(s: seq<byte>, i: nat)
    requires i < |s|
    ensures Stuff(s[..i + 1]) == Stuff(s[..i]) + StuffByte(s[i])
    ensures Crc.Crc8(s[..i + 1]) == Crc.Step(Crc.Crc8(s[..i]), s[i])
  {
    hide StuffByte, Crc.Step;
    assert s[..i + 1][..i] == s[..i];
  }

  /** Header and argument bytes, unstuffed. */
  method PutBody(inner: array<byte>, kind: byte, no: byte, arg: seq<byte>) returns (m: nat)
    requires |arg| < 256 && 3 + |arg| <= inner.Length
    modifies inner
    ensures m == 3 + |arg| && inner[..m] == Body(kind, no, arg)
  {
    inner[0], inner[1], inner[2] := kind, no, ByteOf(|arg|);
    m := 3;
    for i := 0 to |arg|
      invariant m == 3 + i
      invariant inner[..m] == [kind, no, ByteOf(|arg|)] + arg[..i]
    {
      inner[m] := arg[i];
      m := m + 1;
    }
  }

  method ChecksumOf(inner: array<byte>, m: nat) returns (c: byte)
    requires m <= inner.Length
    ensures c == Crc.Crc8(inner[..m])
  {
    hide StuffByte, Stuff, Crc.Step;
    StuffEmpty();
    ghost var body := inner[..m];
    c := 0;
    for i := 0 to m
      invariant c == Crc.Crc8(body[..i])
    {
      StuffNext(body, i);
      c := Crc.UpdateByte(c, inner[i]);
    }
    assert body[..m] == body;
  }

  /** Opening FLAG and the stuffed body. */
  method PutStuffed(enc: array<byte>, inner: array<byte>, m: nat) returns (e: nat)
    requires m <= inner.Length && 2 * m + 2 <= enc.Length && enc != inner
    modifies enc
    ensures e <= 1 + 2 * m && enc[..e] == [FLAG] + Stuff(inner[..m])
  {
    hide StuffByte, Stuff, Crc.Step;
    StuffEmpty();
    ghost var body := inner[..m];
    enc[0] := FLAG;
    e := 1;
    for i := 0 to m
      invariant e == 1 + |Stuff(body[..i])|
      invariant enc[..e] == [FLAG] + Stuff(body[..i])
      invariant inner[..m] == body
    {
      StuffNext(body, i);
      e := StuffInto(enc, e, inner[i]);
    }
    assert body[..m] == body;
  }

  /** Builds the encoded frame in a buffer of the worst-case size. */
  method BuildFrame(kind: byte, no: byte, arg: seq<byte>) returns (enc: array<byte>, e: nat)
    requires |arg| <= 4 + MAX_CHUNK
    ensures fresh(enc) && enc.Length == ENC_MAX && e <= ENC_MAX
    ensures enc[..e] == Encode(kind, no, arg)
  {
    hide Body, StuffByte, Stuff, Crc.Step, Crc.Crc8;
    var inner := new byte[INNER_MAX];
    var m := PutBody(inner, kind, no, arg);
    ghost var body := Body(kind, no, arg);
    var c := ChecksumOf(inner, m);
    enc := new byte[ENC_MAX];
    e := PutStuffed(enc, inner, m);
    StuffNext(body + [c], m);
    assert (body + [c])[..m + 1] == body + [c] && (body + [c])[..m] == body;
    e := StuffInto(enc, e, c);
    enc[e] := FLAG;
    e := e + 1;
  }

  /** The reference encoder of the host tool. */
  method ReferenceEncode(no: byte, ts: u32, data: seq<byte>) returns (out: seq<byte>)
    requires |data| <= 251
    ensures out == Data(no, ts, data).Wire()
  {
    hide LE32, Crc.Crc8, Stuff, ByteOf;
    var inner := [DATA_TYPE, no, ByteOf(4 + |data|)] + LE32(ts) + data;
    assert inner == Body(DATA_TYPE, no, LE32(ts) + data);
    var c := Crc.Checksum(inner);
    out := ReferenceStuff(inner + [c]);
  }

  /** Its loop, over the unstuffed bytes. */
  method ReferenceStuff(inner: seq<byte>) returns (out: seq<byte>)
    ensures out == [FLAG] + Stuff(inner) + [FLAG]
  {
    hide Stuff, Crc.Crc8, Crc.Step;
    StuffEmpty();
    out := [FLAG];
    for i := 0 to |inner|
      invariant out == [FLAG] + Stuff(inner[..i])
    {
      var b := inner[i];
      var stuffed := if b == FLAG then [ESC, ESC_FLAG] else if b == ESC then [ESC, ESC_ESC] else [b];
      StuffNext(inner, i);
      ConcatAssociative([FLAG], Stuff(inner[..i]), stuffed);
      out := out + stuffed;
    }
    assert inner[..|inner|] == inner;
    out := out + [FLAG];
  }

  // ---- Known frames ----

  lemma {:induction false} StepTo(was: byte, b: byte, c: byte)
    requires c == Crc.Unrolled(Crc.Xor(was, b))
    ensures Crc.Step(was, b) == c
  {
    hide Crc.Unrolled, Crc.Fold;
    Crc.FoldUnrolled(Crc.Xor(was, b));
  }

  /** The checksum of one byte more. */
  lemma {:induction false} NextChecksum(body: seq<byte>, i: nat, b: byte, was: byte, c: byte)
    requires i < |body| && body[i] == b
    requires Crc.Crc8(body[..i]) == was && c == Crc.Unrolled(Crc.Xor(was, b))
    ensures Crc.Crc8(body[..i + 1]) == c
  {
    StepTo(was, b, c);
    hide Crc.Unrolled, Crc.Step;
    assert body[..i + 1][..i] == body[..i];
  }

  lemma {:induction false} DataChecksum()
    ensures Crc.Crc8([0xF0, 0x00, 0x07, 0x00, 0x01, 0x00, 0x00, 0x7E, 0x7D, 0x42]) == 0xE2
  {
    hide Crc.Crc8;
    StuffEmpty();
    var s: seq<byte> := [0xF0, 0x00, 0x07, 0x00, 0x01, 0x00, 0x00, 0x7E, 0x7D, 0x42];
    assert s[..0] == [];
    NextChecksum(s, 0, 0xF0, 0x00, 0xDE);
    NextChecksum(s, 1, 0x00, 0xDE, 0x14);
    NextChecksum(s, 2, 0x07, 0x14, 0x79);
    NextChecksum(s, 3, 0x00, 0x79, 0x68);
    NextChecksum(s, 4, 0x01, 0x68, 0x18);
    NextChecksum(s, 5, 0x00, 0x18, 0x48);
    NextChecksum(s, 6, 0x00, 0x48, 0xFF);
    NextChecksum(s, 7, 0x7E, 0xFF, 0x8E);
    NextChecksum(s, 8, 0x7D, 0x8E, 0xD7);
    NextChecksum(s, 9, 0x42, 0xD7, 0xE2);
    assert s[..10] == s;
  }

  lemma {:induction false} StatusChecksum()
    ensures Crc.Crc8([0xF1, 0x00, 0x04, 0x01, 0x00, 0x00, 0x00]) == 0xFB
  {
    hide Crc.Crc8;
    StuffEmpty();
    var s: seq<byte> := [0xF1, 0x00, 0x04, 0x01, 0x00, 0x00, 0x00];
    assert s[..0] == [];
    NextChecksum(s, 0, 0xF1, 0x00, 0xD9);
    NextChecksum(s, 1, 0x00, 0xD9, 0x01);
    NextChecksum(s, 2, 0x04, 0x01, 0x1B);
    NextChecksum(s, 3, 0x01, 0x1B, 0x46);
    NextChecksum(s, 4, 0x00, 0x46, 0xD5);
    NextChecksum(s, 5, 0x00, 0xD5, 0x25);
    NextChecksum(s, 6, 0x00, 0x25, 0xFB);
    assert s[..7] == s;
  }

  /** Stuffing byte by byte. */
  lemma {:induction false} StuffedMore(s: seq<byte>, w: seq<byte>, b: byte)
    requires Stuff(s) == w
    ensures Stuff(s + [b]) == w + if b == 0x7E then [0x7D, 0x5E] else if b == 0x7D then [0x7D, 0x5D] else [b]
  {
    assert (s + [b])[..|s|] == s;
  }

  /**
   * The bytes of two known frames: a data frame whose data stuff both FLAG and ESC, the vector both implementations
   * are anchored to, and the report of a single loss.
   */
  lemma {:induction false} GoldenFrames()
    ensures Data(0, 256, [0x7E, 0x7D, 0x42]).Wire() ==
            [0x7E, 0xF0, 0x00, 0x07, 0x00, 0x01, 0x00, 0x00, 0x7D, 0x5E, 0x7D, 0x5D, 0x42, 0xE2, 0x7E]
    ensures Status(0, 1).Wire() == [0x7E, 0xF1, 0x00, 0x04, 0x01, 0x00, 0x00, 0x00, 0xFB, 0x7E]
  {
    GoldenData();
    GoldenStatus();
  }

  lemma {:induction false} GoldenData()
    ensures Data(0, 256, [0x7E, 0x7D, 0x42]).Wire() ==
            [0x7E, 0xF0, 0x00, 0x07, 0x00, 0x01, 0x00, 0x00, 0x7D, 0x5E, 0x7D, 0x5D, 0x42, 0xE2, 0x7E]
  {
    DataChecksum();
    SmallBytes();
    hide Stuff, Crc.Crc8, Low8, ByteOf;
    var a: seq<byte> := [0xF0, 0x00, 0x07, 0x00, 0x01, 0x00, 0x00];
    PlainStuff(a);
    StuffedMore(a, a, 0x7E);
    StuffedMore(a + [0x7E], a + [0x7D, 0x5E], 0x7D);
    StuffedMore(a + [0x7E] + [0x7D], a + [0x7D, 0x5E] + [0x7D, 0x5D], 0x42);
    StuffedMore(a + [0x7E] + [0x7D] + [0x42], a + [0x7D, 0x5E] + [0x7D, 0x5D] + [0x42], 0xE2);
    var body: seq<byte> := [0xF0, 0x00, 0x07, 0x00, 0x01, 0x00, 0x00, 0x7E, 0x7D, 0x42];
    assert a + [0x7E] + [0x7D] + [0x42] == body == Body(DATA_TYPE, 0, LE32(256) + [0x7E, 0x7D, 0x42]);
  }

  lemma {:induction false} GoldenStatus()
    ensures Status(0, 1).Wire() == [0x7E, 0xF1, 0x00, 0x04, 0x01, 0x00, 0x00, 0x00, 0xFB, 0x7E]
  {
    StatusChecksum();
    SmallBytes();
    hide Stuff, Crc.Crc8, Low8, ByteOf;
    var a: seq<byte> := [0xF1, 0x00, 0x04, 0x01, 0x00, 0x00, 0x00];
    PlainStuff(a + [0xFB]);
    assert Body(STATUS_TYPE, 0, LE32(1)) == a;
  }

  lemma {:induction false} SmallBytes()
    ensures ByteOf(4) == 4 && ByteOf(7) == 7
    ensures LE32(256) == [0, 1, 0, 0] && LE32(1) == [1, 0, 0, 0]
  {
    IntOfByteOf(4);
    IntOfByteOf(7);
    assert Low8(0) == 0 && Low8(1) == 1 && Low8(256) == 0;
  }

  lemma {:induction false} PlainStuff(s: seq<byte>)
    requires forall i :: 0 <= i < |s| ==> s[i] != 0x7E && s[i] != 0x7D
    ensures Stuff(s) == s
    decreases |s|
  {
    if s != [] {
      PlainStuff(s[..|s| - 1]);
      assert StuffByte(s[|s| - 1]) == [s[|s| - 1]];
    }
  }
}
