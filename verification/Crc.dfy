/**
 * CRC-8 with polynomial x^8 + x^2 + x + 1 and zero initial value, as computed by the encoder in C and by the
 * decoder in Python, and what it detects at any message length.
 */
module Crc {
  import opened Bytes

  function Xor(a: byte, b: byte): byte { a ^ b }

  /** What the polynomial adds when the top bit is shifted out. */
  function Carry(c: byte): byte {
    if c & 0x80 != 0 then 0x07 else 0
  }

  function Double(c: byte): byte { c << 1 }

  /** One round of the bit loop. */
  function Shift(c: byte): byte { Xor(Double(c), Carry(c)) }

  /** `k` rounds. */
  function Shifts(c: byte, k: nat): byte {
    if k == 0 then c else Shift(Shifts(c, k - 1))
  }

  function Rounds(): nat { 8 }

  /** The eight rounds that follow the exclusive-or with a message byte. */
  function Fold(c: byte): byte { Shifts(c, Rounds()) }

  /** The rounds written out, for reasoning about single bits. */
  function Unrolled(c: byte): byte {
    Shift(Shift(Shift(Shift(Shift(Shift(Shift(Shift(c))))))))
  }

  lemma {:induction false} FoldUnrolled(c: byte)
    ensures Fold(c) == Unrolled(c)
  {
    TwoRounds(c, 0);
    TwoRounds(c, 2);
    TwoRounds(c, 4);
    TwoRounds(c, 6);
  }

  lemma {:induction false} TwoRounds(c: byte, k: nat)
    ensures Shifts(c, k + 2) == Shift(Shift(Shifts(c, k)))
  {
    assert Shifts(c, k + 1) == Shift(Shifts(c, k));
  }

  function Step(c: byte, b: byte): byte { Fold(Xor(c, b)) }

  /** The register after `s`, starting from `c`. */
  function Register(c: byte, s: seq<byte>): byte {
    if s == [] then c else Step(Register(c, s[..|s| - 1]), s[|s| - 1])
  }

  function Crc8(s: seq<byte>): byte { Register(0, s) }

  /** The byte step of the encoder. */
  method UpdateByte(crc: byte, b: byte) returns (r: byte)
    ensures r == Step(crc, b)
  {
    r := crc ^ b;
    ghost var start := r;
    for i := 0 to Rounds()
      invariant r == Shifts(start, i)
    {
      r := if r & 0x80 != 0 then (r << 1) ^ 0x07 else r << 1;
    }
  }

  /** The whole-message loop of the decoder. */
  method Checksum(data: seq<byte>) returns (crc: byte)
    ensures crc == Crc8(data)
  {
    crc := 0;
    for i := 0 to |data|
      invariant crc == Crc8(data[..i])
    {
      crc := crc ^ data[i];
      ghost var start := crc;
      for k := 0 to Rounds()
        invariant crc == Shifts(start, k)
      {
        crc := if crc & 0x80 != 0 then (crc << 1) ^ 0x07 else crc << 1;
      }
      assert data[..i + 1][..i] == data[..i];
    }
    assert data[..|data|] == data;
  }

  /** A body followed by its checksum leaves the register at zero, and only the checksum does. */
  lemma {:induction false} ResidueZero(body: seq<byte>, x: byte)
    ensures Crc8(body + [x]) == 0 <==> x == Crc8(body)
  {
    assert (body + [x])[..|body|] == body;
    FoldOfZero(Xor(Crc8(body), x));
    XorZero(Crc8(body), x);
  }

  // ---- The byte step is linear, one to one, and keeps parity ----

  lemma {:induction false} DoubleLinear(a: byte, b: byte)
    ensures Double(Xor(a, b)) == Xor(Double(a), Double(b))
  {
  }

  lemma {:induction false} CarryLinear(a: byte, b: byte)
    ensures Carry(Xor(a, b)) == Xor(Carry(a), Carry(b))
  {
  }

  lemma {:induction false} XorAssociative(a: byte, b: byte, c: byte)
    ensures Xor(Xor(a, b), c) == Xor(a, Xor(b, c))
  {
  }

  lemma {:induction false} XorCommutative(a: byte, b: byte)
    ensures Xor(a, b) == Xor(b, a)
  {
  }

  lemma {:induction false} XorSwap(p: byte, q: byte, x: byte, y: byte)
    ensures Xor(Xor(p, q), Xor(x, y)) == Xor(Xor(p, x), Xor(q, y))
  {
    hide Xor;
    XorAssociative(p, q, Xor(x, y));
    XorAssociative(q, x, y);
    XorCommutative(q, x);
    XorAssociative(x, q, y);
    XorAssociative(p, x, Xor(q, y));
  }

  lemma {:induction false} ShiftLinear(a: byte, b: byte)
    ensures Shift(Xor(a, b)) == Xor(Shift(a), Shift(b))
  {
    hide Xor, Double, Carry;
    DoubleLinear(a, b);
    CarryLinear(a, b);
    XorSwap(Double(a), Double(b), Carry(a), Carry(b));
  }

  lemma {:induction false} ShiftsLinear(a: byte, b: byte, k: nat)
    ensures Shifts(Xor(a, b), k) == Xor(Shifts(a, k), Shifts(b, k))
  {
    hide Xor, Shift;
    if k > 0 {
      ShiftsLinear(a, b, k - 1);
      ShiftLinear(Shifts(a, k - 1), Shifts(b, k - 1));
    }
  }

  lemma {:induction false} FoldLinear(a: byte, b: byte)
    ensures Fold(Xor(a, b)) == Xor(Fold(a), Fold(b))
  {
    ShiftsLinear(a, b, Rounds());
  }

  lemma {:induction false} ShiftInjective(a: byte, b: byte)
    ensures Shift(a) == Shift(b) ==> a == b
  {
  }

  lemma {:induction false} ShiftsInjective(a: byte, b: byte, k: nat)
    ensures Shifts(a, k) == Shifts(b, k) ==> a == b
  {
    if k > 0 {
      ShiftsInjective(a, b, k - 1);
      ShiftInjective(Shifts(a, k - 1), Shifts(b, k - 1));
    }
  }

  lemma {:induction false} FoldInjective(a: byte, b: byte)
    ensures Fold(a) == Fold(b) <==> a == b
  {
    ShiftsInjective(a, b, Rounds());
  }

  lemma {:induction false} ShiftsOfZero(k: nat)
    ensures Shifts(0, k) == 0
  {
    if k > 0 { ShiftsOfZero(k - 1); }
  }

  /** The step maps zero to zero and nothing else to zero. */
  lemma {:induction false} FoldOfZero(a: byte)
    ensures Fold(a) == 0 <==> a == 0
  {
    ShiftsOfZero(Rounds());
    FoldInjective(a, 0);
  }

  predicate Bit(b: byte, m: byte) { b & m != 0 }

  /** True when an odd number of bits of `b` are set. */
  predicate Odd(b: byte) {
    ((Bit(b, 0x80) != Bit(b, 0x40)) != (Bit(b, 0x20) != Bit(b, 0x10)))
      != ((Bit(b, 0x08) != Bit(b, 0x04)) != (Bit(b, 0x02) != Bit(b, 0x01)))
  }

  lemma {:induction false} ShiftKeepsParity(a: byte)
    ensures Odd(Shift(a)) == Odd(a)
  {
  }

  lemma {:induction false} ShiftsKeepParity(a: byte, k: nat)
    ensures Odd(Shifts(a, k)) == Odd(a)
  {
    if k > 0 {
      ShiftsKeepParity(a, k - 1);
      ShiftKeepsParity(Shifts(a, k - 1));
    }
  }

  lemma {:induction false} FoldKeepsParity(a: byte)
    ensures Odd(Fold(a)) == Odd(a)
  {
    ShiftsKeepParity(a, Rounds());
  }

  lemma {:induction false} BitsXor(a: byte, b: byte)
    ensures forall m :: m in {0x80, 0x40, 0x20, 0x10, 0x08, 0x04, 0x02, 0x01}
              ==> Bit(Xor(a, b), m) == (Bit(a, m) != Bit(b, m))
  {
  }

  lemma {:induction false} OddXor(a: byte, b: byte)
    ensures Odd(Xor(a, b)) == (Odd(a) != Odd(b))
  {
    hide Bit, Xor;
    BitsXor(a, b);
  }

  // ---- Errors as exclusive-or masks ----

  /** The message `s` with the bits of `e` flipped. */
  function Flip(s: seq<byte>, e: seq<byte>): (r: seq<byte>)
    requires |s| == |e|
    ensures |r| == |s|
  {
    seq(|s|, i requires 0 <= i < |s| => Xor(s[i], e[i]))
  }

  /** True when an odd number of bits of the whole message are set. */
  predicate OddBits(s: seq<byte>) {
    s != [] && (OddBits(s[..|s| - 1]) != Odd(s[|s| - 1]))
  }

  lemma {:induction false} RegisterLinear(c: byte, d: byte, s: seq<byte>, e: seq<byte>)
    requires |s| == |e|
    ensures Register(Xor(c, d), Flip(s, e)) == Xor(Register(c, s), Register(d, e))
    decreases |s|
  {
    hide Xor, Fold;
    if s == [] {
    } else {
      var n := |s| - 1;
      RegisterLinear(c, d, s[..n], e[..n]);
      assert Flip(s, e)[..n] == Flip(s[..n], e[..n]);
      var p, q := Register(c, s[..n]), Register(d, e[..n]);
      XorSwap(p, q, s[n], e[n]);
      FoldLinear(Xor(p, s[n]), Xor(q, e[n]));
    }
  }

  lemma {:induction false} XorOfZero(a: byte)
    ensures Xor(0, a) == a == Xor(a, 0)
  {
  }

  lemma {:induction false} XorZero(a: byte, b: byte)
    ensures Xor(a, b) == 0 <==> a == b
  {
  }

  /** Flipping the bits of `e` in a message with residue zero leaves the residue of `e` alone. */
  lemma {:induction false} ResidueOfError(s: seq<byte>, e: seq<byte>)
    requires |s| == |e| && Crc8(s) == 0
    ensures Crc8(Flip(s, e)) == Crc8(e)
  {
    RegisterLinear(0, 0, s, e);
    XorOfZero(0);
    XorOfZero(Crc8(e));
  }

  lemma {:induction false} RegisterKeepsParity(c: byte, s: seq<byte>)
    ensures Odd(Register(c, s)) == (Odd(c) != OddBits(s))
    decreases |s|
  {
    hide Xor, Fold, Odd;
    if s == [] {
    } else {
      var n := |s| - 1;
      RegisterKeepsParity(c, s[..n]);
      OddXor(Register(c, s[..n]), s[n]);
      FoldKeepsParity(Xor(Register(c, s[..n]), s[n]));
    }
  }

  /** Zero bytes move the register but never between zero and nonzero. */
  lemma {:induction false} ZerosKeepNonzero(c: byte, z: seq<byte>)
    requires forall i :: 0 <= i < |z| ==> z[i] == 0
    ensures Register(c, z) == 0 <==> c == 0
    decreases |z|
  {
    if z == [] {
    } else {
      var n := |z| - 1;
      ZerosKeepNonzero(c, z[..n]);
      FoldOfZero(Register(c, z[..n]));
      XorOfZero(Register(c, z[..n]));
    }
  }

  lemma {:induction false} RegisterAppend(c: byte, s: seq<byte>, t: seq<byte>)
    ensures Register(c, s + t) == Register(Register(c, s), t)
    decreases |t|
  {
    if t == [] {
      assert s + t == s;
    } else {
      var n := |t| - 1;
      RegisterAppend(c, s, t[..n]);
      assert (s + t)[..|s| + n] == s + t[..n];
    }
  }

  /** `e` is zero outside positions `i` and `i + 1`. */
  predicate ZeroOutside(e: seq<byte>, i: nat) {
    forall j :: 0 <= j < |e| && j != i && j != i + 1 ==> e[j] == 0
  }

  /** The residue of an error confined to two adjacent bytes is zero exactly when they cancel. */
  lemma {:induction false} TwoByteResidue(e: seq<byte>, i: nat)
    requires i + 1 < |e| && ZeroOutside(e, i)
    ensures Crc8(e) == 0 <==> Fold(e[i]) == e[i + 1]
  {
    hide Fold, Xor;
    var before, after := e[..i], e[i + 2..];
    assert e == before + ([e[i], e[i + 1]] + after);
    RegisterAppend(0, before, [e[i], e[i + 1]] + after);
    ZerosKeepNonzero(0, before);
    RegisterAppend(0, [e[i], e[i + 1]], after);
    var two := [e[i], e[i + 1]];
    assert two[..1] == [e[i]];
    assert Register(0, [e[i]]) == Step(Register(0, [e[i]][..0]), e[i]) == Fold(Xor(0, e[i]));
    XorOfZero(e[i]);
    assert Register(0, two) == Step(Fold(e[i]), e[i + 1]) == Fold(Xor(Fold(e[i]), e[i + 1]));
    FoldOfZero(Xor(Fold(e[i]), e[i + 1]));
    XorZero(Fold(e[i]), e[i + 1]);
    ZerosKeepNonzero(Register(0, two), after);
  }

  /** The low `k` bits. */
  function LowMask(k: nat): byte
    requires k <= 8
  {
    if k == 8 then 0xFF else ((1 as byte) << k) - 1
  }

  /** A window of 8 consecutive bits, most significant bit of each byte first: the low `k` bits of byte `i` and
      the high `8 - k` bits of byte `i + 1`. */
  predicate BurstMsbFirst(e: seq<byte>, i: nat, k: nat)
    requires i + 1 < |e| && k <= 8
  {
    ZeroOutside(e, i) && e[i] & !LowMask(k) == 0 && e[i + 1] & LowMask(k) == 0
  }

  /** The same window when each byte travels least significant bit first, as on an asynchronous serial line:
      the high `k` bits of byte `i` and the low `8 - k` bits of byte `i + 1`. */
  predicate BurstLsbFirst(e: seq<byte>, i: nat, k: nat)
    requires i + 1 < |e| && k <= 8
  {
    ZeroOutside(e, i) && e[i] & LowMask(8 - k) == 0 && e[i + 1] & !LowMask(8 - k) == 0
  }

  lemma {:induction false} NoCancelMsbFirst(a: byte, b: byte, k: nat)
    requires k <= 8 && a & !LowMask(k) == 0 && b & LowMask(k) == 0
    ensures Fold(a) == b <==> a == 0 && b == 0
  {
    FoldUnrolled(a);
  }

  lemma {:induction false} CancelLsbFirst(a: byte, b: byte, k: nat)
    requires k <= 8 && a & LowMask(8 - k) == 0 && b & !LowMask(8 - k) == 0
    ensures Fold(a) == b <==> (a == 0 && b == 0) || (a == 0xD8 && b == 0x06) || (a == 0x6C && b == 0x03)
  {
    FoldUnrolled(a);
  }

  // ---- What is detected, at any length ----

  /** Every error with an odd number of flipped bits changes the residue. */
  lemma {:induction false} OddErrorsDetected(s: seq<byte>, e: seq<byte>)
    requires |s| == |e| && Crc8(s) == 0 && OddBits(e)
    ensures Crc8(Flip(s, e)) != 0
  {
    ResidueOfError(s, e);
    RegisterKeepsParity(0, e);
  }

  /** Every change confined to one byte changes the residue. */
  lemma {:induction false} SingleByteErrorsDetected(s: seq<byte>, e: seq<byte>, i: nat)
    requires |s| == |e| && i < |e| && Crc8(s) == 0
    requires e[i] != 0 && forall j :: 0 <= j < |e| && j != i ==> e[j] == 0
    ensures Crc8(Flip(s, e)) != 0
  {
    hide Step, Flip, Register, Crc8;
    ResidueOfError(s, e);
    ResidueOfByte(e, i);
  }

  lemma {:induction false} ResidueOfByte(e: seq<byte>, i: nat)
    requires i < |e| && e[i] != 0 && forall j :: 0 <= j < |e| && j != i ==> e[j] == 0
    ensures Crc8(e) != 0
  {
    hide Step, Register;
    var before, after := e[..i], e[i + 1..];
    assert e == before + ([e[i]] + after);
    RegisterAppend(0, before, [e[i]] + after);
    ZerosKeepNonzero(0, before);
    RegisterAppend(0, [e[i]], after);
    OneByteResidue(e[i]);
    ZerosKeepNonzero(Register(0, [e[i]]), after);
  }

  lemma {:induction false} OneByteResidue(b: byte)
    ensures Register(0, [b]) == 0 <==> b == 0
  {
    hide Fold, Xor;
    assert Register(0, [b]) == Step(Register(0, [b][..0]), b) == Fold(Xor(0, b));
    FoldOfZero(Xor(0, b));
    XorZero(0, b);
  }

  /** Every nonzero error within 8 consecutive bits, in the bit order of the polynomial, changes the residue. */
  lemma {:induction false} BurstsDetectedMsbFirst(s: seq<byte>, e: seq<byte>, i: nat, k: nat)
    requires |s| == |e| && i + 1 < |e| && k <= 8 && Crc8(s) == 0
    requires BurstMsbFirst(e, i, k) && (e[i] != 0 || e[i + 1] != 0)
    ensures Crc8(Flip(s, e)) != 0
  {
    ResidueOfError(s, e);
    TwoByteResidue(e, i);
    NoCancelMsbFirst(e[i], e[i + 1], k);
  }

  /** In the bit order of the serial line the same holds except for two patterns, which pass for every message. */
  lemma {:induction false} BurstsDetectedLsbFirst(s: seq<byte>, e: seq<byte>, i: nat, k: nat)
    requires |s| == |e| && i + 1 < |e| && k <= 8 && Crc8(s) == 0
    requires BurstLsbFirst(e, i, k) && (e[i] != 0 || e[i + 1] != 0)
    ensures Crc8(Flip(s, e)) != 0 <==> !(e[i] == 0xD8 && e[i + 1] == 0x06) && !(e[i] == 0x6C && e[i + 1] == 0x03)
  {
    ResidueOfError(s, e);
    TwoByteResidue(e, i);
    CancelLsbFirst(e[i], e[i + 1], k);
  }
}
