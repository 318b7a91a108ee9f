/** The packet memory: half-words, reached by byte offset, with an odd last byte in the low half of its half-word. */
module Pma {
  import opened Bytes

  type half = bv16

  const HALVES: nat := 512

  type Memory = m: seq<half> | |m| == HALVES witness seq(HALVES, _ => 0)

  function Pack(lo: byte, hi: byte): half { (lo as half) | ((hi as half) << 8) }

  function Lo(w: half): byte { (w & 0xFF) as byte }

  function Hi(w: half): byte { (w >> 8) as byte }

  lemma {:induction false} Unpack(lo: byte, hi: byte)
    ensures Lo(Pack(lo, hi)) == lo && Hi(Pack(lo, hi)) == hi
  {
  }

  /** A buffer at byte offset `off` that can take `n` bytes. */
  predicate Fits(off: nat, n: nat) { off % 2 == 0 && off / 2 + (n + 1) / 2 <= HALVES }

  /** The half-word `k` places into the buffer that holds `src`; an odd last byte has nothing above it. */
  function HalfOf(src: seq<byte>, k: nat): half
    requires 2 * k < |src|
  {
    Pack(src[2 * k], if 2 * k + 1 < |src| then src[2 * k + 1] else 0)
  }

  function Write(m: Memory, off: nat, src: seq<byte>): Memory
    requires Fits(off, |src|)
  {
    seq(HALVES, i requires 0 <= i < HALVES =>
      if off / 2 <= i && 2 * (i - off / 2) < |src| then HalfOf(src, i - off / 2) else m[i])
  }

  function Read(m: Memory, off: nat, n: nat): (s: seq<byte>)
    requires Fits(off, n)
    ensures |s| == n
  {
    seq(n, i requires 0 <= i < n => if i % 2 == 0 then Lo(m[off / 2 + i / 2]) else Hi(m[off / 2 + i / 2]))
  }

  /** What was written is read back, for odd and even lengths. */
  lemma {:induction false} ReadWritten(m: Memory, off: nat, src: seq<byte>)
    requires Fits(off, |src|)
    ensures Read(Write(m, off, src), off, |src|) == src
  {
    var w := Write(m, off, src);
    hide Pack, Lo, Hi;
    forall i | 0 <= i < |src|
      ensures Read(w, off, |src|)[i] == src[i]
    {
      Unpack(src[2 * (i / 2)], if 2 * (i / 2) + 1 < |src| then src[2 * (i / 2) + 1] else 0);
      assert w[off / 2 + i / 2] == HalfOf(src, i / 2);
    }
  }

  /** The bytes of a packet in the memory: two to a half-word, the first in the low half, an odd last one alone. */
  lemma {:induction false} PacketInMemory(m: Memory, off: nat, src: seq<byte>, i: nat)
    requires Fits(off, |src|) && i < |src|
    ensures off / 2 + i / 2 < HALVES
    ensures var w := Write(m, off, src)[off / 2 + i / 2];
            && (i % 2 == 0 ==> w & 0xFF == src[i] as half)
            && (i % 2 == 1 ==> w >> 8 == src[i] as half)
            && (i % 2 == 0 && i + 1 == |src| ==> w >> 8 == 0)
  {
    var k := i / 2;
    var hi := if 2 * k + 1 < |src| then src[2 * k + 1] else 0;
    Halves(src[2 * k], hi);
    hide Pack;
    assert Write(m, off, src)[off / 2 + k] == HalfOf(src, k);
    assert i % 2 == 0 ==> src[2 * k] == src[i];
    assert i % 2 == 1 ==> hi == src[i];
  }

  lemma {:induction false} Halves(lo: byte, hi: byte)
    ensures Pack(lo, hi) & 0xFF == lo as half && Pack(lo, hi) >> 8 == hi as half
  {
  }

  const BUFFER: nat := 64

  /** Nothing outside the 64-byte buffer at `off` differs. */
  ghost predicate OnlyIn(m: Memory, m': Memory, off: nat) {
    forall i :: 0 <= i < HALVES && !(off / 2 <= i < off / 2 + BUFFER / 2) ==> m'[i] == m[i]
  }

  /** A write of at most 64 bytes, odd or even, stays inside its own buffer. */
  lemma {:induction false} WriteStaysInside(m: Memory, off: nat, src: seq<byte>)
    requires Fits(off, |src|) && |src| <= BUFFER
    ensures OnlyIn(m, Write(m, off, src), off)
  {
    hide HalfOf;
  }

  /** Bytes of another buffer read as before. */
  lemma {:induction false} ReadElsewhere(m: Memory, m': Memory, off: nat, other: nat, n: nat)
    requires OnlyIn(m, m', off) && Fits(other, n) && off % 2 == 0
    requires other + n <= off || off + BUFFER <= other
    ensures Read(m', other, n) == Read(m, other, n)
  {
    hide Lo, Hi;
  }

  method PmaWrite(pma: array<half>, off: nat, src: seq<byte>)
    requires pma.Length == HALVES && Fits(off, |src|)
    modifies pma
    ensures pma[..] == Write(old(pma[..]), off, src)
  {
    hide Pack;
    ghost var m := pma[..];
    var d, i := off / 2, 0;
    while i + 1 < |src|
      invariant i <= |src| && i % 2 == 0 && d == off / 2 + i / 2
      invariant forall j :: off / 2 <= j < d ==> pma[j] == HalfOf(src, j - off / 2)
      invariant forall j :: 0 <= j < HALVES && !(off / 2 <= j < d) ==> pma[j] == m[j]
    {
      pma[d] := Pack(src[i], src[i + 1]);
      d, i := d + 1, i + 2;
    }
    if i < |src| {
      pma[d] := PackLow(src[i]);
      d := d + 1;
    }
    assert forall j :: off / 2 <= j < d ==> pma[j] == HalfOf(src, j - off / 2);
  }

  function PackLow(b: byte): (w: half)
    ensures w == Pack(b, 0)
  {
    b as half
  }

  method PmaRead(pma: array<half>, off: nat, dst: array<byte>, n: nat)
    requires pma.Length == HALVES && Fits(off, n) && n <= dst.Length
    modifies dst
    ensures dst[..n] == Read(pma[..], off, n) && dst[n..] == old(dst[n..])
  {
    hide Lo, Hi;
    ghost var want := Read(pma[..], off, n);
    var s, i := off / 2, 0;
    while i + 1 < n
      invariant i <= n && i % 2 == 0 && s == off / 2 + i / 2
      invariant forall j :: 0 <= j < i ==> dst[j] == want[j]
      invariant forall j :: i <= j < dst.Length ==> dst[j] == old(dst[j])
    {
      var w := pma[s];
      dst[i], dst[i + 1] := Lo(w), Hi(w);
      s, i := s + 1, i + 2;
    }
    if i < n {
      dst[i] := Lo(pma[s]);
    }
  }
}
