/** The transmit FIFO: a circular buffer of any capacity with all-or-nothing push. */
module ByteFifos {
  import opened Bytes

  lemma {:induction false} Multiples(q: int, cap: nat)
    ensures q <= 0 ==> q * cap <= 0
    ensures q >= 2 ==> q * cap >= 2 * cap
  {
  }

  /** The remainder by `cap` of an index less than twice `cap`. */
  lemma {:induction false} RemainderOnce(x: nat, cap: nat)
    requires 0 < cap && x < 2 * cap
    ensures x % cap == if x < cap then x else x - cap
  {
    var q := x / cap;
    assert x == q * cap + x % cap;
    Multiples(q, cap);
  }

  class ByteFifo {
    const buf: array<byte>
    var head: nat    // write index
    var tail: nat    // read index

    ghost predicate Valid()
      reads this
    {
      0 < buf.Length && head < buf.Length && tail < buf.Length
    }

    function Count(): nat
      requires Valid()
      reads this
    {
      (head - tail + buf.Length) % buf.Length
    }

    function Free(): int
      requires Valid()
      reads this
    {
      buf.Length - 1 - Count()
    }

    /** The queued bytes, oldest first. */
    ghost function Contents(): (s: seq<byte>)
      requires Valid()
      reads this, buf
      ensures |s| == if tail <= head then head - tail else head + buf.Length - tail
    {
      if tail <= head then buf[tail..head] else buf[tail..] + buf[..head]
    }

    lemma {:induction false} CountIsLength()
      requires Valid()
      ensures Count() == |Contents()| && 0 <= Free() == buf.Length - 1 - |Contents()|
    {
      RemainderOnce(head - tail + buf.Length, buf.Length);
    }

    constructor (storage: array<byte>)
      requires 0 < storage.Length
      ensures Valid() && buf == storage && Contents() == []
    {
      buf, head, tail := storage, 0, 0;
    }

    /** The body of the push loop. */
    method Append(b: byte)
      requires Valid() && |Contents()| < buf.Length - 1
      modifies this`head, buf
      ensures Valid() && Contents() == old(Contents()) + [b]
    {
      RemainderOnce(head + 1, buf.Length);
      buf[head] := b;
      head := (head + 1) % buf.Length;
    }

    method PushAll(src: seq<byte>) returns (ok: bool)
      requires Valid()
      modifies this`head, buf
      ensures Valid()
      ensures ok <==> |src| <= buf.Length - 1 - |old(Contents())|
      ensures Contents() == if ok then old(Contents()) + src else old(Contents())
    {
      CountIsLength();
      if |src| > Free() {
        return false;
      }
      for i := 0 to |src|
        invariant Valid() && tail == old(tail)
        invariant Contents() == old(Contents()) + src[..i]
      {
        Append(src[i]);
        assert src[..i + 1] == src[..i] + [src[i]];
      }
      return true;
    }

    /** Discards the queued bytes by moving the read index only. */
    method Clear()
      requires Valid()
      modifies this`tail
      ensures Valid() && Contents() == []
    {
      tail := head;
    }

    method Pop() returns (ok: bool, b: byte)
      requires Valid()
      modifies this`tail
      ensures Valid()
      ensures ok <==> old(Contents()) != []
      ensures ok ==> [b] + Contents() == old(Contents())
      ensures !ok ==> Contents() == []
    {
      if head == tail {
        return false, 0;
      }
      b := buf[tail];
      RemainderOnce(tail + 1, buf.Length);
      tail := (tail + 1) % buf.Length;
      ok := true;
    }
  }
}
