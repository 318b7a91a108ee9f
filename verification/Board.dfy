/** The two-line glue of the board: the relay's sink and its drain, over the circular transmit buffer. */
module BoardTx {
  import opened Bytes
  import opened Framing
  import opened ByteFifos
  import opened VcpPath

  /** `k` drains in a row. */
  function Drains(k: nat): seq<Happening> { seq(k, _ => Drain) }

  /** What drains in a row do to the path: the oldest bytes move from the FIFO to the line. */
  lemma {:induction false} DrainsMove(s: System, k: nat)
    requires k <= |s.fifo|
    ensures History(s, Drains(k)) == s.(fifo := s.fifo[k..], line := s.line + s.fifo[..k])
  {
    if k == 0 {
      assert s.line + s.fifo[..0] == s.line;
    } else {
      DrainsMove(s, k - 1);
      assert Drains(k)[..k - 1] == Drains(k - 1);
      assert s.fifo[..k] == s.fifo[..k - 1] + [s.fifo[k - 1]];
      ConcatAssociative(s.line, s.fifo[..k - 1], [s.fifo[k - 1]]);
    }
  }

  class Board {
    const tx: ByteFifo
    var line: seq<byte>        // everything written to the transmit register

    ghost predicate Valid()
      reads this, tx
    {
      tx.Valid() && tx.buf.Length == FIFO_USABLE + 1
    }

    constructor ()
      ensures Valid() && fresh(tx) && fresh(tx.buf) && tx.Contents() == POWER_ON.fifo && line == POWER_ON.line
    {
      var storage := new byte[FIFO_USABLE + 1];
      tx := new ByteFifo(storage);
      line := [];
    }

    /** The sink takes a frame exactly when the path says it is taken, and then the whole of it. */
    method PcWrite(buf: seq<byte>) returns (n: nat)
      requires Valid()
      modifies tx, tx.buf
      ensures Valid()
      ensures n == if |buf| <= 255 - |old(tx.Contents())| then |buf| else 0
      ensures tx.Contents() == old(tx.Contents()) + if |buf| <= 255 - |old(tx.Contents())| then buf else []
    {
      var ok := tx.PushAll(buf);
      n := if ok then |buf| else 0;
    }

    /**
     * Drains the FIFO as the transmit register allows: `ready` is how often the register is found empty before it is
     * found busy. Exactly that many bytes go out, or all there are.
     */
    method PcPoll(ready: nat, ghost s: System)
      requires Valid() && s.fifo == tx.Contents() && s.line == line
      modifies this`line, tx
      ensures Valid()
      ensures var k := if ready <= |s.fifo| then ready else |s.fifo|;
              && tx.Contents() == s.fifo[k..] && line == s.line + s.fifo[..k]
              && History(s, Drains(k)) == s.(fifo := tx.Contents(), line := line)
    {
      hide History, Drains, ByteFifo.Contents;
      var k := 0;
      while k < ready
        invariant Valid() && k <= ready && k <= |s.fifo|
        invariant tx.Contents() == s.fifo[k..] && line == s.line + s.fifo[..k]
      {
        var ok, b := tx.Pop();
        if !ok { break; }
        line := line + [b];
        assert s.fifo[..k + 1] == s.fifo[..k] + [s.fifo[k]];
        k := k + 1;
      }
      DrainsMove(s, k);
    }
  }
}
