/** With the interrupt quiet and an accepting sink, the relay empties its ring, in a number of frames known before. */
module RelayDrain {
  import opened Bytes
  import opened Framing
  import opened RelayModel

  /** Frames needed for a run of `d` bytes under one stamp. */
  function Chunks(d: int): nat { if d <= 0 then 0 else (d + MAX_CHUNK - 1) / MAX_CHUNK }

  /** Frames needed from position `from` on: the stamped runs still in the ring, each cut into chunks. */
  function RunsLeft(marks: seq<Mark>, j: nat, from: int, head: nat): nat
    decreases |marks| - j
  {
    if j >= |marks| then Chunks(head - from)
    else Chunks(marks[j].pos - from) + RunsLeft(marks, j + 1, marks[j].pos, head)
  }

  function FramesLeft(s: State): nat { RunsLeft(s.p.marks, s.c.mtail, Written(s.c), |s.p.bytes|) }

  function DataFrames(out: seq<Frame>): nat {
    if out == [] then 0 else DataFrames(out[..|out| - 1]) + if out[|out| - 1].Data? then 1 else 0
  }

  /** Where the current chunk must end: the next mark or the head. */
  function Limit(s: State): nat {
    if s.c.mtail < |s.p.marks| then s.p.marks[s.c.mtail].pos else |s.p.bytes|
  }

  /** Nothing has arrived since the head index was read, and the chunk is as large as it can be. */
  ghost predicate Quiescent(s: State) {
    match s.c.pc
    case Adopt(v) => v == |s.p.bytes| - s.c.tail
    case AdoptPos(v) => v == |s.p.bytes| - s.c.tail
    case AdoptTs(v) => v == |s.p.bytes| - s.c.tail
    case AdoptFree(v) => v == |s.p.bytes| - s.c.tail
    case Cut(v) => v == |s.p.bytes| - s.c.tail
    case CutPos(n) => n == Min(|s.p.bytes| - s.c.tail, MAX_CHUNK)
    case Copy(n, _) => n == Min(Limit(s) - s.c.tail, MAX_CHUNK)
    case _ => true
  }

  lemma {:induction false} OneChunkLess(d: int)
    requires 0 < d
    ensures Chunks(d) == Chunks(d - Min(d, MAX_CHUNK)) + 1
  {
  }

  lemma {:induction false} CountOneMore(out: seq<Frame>, f: Frame)
    ensures DataFrames(out + [f]) == DataFrames(out) + if f.Data? then 1 else 0
  {
    assert (out + [f])[..|out|] == out;
  }

  lemma {:induction false} StepKeepsQuiescent(s: State, ok: bool)
    requires |s.p.times| == |s.p.bytes| && MarksOrdered(s.p) && RingInv(s) && PcInv(s) && Quiescent(s)
    ensures Quiescent(Step(s, Tick(ok)))
  {
    hide Low8;
    assert s.c.mtail < |s.p.marks| ==> s.p.marks[s.c.mtail].pos < |s.p.bytes|;
  }

  /** Writing a chunk of the run up to the next mark or the head leaves one frame less to write. */
  lemma {:induction false} SendKeepsSum(s: State, ok: bool)
    requires RingInv(s) && PcInv(s) && Quiescent(s) && s.c.pc.Copy?
    ensures var t := Step(s, Tick(ok));
            DataFrames(t.c.out) + FramesLeft(t) == DataFrames(s.c.out) + FramesLeft(s)
  {
    hide Low8, DataFrames, MarksOrdered;
    var n, got := s.c.pc.n, s.c.pc.got;
    CountOneMore(s.c.out, Data(Low8(s.c.seqNo), s.c.curTs, got));
    OneChunkLess(Limit(s) - s.c.tail);
    hide Chunks;
  }

  lemma {:induction false} StepKeepsSum(s: State, ok: bool)
    requires RingInv(s) && PcInv(s) && Quiescent(s)
    ensures var t := Step(s, Tick(ok));
            DataFrames(t.c.out) + FramesLeft(t) == DataFrames(s.c.out) + FramesLeft(s)
  {
    if s.c.pc.Copy? {
      hide Step, FramesLeft, DataFrames, Quiescent, RingInv, PcInv;
      SendKeepsSum(s, ok);
    } else {
      hide Low8, DataFrames, MarksOrdered;
      if s.c.pc.Report? { CountOneMore(s.c.out, Status(Low8(s.c.seqNo), s.c.pc.snap)); }
    }
  }

  /** Each consumer step keeps the sum of data frames written and data frames still to write. */
  lemma {:induction false} StepKeepsCount(s: State, ok: bool)
    requires Inv(s) && Quiescent(s)
    ensures var t := Step(s, Tick(ok));
            Quiescent(t) && DataFrames(t.c.out) + FramesLeft(t) == DataFrames(s.c.out) + FramesLeft(s)
  {
    hide GapsMarked, PayloadInv, OutInv, DataFrames, Quiescent, RingInv, PcInv, MarksOrdered, FramesLeft, Step;
    StepKeepsQuiescent(s, ok);
    StepKeepsSum(s, ok);
  }

  /** Steps of the consumer alone, each time with a sink that accepts. */
  function Ticks(n: nat): seq<Event> { seq(n, _ => Tick(true)) }

  function Stage(pc: Pc): nat {
    match pc
    case Release(_) => 9
    case Idle => 8
    case Report(_) => 7
    case ReadHead => 6
    case Cut(_) => 4
    case CutPos(_) => 3
    case Copy(_, _) => 2
    case _ => 5
  }

  function Rest(pc: Pc): nat {
    match pc
    case Adopt(_) => 3
    case AdoptPos(_) => 2
    case AdoptTs(_) => 1
    case Copy(n, got) => if |got| < n then n - |got| else 0
    case _ => 0
  }

  lemma {:induction false} TicksFirst(s: State, n: nat)
    ensures Run(s, Ticks(n + 1)) == Run(Step(s, Tick(true)), Ticks(n))
  {
    hide Step;
    assert Ticks(n + 1) == [Tick(true)] + Ticks(n);
    RunAppend(s, [Tick(true)], Ticks(n));
    assert [Tick(true)][..0] == [];
    assert Run(s, [Tick(true)]) == Step(Run(s, [Tick(true)][..0]), Tick(true));
  }

  /**
   * An accepting sink empties a quiescent ring, in exactly as many data frames as the stamped runs need: the sum of
   * their lengths in chunks of 32, each rounded up.
   */
  lemma {:induction false} Empties(s: State) returns (n: nat)
    requires Inv(s) && Quiescent(s)
    ensures var t := Run(s, Ticks(n));
            && t.c.pc.Idle? && t.p == s.p && t.c.tail == |s.p.bytes|
            && DataFrames(t.c.out) == DataFrames(s.c.out) + FramesLeft(s)
    decreases |s.p.bytes| - Written(s.c), Stage(s.c.pc), |s.p.marks| - s.c.mtail, Rest(s.c.pc)
  {
    hide Inv, PayloadInv, DataFrames, Quiescent;
    Bounds(s);
    if s.c.pc.Idle? && s.c.tail == |s.p.bytes| {
      n := 0;
      NothingLeft(s);
    } else {
      var t := Step(s, Tick(true));
      StepKeepsInv(s, Tick(true));
      StepKeepsCount(s, true);
      if s.c.pc.ReadHead? && s.c.tail == |s.p.bytes| {
        TicksFirst(s, 0);
        n := 1;
        Bounds(t);
        NothingLeft(t);
      } else {
        Bounds(t);
        var k := Empties(t);
        TicksFirst(s, k);
        n := k + 1;
      }
    }
  }

  lemma {:induction false} Bounds(s: State)
    requires Inv(s)
    ensures Written(s.c) <= |s.p.bytes| && s.c.mtail <= |s.p.marks|
    ensures s.c.pc.Copy? ==> |s.c.pc.got| <= s.c.pc.n && 1 <= s.c.pc.n && s.c.tail + s.c.pc.n <= |s.p.bytes|
    ensures s.c.pc.AdoptFree? || s.c.pc.AdoptTs? || s.c.pc.AdoptPos? ==> s.c.mtail < |s.p.marks|
    ensures s.c.tail == |s.p.bytes| ==> s.c.pc.Idle? || s.c.pc.Report? || s.c.pc.ReadHead?
    ensures s.c.tail == |s.p.bytes| ==> s.c.mtail == |s.p.marks|
  {
    assert s.c.mtail < |s.p.marks| ==> s.c.tail <= s.p.marks[s.c.mtail].pos < |s.p.bytes|;
  }

  lemma {:induction false} NothingLeft(s: State)
    requires s.c.pc.Idle? && s.c.tail == |s.p.bytes| && s.c.mtail == |s.p.marks|
    ensures FramesLeft(s) == 0 && Run(s, Ticks(0)) == s
  {
  }
}
