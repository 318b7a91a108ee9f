/**
 * The relay on unbounded indices, in steps no larger than one access to shared memory.
 *
 * The producer (the receive interrupt) runs to completion between any two steps of the consumer (the main loop).
 * `Producer` holds what only the interrupt writes, `Consumer` what only the main loop writes. Absolute indices are
 * positions in the histories `bytes` and `marks`, which only grow.
 */
module RelayModel {
  import opened Bytes
  import opened Framing

  const RING: nat := 512
  const MARKS: nat := 32
  const GAP_US: nat := 200

  /** A burst mark: the position of the burst's first byte and that byte's arrival time. */
  datatype Mark = Mark(pos: nat, ts: u32)

  datatype Producer = Producer(
    bytes: seq<byte>,      // accepted bytes; the head index is their number
    times: seq<u32>,       // their arrival times
    marks: seq<Mark>,      // recorded marks
    lostAt: seq<nat>,      // positions whose mark found the mark ring full
    lastTs: u32,
    haveLast: bool,
    dropped: u32,
    offered: nat,          // calls of the receive entry point
    refused: nat,          // those that found the data ring full
    noted: nat)            // losses reported from outside

  /** Where the consumer stands; the arguments are its local variables. */
  datatype Pc =
    | Idle                             // before reading the drop counter
    | Report(snap: u32)                // about to write a STATUS frame
    | ReadHead                         // about to read the head index
    | Adopt(avail: nat)                // about to test for a pending mark
    | AdoptPos(avail: nat)             // about to read that mark's position
    | AdoptTs(avail: nat)              // about to read its time stamp
    | AdoptFree(avail: nat)            // about to release its slot
    | Cut(avail: nat)                  // about to test for a mark to stop before
    | CutPos(n: nat)                   // about to read that mark's position
    | Copy(n: nat, got: seq<byte>)     // about to read the next byte, or to write the frame
    | Release(n: nat)                  // frame written, about to advance the tail

  datatype Consumer = Consumer(
    tail: nat,
    mtail: nat,
    curTs: u32,
    reported: u32,
    seqNo: nat,
    pc: Pc,
    start: u32,            // the drop counter as read at the start of the current poll
    out: seq<Frame>,       // frames accepted by the sink
    snaps: seq<u32>)       // for each of them, the counter as read at the start of its poll

  datatype State = State(p: Producer, c: Consumer)

  const INIT := State(Producer([], [], [], [], 0, false, 0, 0, 0, 0), Consumer(0, 0, 0, 0, 0, Idle, 0, [], []))

  datatype Event =
    | Rx(b: byte, ts: u32)
    | Note(k: u32)
    | Tick(ok: bool)       // one consumer step; `ok` is the sink's answer where the step asks for it

  // ---- Steps ----

  predicate StartsBurst(p: Producer, ts: u32) {
    !p.haveLast || Wrap(ts - p.lastTs) > GAP_US
  }

  function Receive(p: Producer, tail: nat, mtail: nat, b: byte, ts: u32): Producer {
    if |p.bytes| - tail >= RING then
      p.(dropped := Wrap(p.dropped + 1), offered := p.offered + 1, refused := p.refused + 1)
    else
      var q :=
        if !StartsBurst(p, ts) then p
        else if |p.marks| - mtail < MARKS then p.(marks := p.marks + [Mark(|p.bytes|, ts)])
        else p.(dropped := Wrap(p.dropped + 1), lostAt := p.lostAt + [|p.bytes|]);
      q.(lastTs := ts, haveLast := true, bytes := q.bytes + [b], times := q.times + [ts], offered := q.offered + 1)
  }

  function NoteDropped(p: Producer, k: u32): Producer {
    p.(dropped := Wrap(p.dropped + k), noted := p.noted + k)
  }

  /** What is found in a slot no byte has been written to is of no consequence. */
  function ByteAt(p: Producer, i: nat): byte { if i < |p.bytes| then p.bytes[i] else 0 }

  function MarkAt(p: Producer, j: nat): Mark { if j < |p.marks| then p.marks[j] else Mark(0, 0) }

  function Min(a: int, b: int): int { if a <= b then a else b }

  function Push(c: Consumer, f: Frame, pc: Pc): Consumer {
    c.(out := c.out + [f], snaps := c.snaps + [c.start], seqNo := (c.seqNo + 1) % 256, pc := pc)
  }

  function Advance(c: Consumer, p: Producer, ok: bool): Consumer {
    match c.pc
    case Idle =>
      c.(start := p.dropped, pc := if p.dropped != c.reported then Report(p.dropped) else ReadHead)
    case Report(snap) =>
      if ok then Push(c, Status(Low8(c.seqNo), snap), ReadHead).(reported := snap) else c.(pc := Idle)
    case ReadHead =>
      c.(pc := if |p.bytes| > c.tail then Adopt(|p.bytes| - c.tail) else Idle)
    case Adopt(avail) =>
      c.(pc := if c.mtail != |p.marks| then AdoptPos(avail) else Cut(avail))
    case AdoptPos(avail) =>
      c.(pc := if MarkAt(p, c.mtail).pos > c.tail then Cut(avail) else AdoptTs(avail))
    case AdoptTs(avail) =>
      c.(curTs := MarkAt(p, c.mtail).ts, pc := AdoptFree(avail))
    case AdoptFree(avail) =>
      c.(mtail := c.mtail + 1, pc := Adopt(avail))
    case Cut(avail) =>
      var n := Min(avail, MAX_CHUNK);
      c.(pc := if c.mtail != |p.marks| then CutPos(n) else Copy(n, []))
    case CutPos(n) =>
      var toNext := MarkAt(p, c.mtail).pos - c.tail;
      c.(pc := Copy(if 0 <= toNext < n then toNext else n, []))
    case Copy(n, got) =>
      if |got| < n then c.(pc := Copy(n, got + [ByteAt(p, c.tail + |got|)]))
      else if ok then Push(c, Data(Low8(c.seqNo), c.curTs, got), Release(n))
      else c.(pc := Idle)
    case Release(n) =>
      c.(tail := c.tail + n, pc := Idle)
  }

  function Step(s: State, e: Event): State {
    match e
    case Rx(b, ts) => s.(p := Receive(s.p, s.c.tail, s.c.mtail, b, ts))
    case Note(k) => s.(p := NoteDropped(s.p, k))
    case Tick(ok) => s.(c := Advance(s.c, s.p, ok))
  }

  function Run(s: State, evs: seq<Event>): State {
    if evs == [] then s else Step(Run(s, evs[..|evs| - 1]), evs[|evs| - 1])
  }

  datatype Offer = Nothing | Offer(f: Frame)

  /** The frame the relay's next step would write. */
  function Offered(c: Consumer): Offer {
    match c.pc
    case Report(snap) => Offer(Status(Low8(c.seqNo), snap))
    case Copy(n, got) => if |got| >= n then Offer(Data(Low8(c.seqNo), c.curTs, got)) else Nothing
    case _ => Nothing
  }

  // ---- What the frames carry ----

  /** A byte together with the time stamp it is relayed under. */
  datatype Cell = Cell(b: byte, ts: u32)

  /** The time stamp of the recorded mark with the greatest position at or below `i`. */
  function StampAt(marks: seq<Mark>, i: nat): u32 {
    if marks == [] then 0
    else if marks[|marks| - 1].pos <= i then marks[|marks| - 1].ts
    else StampAt(marks[..|marks| - 1], i)
  }

  /** The unbounded queue of stamped bytes that the two rings implement, from the very first byte. */
  function Stamped(p: Producer): (q: seq<Cell>)
    ensures |q| == |p.bytes|
  {
    seq(|p.bytes|, i requires 0 <= i < |p.bytes| => Cell(p.bytes[i], StampAt(p.marks, i)))
  }

  function Cells(data: seq<byte>, ts: u32): seq<Cell> {
    seq(|data|, i requires 0 <= i < |data| => Cell(data[i], ts))
  }

  /** Everything the data frames of `out` carry, in order. */
  function Payload(out: seq<Frame>): seq<Cell> {
    if out == [] then []
    else
      var f := out[|out| - 1];
      Payload(out[..|out| - 1]) + (if f.Data? then Cells(f.data, f.ts) else [])
  }

  /** The value of the last STATUS frame, initially 0. */
  function LastStatus(out: seq<Frame>): u32 {
    if out == [] then 0
    else if out[|out| - 1].Status? then out[|out| - 1].dropped
    else LastStatus(out[..|out| - 1])
  }

  /** Bytes already written to the sink. */
  function Written(c: Consumer): nat { c.tail + if c.pc.Release? then c.pc.n else 0 }

  // ---- Invariant ----

  ghost predicate MarksOrdered(p: Producer) {
    && (forall j :: 0 <= j < |p.marks| ==>
          p.marks[j].pos < |p.times| && p.marks[j].ts == p.times[p.marks[j].pos])
    && (forall i, j :: 0 <= i < j < |p.marks| ==> p.marks[i].pos < p.marks[j].pos)
    && (p.bytes != [] ==> p.marks != [] && p.marks[0].pos == 0)
  }

  predicate HasMark(marks: seq<Mark>, i: nat) {
    exists j :: 0 <= j < |marks| && marks[j].pos == i
  }

  predicate GapBefore(times: seq<u32>, i: nat)
    requires 1 <= i < |times|
  {
    Wrap(times[i] as int - times[i - 1] as int) > GAP_US
  }

  /** A byte more than the gap after its predecessor has a mark, or its mark was lost; no other byte has one. */
  ghost predicate GapsMarked(p: Producer) {
    forall i {:trigger GapBefore(p.times, i)} :: 1 <= i < |p.times| ==>
      (GapBefore(p.times, i) <==> (HasMark(p.marks, i) || i in p.lostAt))
  }

  ghost predicate ProducerInv(p: Producer) {
    && |p.times| == |p.bytes|
    && (p.haveLast <==> p.bytes != [])
    && (p.haveLast ==> p.lastTs == p.times[|p.times| - 1])
    && p.offered == |p.bytes| + p.refused
    && p.dropped == Wrap(p.refused + |p.lostAt| + p.noted)
    && (forall i :: i in p.lostAt ==> i < |p.bytes|)
  }

  /** The occupied slots of each ring hold unread data only, and pending marks lie in [tail, head). */
  ghost predicate RingInv(s: State) {
    && s.c.tail <= |s.p.bytes| <= s.c.tail + RING
    && s.c.mtail <= |s.p.marks| <= s.c.mtail + MARKS
    && (forall j :: s.c.mtail <= j < |s.p.marks| ==> s.c.tail <= s.p.marks[j].pos)
    && (s.c.mtail > 0 ==> s.p.marks[s.c.mtail - 1].pos <= s.c.tail)
    && (s.c.mtail > 0 && !s.c.pc.AdoptFree? ==> s.c.curTs == s.p.marks[s.c.mtail - 1].ts)
  }

  /** The mark in effect is the last one at or before the tail, and the next one is at `limit` or later. */
  ghost predicate Adopted(s: State, limit: nat) {
    && s.c.mtail > 0
    && (s.c.mtail < |s.p.marks| ==> s.p.marks[s.c.mtail].pos >= limit)
  }

  ghost predicate PcInv(s: State) {
    var c, p := s.c, s.p;
    match c.pc
    case Idle => true
    case Report(snap) => snap == c.start && snap != c.reported
    case ReadHead => true
    case Adopt(avail) => 1 <= avail && c.tail + avail <= |p.bytes|
    case AdoptPos(avail) => 1 <= avail && c.tail + avail <= |p.bytes| && c.mtail < |p.marks|
    case AdoptTs(avail) =>
      1 <= avail && c.tail + avail <= |p.bytes| && c.mtail < |p.marks| && p.marks[c.mtail].pos == c.tail
    case AdoptFree(avail) =>
      && 1 <= avail && c.tail + avail <= |p.bytes| && c.mtail < |p.marks| && p.marks[c.mtail].pos == c.tail
      && c.curTs == p.marks[c.mtail].ts
    case Cut(avail) => 1 <= avail && c.tail + avail <= |p.bytes| && Adopted(s, c.tail + 1)
    case CutPos(n) =>
      1 <= n <= MAX_CHUNK && c.tail + n <= |p.bytes| && Adopted(s, c.tail + 1) && c.mtail < |p.marks|
    case Copy(n, got) =>
      && 1 <= n <= MAX_CHUNK && c.tail + n <= |p.bytes| && Adopted(s, c.tail + n)
      && |got| <= n && got == p.bytes[c.tail..c.tail + |got|]
    case Release(n) => 1 <= n <= MAX_CHUNK && c.tail + n <= |p.bytes| && Adopted(s, c.tail + n)
  }

  ghost predicate PayloadInv(s: State) {
    Written(s.c) <= |s.p.bytes| && Payload(s.c.out) == Stamped(s.p)[..Written(s.c)]
  }

  /** Numbering, chunk sizes and drop reports of the frames written so far. */
  ghost predicate OutInv(c: Consumer) {
    && c.seqNo == |c.out| % 256
    && |c.snaps| == |c.out|
    && LastStatus(c.out) == c.reported
    && (!c.pc.Idle? && !c.pc.Report? ==> c.reported == c.start)
    && (forall i :: 0 <= i < |c.out| ==> FrameInv(c, i))
  }

  ghost predicate FrameInv(c: Consumer, i: nat)
    requires i < |c.out| == |c.snaps|
  {
    && c.out[i].no == ByteOf(i % 256)
    && (c.out[i].Data? ==> 1 <= |c.out[i].data| <= MAX_CHUNK && LastStatus(c.out[..i]) == c.snaps[i])
    && (c.out[i].Status? ==> c.out[i].dropped == c.snaps[i] != LastStatus(c.out[..i]))
  }

  ghost predicate Inv(s: State) {
    && ProducerInv(s.p) && MarksOrdered(s.p) && GapsMarked(s.p)
    && RingInv(s) && PcInv(s) && PayloadInv(s) && OutInv(s.c)
  }

  // ---- Preservation by the producer ----

  lemma {:induction false} NoteKeepsProducer(p: Producer, k: u32)
    requires ProducerInv(p)
    ensures ProducerInv(NoteDropped(p, k))
  {
    NoteMore(p.refused + |p.lostAt| + p.noted, k);
    hide Wrap;
  }

  lemma {:induction false} NoteMore(n: nat, k: nat)
    ensures Wrap(Wrap(n) as int + k) == Wrap(n + k)
  {
  }

  lemma {:induction false} NoteKeepsInv(s: State, k: u32)
    requires Inv(s)
    ensures Inv(Step(s, Note(k)))
  {
    hide Payload, StampAt, LastStatus, ProducerInv, OutInv, GapBefore, HasMark, Wrap;
    NoteKeepsProducer(s.p, k);
    assert Stamped(NoteDropped(s.p, k)) == Stamped(s.p);
  }

  lemma {:induction false} ReceiveKeepsProducer(s: State, b: byte, ts: u32)
    requires ProducerInv(s.p)
    ensures ProducerInv(Receive(s.p, s.c.tail, s.c.mtail, b, ts))
  {
    hide Wrap, StartsBurst;
    NoteMore(s.p.refused + |s.p.lostAt| + s.p.noted, 1);
  }

  lemma {:induction false} ReceiveKeepsMarks(s: State, b: byte, ts: u32)
    requires ProducerInv(s.p) && MarksOrdered(s.p) && RingInv(s)
    ensures MarksOrdered(Receive(s.p, s.c.tail, s.c.mtail, b, ts))
  {
  }

  lemma {:induction false} ReceiveKeepsGaps(s: State, b: byte, ts: u32)
    requires ProducerInv(s.p) && MarksOrdered(s.p) && GapsMarked(s.p) && RingInv(s)
    ensures GapsMarked(Receive(s.p, s.c.tail, s.c.mtail, b, ts))
  {
    var p, q := s.p, Receive(s.p, s.c.tail, s.c.mtail, b, ts);
    var n := |p.bytes|;
    if q.bytes != p.bytes {
      forall i | 1 <= i < |q.times|
        ensures GapBefore(q.times, i) <==> (HasMark(q.marks, i) || i in q.lostAt)
      {
        if i < n {
          assert GapBefore(q.times, i) == GapBefore(p.times, i);
          SameMarks(p.marks, q.marks, i, n);
        } else {
          assert StartsBurst(p, ts) == GapBefore(q.times, n);
          if q.marks != p.marks {
            assert q.marks[|p.marks|].pos == n;
          } else {
            assert !HasMark(p.marks, n);
          }
        }
      }
    }
  }

  /** A mark appended at `n` changes nothing below `n`. */
  lemma {:induction false} SameMarks(m: seq<Mark>, m': seq<Mark>, i: nat, n: nat)
    requires m == m' || (|m'| == |m| + 1 && m'[..|m|] == m && m'[|m|].pos == n)
    requires i < n
    ensures HasMark(m', i) == HasMark(m, i)
    ensures StampAt(m', i) == StampAt(m, i)
  {
    if HasMark(m, i) {
      var j :| 0 <= j < |m| && m[j].pos == i;
      assert m'[j].pos == i;
    }
  }

  lemma {:induction false} ReceiveKeepsRing(s: State, b: byte, ts: u32)
    requires Inv(s)
    ensures var t := Step(s, Rx(b, ts)); RingInv(t) && PcInv(t)
  {
    assert |s.p.times| == |s.p.bytes| && RingInv(s) && PcInv(s);
    hide Inv, MarksOrdered, GapsMarked, ProducerInv, PayloadInv, OutInv, RingInv, PcInv;
    PushKeepsRing(s, b, ts);
    PushKeepsPc(s, b, ts);
  }

  lemma {:induction false} PushKeepsRing(s: State, b: byte, ts: u32)
    requires RingInv(s)
    ensures RingInv(Step(s, Rx(b, ts)))
  {
    hide Wrap, StartsBurst;
  }

  lemma {:induction false} PushKeepsPc(s: State, b: byte, ts: u32)
    requires RingInv(s) && PcInv(s)
    ensures PcInv(Step(s, Rx(b, ts)))
  {
    hide Wrap, StartsBurst;
  }

  lemma {:induction false} ReceiveKeepsPayload(s: State, b: byte, ts: u32)
    requires Inv(s)
    ensures PayloadInv(Step(s, Rx(b, ts)))
  {
    var p, q := s.p, Receive(s.p, s.c.tail, s.c.mtail, b, ts);
    hide Payload, StampAt, LastStatus, GapsMarked, OutInv;
    forall i | 0 <= i < |p.bytes|
      ensures Stamped(q)[i] == Stamped(p)[i]
    {
      SameMarks(p.marks, q.marks, i, |p.bytes|);
    }
    assert Stamped(q)[..Written(s.c)] == Stamped(p)[..Written(s.c)];
  }

  // ---- Preservation by the consumer ----

  predicate Adopting(pc: Pc) { pc.Adopt? || pc.AdoptPos? || pc.AdoptTs? || pc.AdoptFree? }

  /** The mark loop: it stops at the first mark beyond the tail, having adopted all before it. */
  lemma {:induction false} AdoptKeepsRing(s: State, ok: bool)
    requires MarksOrdered(s.p) && |s.p.times| == |s.p.bytes| && RingInv(s) && PcInv(s) && Adopting(s.c.pc)
    ensures var t := Step(s, Tick(ok)); RingInv(t) && PcInv(t)
  {
    if s.c.pc.AdoptPos? && s.p.marks[s.c.mtail].pos > s.c.tail {
      assert s.c.mtail != 0;
    }
  }

  lemma {:induction false} CutKeepsRing(s: State, ok: bool)
    requires RingInv(s) && PcInv(s) && (s.c.pc.Cut? || s.c.pc.CutPos?)
    ensures var t := Step(s, Tick(ok)); RingInv(t) && PcInv(t)
  {
  }

  lemma {:induction false} CopyKeepsRing(s: State, ok: bool)
    requires RingInv(s) && PcInv(s) && s.c.pc.Copy?
    ensures var t := Step(s, Tick(ok)); RingInv(t) && PcInv(t)
  {
    hide Low8, Wrap;
    if |s.c.pc.got| < s.c.pc.n {
      var k := s.c.tail + |s.c.pc.got|;
      assert s.p.bytes[s.c.tail..k + 1] == s.c.pc.got + [s.p.bytes[k]];
    }
  }

  lemma {:induction false} OtherStepsKeepRing(s: State, ok: bool)
    requires MarksOrdered(s.p) && RingInv(s) && PcInv(s) && !Adopting(s.c.pc)
    ensures var t := Step(s, Tick(ok)); RingInv(t) && PcInv(t)
  {
    if s.c.pc.Copy? {
      hide Step, RingInv, PcInv;
      CopyKeepsRing(s, ok);
    } else if s.c.pc.Cut? || s.c.pc.CutPos? {
      hide Step, RingInv, PcInv;
      CutKeepsRing(s, ok);
    } else {
      hide Low8, Wrap;
    }
  }

  lemma {:induction false} AdvanceKeepsRing(s: State, ok: bool)
    requires Inv(s)
    ensures var t := Step(s, Tick(ok)); RingInv(t) && PcInv(t)
  {
    hide GapsMarked, PayloadInv, OutInv, Step;
    if Adopting(s.c.pc) {
      AdoptKeepsRing(s, ok);
    } else {
      OtherStepsKeepRing(s, ok);
    }
  }

  /** Steps that write no frame and move no byte. */
  predicate Quiet(c: Consumer, ok: bool) {
    match c.pc
    case Report(_) => !ok
    case Copy(n, got) => |got| < n || !ok
    case Release(_) => false
    case _ => true
  }

  lemma {:induction false} QuietKeepsOut(s: State, ok: bool)
    requires Inv(s) && Quiet(s.c, ok)
    ensures var t := Step(s, Tick(ok)); PayloadInv(t) && OutInv(t.c)
  {
    hide Payload, StampAt, LastStatus, GapsMarked, MarksOrdered, ProducerInv, RingInv, Stamped;
    var t := Step(s, Tick(ok));
    assert t.c.out == s.c.out && t.c.snaps == s.c.snaps && Written(t.c) == Written(s.c);
    forall i | 0 <= i < |t.c.out| ensures FrameInv(t.c, i) {
      assert FrameInv(s.c, i);
    }
  }

  lemma {:induction false} ReleaseKeepsOut(s: State, ok: bool)
    requires Inv(s) && s.c.pc.Release?
    ensures var t := Step(s, Tick(ok)); PayloadInv(t) && OutInv(t.c)
  {
    hide Payload, StampAt, LastStatus, GapsMarked, MarksOrdered, ProducerInv, RingInv, Stamped;
    var t := Step(s, Tick(ok));
    forall i | 0 <= i < |t.c.out| ensures FrameInv(t.c, i) {
      assert FrameInv(s.c, i);
    }
  }

  lemma {:induction false} AppendFrame(out: seq<Frame>, f: Frame)
    ensures LastStatus(out + [f]) == if f.Status? then f.dropped else LastStatus(out)
    ensures Payload(out + [f]) == Payload(out) + (if f.Data? then Cells(f.data, f.ts) else [])
  {
    assert (out + [f])[..|out|] == out;
    hide Cells;
  }

  lemma {:induction false} NextNumber(n: nat)
    ensures Low8(n % 256) == ByteOf(n % 256) && (n % 256 + 1) % 256 == (n + 1) % 256
  {
  }

  lemma {:induction false} PushKeepsFrames(c: Consumer, f: Frame, pc: Pc)
    requires OutInv(c) && f.no == Low8(c.seqNo)
    requires f.Data? ==> 1 <= |f.data| <= MAX_CHUNK && LastStatus(c.out) == c.start
    requires f.Status? ==> f.dropped == c.start && c.start != c.reported
    ensures var d := Push(c, f, pc);
            d.seqNo == |d.out| % 256 && |d.snaps| == |d.out| && forall i :: 0 <= i < |d.out| ==> FrameInv(d, i)
  {
    var d, n := Push(c, f, pc), |c.out|;
    assert d.out[..n] == c.out;
    NextNumber(n);
    hide ByteOf, Low8, LastStatus;
    forall i | 0 <= i < |d.out| ensures FrameInv(d, i) {
      if i < n {
        assert FrameInv(c, i);
        assert d.out[..i] == c.out[..i];
      }
    }
  }

  lemma {:induction false} ReportKeepsOut(s: State)
    requires Inv(s) && s.c.pc.Report?
    ensures var t := Step(s, Tick(true)); PayloadInv(t) && OutInv(t.c)
  {
    var f := Status(Low8(s.c.seqNo), s.c.pc.snap);
    PushKeepsFrames(s.c, f, ReadHead);
    AppendFrame(s.c.out, f);
    hide Payload, StampAt, LastStatus, GapsMarked, MarksOrdered, ProducerInv, RingInv, Stamped, Low8;
    var t := Step(s, Tick(true));
    var d := Push(s.c, f, ReadHead);
    forall i | 0 <= i < |t.c.out| ensures FrameInv(t.c, i) {
      assert FrameInv(d, i);
    }
  }

  /** Bytes from the last adopted mark up to the next one carry the stamp in effect. */
  lemma {:induction false} StampOfChunk(s: State, limit: nat, i: nat)
    requires MarksOrdered(s.p) && RingInv(s) && Adopted(s, limit) && !s.c.pc.AdoptFree?
    requires s.c.tail <= i < limit
    ensures StampAt(s.p.marks, i) == s.c.curTs
  {
    StampIs(s.p.marks, s.c.mtail - 1, i);
  }

  /** The stamp of a position is that of the last mark at or before it. */
  lemma {:induction false} StampIs(marks: seq<Mark>, j: nat, i: nat)
    requires j < |marks| && marks[j].pos <= i
    requires forall k :: j < k < |marks| ==> marks[k].pos > i
    ensures StampAt(marks, i) == marks[j].ts
  {
    if j < |marks| - 1 {
      StampIs(marks[..|marks| - 1], j, i);
    }
  }

  /** The bytes gathered, as cells of the queue. */
  lemma {:induction false} ChunkIsNext(s: State)
    requires Inv(s) && s.c.pc.Copy? && |s.c.pc.got| == s.c.pc.n
    ensures s.c.tail + s.c.pc.n <= |s.p.bytes|
    ensures Stamped(s.p)[..s.c.tail + s.c.pc.n] == Stamped(s.p)[..s.c.tail] + Cells(s.c.pc.got, s.c.curTs)
  {
    hide PayloadInv, OutInv, GapsMarked, ProducerInv, StampAt;
    var n, got := s.c.pc.n, s.c.pc.got;
    forall i | s.c.tail <= i < s.c.tail + n
      ensures Stamped(s.p)[i] == Cell(got[i - s.c.tail], s.c.curTs)
    {
      StampOfChunk(s, s.c.tail + n, i);
    }
  }

  lemma {:induction false} SendFacts(s: State)
    requires Inv(s) && s.c.pc.Copy?
    ensures OutInv(s.c) && s.c.reported == s.c.start && LastStatus(s.c.out) == s.c.start
    ensures 1 <= s.c.pc.n <= MAX_CHUNK && Payload(s.c.out) == Stamped(s.p)[..s.c.tail]
  {
    hide GapsMarked, ProducerInv, RingInv, MarksOrdered, FrameInv, Payload, LastStatus;
  }

  lemma {:induction false} SendKeepsOut(s: State)
    requires Inv(s) && s.c.pc.Copy? && |s.c.pc.got| == s.c.pc.n
    ensures var t := Step(s, Tick(true)); PayloadInv(t) && OutInv(t.c)
  {
    hide Inv, Payload, StampAt, LastStatus, FrameInv, Low8, Stamped, Cells;
    var n, got := s.c.pc.n, s.c.pc.got;
    var f := Data(Low8(s.c.seqNo), s.c.curTs, got);
    SendFacts(s);
    ChunkIsNext(s);
    PushKeepsFrames(s.c, f, Release(n));
    AppendFrame(s.c.out, f);
    assert Step(s, Tick(true)) == s.(c := Push(s.c, f, Release(n)));
  }

  lemma {:induction false} StepKeepsInv(s: State, e: Event)
    requires Inv(s)
    ensures Inv(Step(s, e))
  {
    match e
    case Rx(b, ts) =>
      ReceiveKeepsProducer(s, b, ts);
      ReceiveKeepsMarks(s, b, ts);
      ReceiveKeepsGaps(s, b, ts);
      ReceiveKeepsRing(s, b, ts);
      ReceiveKeepsPayload(s, b, ts);
    case Note(k) =>
      NoteKeepsInv(s, k);
    case Tick(ok) =>
      AdvanceKeepsRing(s, ok);
      if Quiet(s.c, ok) {
        QuietKeepsOut(s, ok);
      } else if s.c.pc.Release? {
        ReleaseKeepsOut(s, ok);
      } else if s.c.pc.Report? {
        ReportKeepsOut(s);
      } else {
        SendKeepsOut(s);
      }
  }

  lemma {:induction false} RunKeepsInv(s: State, evs: seq<Event>)
    requires Inv(s)
    ensures Inv(Run(s, evs))
    decreases |evs|
  {
    if evs != [] {
      RunKeepsInv(s, evs[..|evs| - 1]);
      StepKeepsInv(Run(s, evs[..|evs| - 1]), evs[|evs| - 1]);
    }
  }

  lemma {:induction false} InitInv()
    ensures Inv(INIT)
  {
  }

  lemma {:induction false} RunAppend(s: State, a: seq<Event>, b: seq<Event>)
    ensures Run(s, a + b) == Run(Run(s, a), b)
    decreases |b|
  {
    hide Step;
    if b == [] {
      assert a + b == a;
    } else {
      RunAppend(s, a, b[..|b| - 1]);
      DropLastOfConcat(a, b);
    }
  }
}
