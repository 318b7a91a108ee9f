/**
 * The relay as it runs: statically sized rings, 32-bit wrapping indices, an interrupt that may fire between any two
 * accesses to shared memory. The ghost field `m` is the same relay on unbounded indices; `Valid` ties the two.
 */
module RelayRings {
  import opened Bytes
  import opened Framing
  import opened RelayModel
  import opened ByteFifos

  // ---- Wrapping indices ----

  /** A difference below 2^32 survives the wrap. */
  lemma {:induction false} WrappedDifference(hi: nat, lo: nat)
    requires lo <= hi < lo + TWO32
    ensures Wrap(Wrap(hi) as int - Wrap(lo) as int) == hi - lo
  {
    var q, r := hi / TWO32, lo / TWO32;
    assert Wrap(hi) as int - Wrap(lo) as int == (hi - lo) - (q - r) * TWO32;
    assert q == r || q == r + 1;
  }

  lemma {:induction false} WrappedEqual(hi: nat, lo: nat)
    requires lo <= hi < lo + TWO32
    ensures Wrap(hi) == Wrap(lo) <==> hi == lo
  {
    WrappedDifference(hi, lo);
  }

  /** Masking by a ring size commutes with the wrap, because the size divides 2^32. */
  lemma {:induction false} WrappedSlot(i: nat)
    ensures Wrap(i) % RING == i % RING && Wrap(i) % MARKS == i % MARKS
  {
    var q := i / TWO32;
    assert i == q * TWO32 + Wrap(i);
    assert TWO32 == RING * 8388608 && TWO32 == MARKS * 134217728;
    assert i == (q * 8388608) * RING + Wrap(i);
    assert i == (q * 134217728) * MARKS + Wrap(i);
  }

  lemma {:induction false} WrappedSuccessor(i: nat, k: nat)
    ensures Wrap(Wrap(i) as int + k) == Wrap(i + k)
  {
    var q := i / TWO32;
    assert Wrap(i) as int + k == (i + k) - q * TWO32;
  }

  /** Positions less than the ring size apart have different slots. */
  lemma {:induction false} DistinctSlots(i: nat, j: nat, size: nat)
    requires size == RING || size == MARKS
    requires i < j < i + size
    ensures i % size != j % size
  {
  }

  /** The cast `(int32_t)x`. */
  function Signed(x: u32): int { if x < 0x8000_0000 then x else x - TWO32 }

  lemma {:induction false} SignedDistance(pos: nat, tail: nat)
    requires tail <= pos < tail + RING
    ensures Signed(Wrap(Wrap(pos) as int - Wrap(tail) as int)) > 0 <==> pos > tail
  {
    WrappedDifference(pos, tail);
  }

  // ---- What the rings hold ----

  /** The unread bytes, by slot. */
  ghost predicate DataHeld(ring: seq<byte>, bytes: seq<byte>, tail: nat)
    requires |ring| == RING
  {
    forall i {:trigger bytes[i]} :: tail <= i < |bytes| ==> ring[i % RING] == bytes[i]
  }

  /** The pending marks, by slot. */
  ghost predicate MarksHeld(pos: seq<u32>, ts: seq<u32>, marks: seq<Mark>, mtail: nat)
    requires |pos| == |ts| == MARKS
  {
    forall j {:trigger marks[j]} :: mtail <= j < |marks| ==>
      pos[j % MARKS] == Wrap(marks[j].pos) && ts[j % MARKS] == marks[j].ts
  }

  lemma {:induction false} PushData(ring: seq<byte>, bytes: seq<byte>, tail: nat, b: byte)
    requires |ring| == RING && DataHeld(ring, bytes, tail) && tail <= |bytes| < tail + RING
    ensures DataHeld(ring[|bytes| % RING := b], bytes + [b], tail)
  {
    forall i | tail <= i < |bytes|
      ensures i % RING != |bytes| % RING
    {
      DistinctSlots(i, |bytes|, RING);
    }
  }

  lemma {:induction false} PushMark(pos: seq<u32>, ts: seq<u32>, marks: seq<Mark>, mtail: nat, x: Mark)
    requires |pos| == |ts| == MARKS && MarksHeld(pos, ts, marks, mtail) && mtail <= |marks| < mtail + MARKS
    ensures MarksHeld(pos[|marks| % MARKS := Wrap(x.pos)], ts[|marks| % MARKS := x.ts], marks + [x], mtail)
  {
    forall j | mtail <= j < |marks|
      ensures j % MARKS != |marks| % MARKS
    {
      DistinctSlots(j, |marks|, MARKS);
    }
  }

  lemma {:induction false} Occupancy(s: State)
    requires Inv(s)
    ensures s.c.tail <= |s.p.bytes| <= s.c.tail + RING && s.c.mtail <= |s.p.marks| <= s.c.mtail + MARKS
  {
  }

  lemma {:induction false} ReadData(ring: seq<byte>, bytes: seq<byte>, tail: nat, i: nat)
    requires |ring| == RING && DataHeld(ring, bytes, tail) && tail <= i < |bytes|
    ensures ring[i % RING] == bytes[i]
  {
  }

  lemma {:induction false} DropData(ring: seq<byte>, bytes: seq<byte>, tail: nat, n: nat)
    requires |ring| == RING && DataHeld(ring, bytes, tail)
    ensures DataHeld(ring, bytes, tail + n)
  {
  }

  lemma {:induction false} ReadMark(pos: seq<u32>, ts: seq<u32>, marks: seq<Mark>, mtail: nat)
    requires |pos| == |ts| == MARKS && MarksHeld(pos, ts, marks, mtail) && mtail < |marks|
    ensures pos[mtail % MARKS] == Wrap(marks[mtail].pos) && ts[mtail % MARKS] == marks[mtail].ts
  {
  }

  lemma {:induction false} DropMark(pos: seq<u32>, ts: seq<u32>, marks: seq<Mark>, mtail: nat)
    requires |pos| == |ts| == MARKS && MarksHeld(pos, ts, marks, mtail)
    ensures MarksHeld(pos, ts, marks, mtail + 1)
  {
  }

  /** The outcomes of the receive entry point. */
  lemma {:induction false} ReceiveCases(p: Producer, tail: nat, mtail: nat, b: byte, ts: u32)
    ensures var q := Receive(p, tail, mtail, b, ts);
            if |p.bytes| - tail >= RING then
              q.bytes == p.bytes && q.marks == p.marks && q.dropped == Wrap(p.dropped + 1)
              && q.lastTs == p.lastTs && q.haveLast == p.haveLast
            else
              && q.bytes == p.bytes + [b] && q.lastTs == ts && q.haveLast
              && (!StartsBurst(p, ts) ==> q.marks == p.marks && q.dropped == p.dropped)
              && (StartsBurst(p, ts) && |p.marks| - mtail < MARKS ==>
                    q.marks == p.marks + [Mark(|p.bytes|, ts)] && q.dropped == p.dropped)
              && (StartsBurst(p, ts) && |p.marks| - mtail >= MARKS ==>
                    q.marks == p.marks && q.dropped == Wrap(p.dropped + 1))
  {
  }

  lemma {:induction false} RxStep(s: State, b: byte, ts: u32)
    ensures Step(s, Rx(b, ts)).c == s.c && Step(s, Rx(b, ts)).p == Receive(s.p, s.c.tail, s.c.mtail, b, ts)
  {
  }

  // ---- The relay ----

  predicate ProducerOnly(evs: seq<Event>) { forall e :: e in evs ==> !e.Tick? }

  /** One consumer step, then nothing but the interrupt. */
  predicate OneStep(evs: seq<Event>, ok: bool) { evs != [] && evs[0] == Tick(ok) && ProducerOnly(evs[1..]) }

  // ---- What the sink was asked, and what it answered ----

  datatype Answer = Answer(f: Frame, ok: bool)

  /** The frames offered in a run, each with the sink's answer. */
  function Answers(s: State, evs: seq<Event>): seq<Answer> {
    if evs == [] then []
    else
      var front, e := evs[..|evs| - 1], evs[|evs| - 1];
      Answers(s, front) +
      if e.Tick? && Offered(Run(s, front).c).Offer? then [Answer(Offered(Run(s, front).c).f, e.ok)] else []
  }

  /** What it has accepted. */
  function Accepted(answers: seq<Answer>): seq<byte> {
    if answers == [] then []
    else
      var last := answers[|answers| - 1];
      Accepted(answers[..|answers| - 1]) + if last.ok && last.f.Fits() then last.f.Wire() else []
  }

  /** A sink with room for `room` bytes takes a frame whole, exactly when it fits. */
  predicate ByRoom(answers: seq<Answer>, room: int) {
    answers != [] ==>
      var front, last := answers[..|answers| - 1], answers[|answers| - 1];
      && ByRoom(front, room)
      && last.f.Fits() && (last.ok <==> |last.f.Wire()| <= room - |Accepted(front)|)
  }

  /** In the run the FIFO, of capacity `cap`, has answered for itself and gone from `x` to `y`. */
  predicate Told(s: State, evs: seq<Event>, x: seq<byte>, y: seq<byte>, cap: nat) {
    ByRoom(Answers(s, evs), cap - 1 - |x|) && y == x + Accepted(Answers(s, evs))
  }

  lemma {:induction false} AnswersAppend(s: State, a: seq<Event>, b: seq<Event>)
    ensures Answers(s, a + b) == Answers(s, a) + Answers(Run(s, a), b)
    decreases |b|
  {
    hide Run, Frame.Wire;
    if b == [] {
      assert a + b == a;
    } else {
      var n := |b| - 1;
      AnswersAppend(s, a, b[..n]);
      DropLastOfConcat(a, b);
      RunAppend(s, a, b[..n]);
    }
  }

  lemma {:induction false} AcceptedAppend(a: seq<Answer>, b: seq<Answer>, room: int)
    ensures Accepted(a + b) == Accepted(a) + Accepted(b)
    ensures ByRoom(a, room) && ByRoom(b, room - |Accepted(a)|) ==> ByRoom(a + b, room)
    decreases |b|
  {
    hide Frame.Wire;
    if b == [] {
      assert a + b == a && Accepted(a) + Accepted(b) == Accepted(a);
    } else {
      var n := |b| - 1;
      AcceptedAppend(a, b[..n], room);
      DropLastOfConcat(a, b);
      var last := if b[n].ok && b[n].f.Fits() then b[n].f.Wire() else [];
      ConcatAssociative(Accepted(a), Accepted(b[..n]), last);
    }
  }

  /** Two runs in a row. */
  lemma {:induction false} Continue(s: State, a: seq<Event>, b: seq<Event>, x: seq<byte>, y: seq<byte>, z: seq<byte>,
                                    cap: nat)
    requires Told(s, a, x, y, cap) && Told(Run(s, a), b, y, z, cap)
    ensures Run(s, a + b) == Run(Run(s, a), b) && Told(s, a + b, x, z, cap)
  {
    hide Run, Answers, ByRoom, Accepted;
    RunAppend(s, a, b);
    AnswersAppend(s, a, b);
    AcceptedAppend(Answers(s, a), Answers(Run(s, a), b), cap - 1 - |x|);
    ConcatAssociative(x, Accepted(Answers(s, a)), Accepted(Answers(Run(s, a), b)));
  }

  lemma {:induction false} NoAnswers(s: State, evs: seq<Event>)
    requires ProducerOnly(evs)
    ensures Answers(s, evs) == []
    decreases |evs|
  {
    if evs != [] {
      hide Run;
      var n := |evs| - 1;
      assert evs[n] in evs;
      NoAnswers(s, evs[..n]);
    }
  }

  /** One step asks the sink once, if the step is an offer, and nothing more is asked until the next. */
  lemma {:induction false} OneAnswer(s: State, evs: seq<Event>, ok: bool)
    requires OneStep(evs, ok)
    ensures Answers(s, evs) == if Offered(s.c).Offer? then [Answer(Offered(s.c).f, ok)] else []
  {
    hide Run;
    var first, rest := [Tick(ok)], evs[1..];
    assert evs == first + rest && first[..0] == [];
    AnswersAppend(s, first, rest);
    NoAnswers(Run(s, first), rest);
    EmptyRun(s);
  }

  lemma {:induction false} NothingTold(s: State, x: seq<byte>, cap: nat)
    ensures Told(s, [], x, x, cap) && Run(s, []) == s
  {
  }

  /** A step that is not an offer. */
  lemma {:induction false} ReadTold(s: State, evs: seq<Event>, ok: bool, x: seq<byte>, cap: nat)
    requires OneStep(evs, ok) && !Offered(s.c).Offer?
    ensures Told(s, evs, x, x, cap)
  {
    OneAnswer(s, evs, ok);
    hide Answers;
  }

  /** A step that is one. */
  lemma {:induction false} OfferTold(s: State, evs: seq<Event>, ok: bool, x: seq<byte>, y: seq<byte>, cap: nat)
    requires OneStep(evs, ok) && Offered(s.c).Offer? && Offered(s.c).f.Fits()
    requires ok <==> |Offered(s.c).f.Wire()| <= cap - 1 - |x|
    requires y == x + if ok then Offered(s.c).f.Wire() else []
    ensures Told(s, evs, x, y, cap)
  {
    hide Answers, Accepted, ByRoom, Frame.Wire, Run;
    OneAnswer(s, evs, ok);
    OneAccepted(Answer(Offered(s.c).f, ok), cap - 1 - |x|);
  }

  lemma {:induction false} OneAccepted(a: Answer, room: int)
    requires a.f.Fits()
    ensures Accepted([a]) == if a.ok then a.f.Wire() else []
    ensures ByRoom([a], room) <==> (a.ok <==> |a.f.Wire()| <= room)
  {
    hide Frame.Wire;
    assert [a][..0] == [];
    assert Accepted([]) == [] && ByRoom([], room);
  }

  /** The producer's histories only grow, and what is marked later lies behind what was there before. */
  ghost predicate Grows(p: Producer, q: Producer) {
    && p.bytes <= q.bytes && p.marks <= q.marks
    && (forall j :: |p.marks| <= j < |q.marks| ==> q.marks[j].pos >= |p.bytes|)
  }

  lemma {:induction false} StepGrows(s: State, e: Event)
    ensures Grows(s.p, Step(s, e).p)
  {
    hide Advance, Wrap;
  }

  lemma {:induction false} RunGrows(s: State, evs: seq<Event>)
    ensures Grows(s.p, Run(s, evs).p)
    decreases |evs|
  {
    if evs != [] {
      hide Step;
      RunGrows(s, evs[..|evs| - 1]);
      StepGrows(Run(s, evs[..|evs| - 1]), evs[|evs| - 1]);
    }
  }

  // ---- What one poll does ----

  /** The sequence number of the next frame. */
  function NextNo(out: seq<Frame>): byte { ByteOf(|out| % 256) }

  /** The longest run of at most 32 bytes from `tail` under one stamp, of those before `head`. */
  ghost predicate LongestChunk(p: Producer, tail: nat, head: nat, n: nat) {
    && 1 <= n <= 32 && tail + n <= head <= |p.bytes|
    && (forall j :: 0 <= j < |p.marks| ==> !(tail < p.marks[j].pos < tail + n))
    && (n == 32 || tail + n == head || HasMark(p.marks, tail + n))
  }

  /** The report of the losses noted so far. */
  function ReportOf(s: State): Frame { Status(NextNo(s.c.out), s.p.dropped) }

  /** The frames and the FIFO once the report is in, if there is one. */
  function OutReported(s: State): seq<Frame> {
    s.c.out + if s.p.dropped != s.c.reported then [ReportOf(s)] else []
  }

  function FifoReported(s: State, x: seq<byte>): seq<byte> {
    x + if s.p.dropped != s.c.reported then ReportOf(s).Wire() else []
  }

  /** The report has to wait. */
  predicate ReportBlocked(s: State, x: seq<byte>, cap: nat) {
    s.p.dropped != s.c.reported && |ReportOf(s).Wire()| > cap - 1 - |x|
  }

  /** The data frame of `n` bytes that is offered after the frames `out`, the producer having got as far as `p`. */
  function DataOf(out: seq<Frame>, p: Producer, tail: nat, n: nat): Frame
    requires tail + n <= |p.bytes|
  {
    Data(NextNo(out), StampAt(p.marks, tail), p.bytes[tail..tail + n])
  }

  /** A chunk of `n` bytes at `tail` is written after the frames `out`, or the FIFO lacks the room. */
  ghost predicate ChunkPolled(out: seq<Frame>, t: State, x: seq<byte>, y: seq<byte>, cap: nat, tail: nat, n: nat,
                              e: nat)
    requires tail + n <= |t.p.bytes|
  {
    var f := DataOf(out, t.p, tail, n);
    if f.Fits() && |f.Wire()| <= cap - 1 - |x|
    then e == |f.Wire()| && e != 0 && t.c.out == out + [f] && y == x + f.Wire() && t.c.tail == tail + n
    else e == 0 && t.c.out == out && y == x && t.c.tail == tail
  }

  /** The data half of a poll: the longest chunk of what is found unread, under the stamp of the last mark before it. */
  ghost predicate DataPolled(s: State, t: State, x: seq<byte>, y: seq<byte>, cap: nat, n: nat, e: nat) {
    if |s.p.bytes| == s.c.tail then e == 0 && t.c.out == s.c.out && y == x && t.c.tail == s.c.tail
    else LongestChunk(t.p, s.c.tail, |s.p.bytes|, n) && ChunkPolled(s.c.out, t, x, y, cap, s.c.tail, n, e)
  }

  /**
   * One poll, from `s` to `t`, takes the FIFO of capacity `cap` from `x` to `y` and returns `e`. Losses that are news
   * are reported, or nothing happens; then, of what has come in up to `head`, the longest chunk is written and the
   * tail advanced, or the FIFO lacks the room.
   */
  ghost predicate Polled(s: State, t: State, x: seq<byte>, y: seq<byte>, cap: nat, head: nat, n: nat, e: nat) {
    if ReportBlocked(s, x, cap) then
      e == 0 && t.c.out == s.c.out && y == x && t.c.tail == s.c.tail && t.c.reported == s.c.reported
    else
      && |s.p.bytes| <= head <= |t.p.bytes| && t.c.reported == s.p.dropped
      && var out, z := OutReported(s), FifoReported(s, x);
         if head == s.c.tail then e == 0 && t.c.out == out && y == z && t.c.tail == s.c.tail
         else LongestChunk(t.p, s.c.tail, head, n) && ChunkPolled(out, t, z, y, cap, s.c.tail, n, e)
  }

  lemma {:induction false} BlockedPoll(s: State, t: State, x: seq<byte>, cap: nat)
    requires ReportBlocked(s, x, cap) && t.c.out == s.c.out && t.c.tail == s.c.tail
    requires s.c.reported == LastStatus(s.c.out) && t.c.reported == LastStatus(t.c.out)
    ensures Polled(s, t, x, x, cap, 0, 0, 0)
  {
    hide LastStatus, Frame.Wire;
  }

  /** The two halves of a poll make a poll. */
  lemma {:induction false} PollInParts(s: State, mid: State, t: State, x: seq<byte>, y: seq<byte>, cap: nat, n: nat,
                                       e: nat)
    requires !ReportBlocked(s, x, cap) && mid.c.out == OutReported(s) && mid.c.tail == s.c.tail
    requires DataPolled(mid, t, FifoReported(s, x), y, cap, n, e)
    requires Grows(s.p, mid.p) && Grows(mid.p, t.p)
    requires s.c.reported == LastStatus(s.c.out) && t.c.reported == LastStatus(t.c.out)
    ensures Polled(s, t, x, y, cap, |mid.p.bytes|, n, e)
  {
    hide LastStatus, Frame.Wire, HasMark, NextNo, StampAt, ReportBlocked;
    AppendFrame(s.c.out, ReportOf(s));
    if |mid.p.bytes| != s.c.tail { AppendFrame(OutReported(s), DataOf(OutReported(s), t.p, s.c.tail, n)); }
    assert s.c.out + [] == s.c.out;
  }

  lemma {:induction false} ChunkFits(out: seq<Frame>, p: Producer, tail: nat, head: nat, n: nat)
    requires LongestChunk(p, tail, head, n)
    ensures var f := DataOf(out, p, tail, n); f.Fits() && |f.Wire()| <= 80
  {
    DataFrameLength(DataOf(out, p, tail, n));
    hide HasMark;
  }

  lemma {:induction false} ReportFits(s: State)
    ensures |ReportOf(s).Wire()| <= 16
  {
    EncodedLength(STATUS_TYPE, NextNo(s.c.out), LE32(s.p.dropped));
    hide Encode, LE32;
  }

  /**
   * What a caller can count on. With a report and a data frame's worth of room a poll that finds unread bytes writes
   * some of them, from the tail on, in a last frame of its own, and returns that frame's length; with room for the
   * report losses that are news get reported; and a poll returns 0 only if there was nothing unread or no room. It
   * writes two frames at most, and two if and only if it writes data and the losses were news.
   */
  lemma {:induction false} PollDelivers(s: State, t: State, x: seq<byte>, y: seq<byte>, cap: nat, head: nat, n: nat,
                                        e: nat)
    requires Inv(s) && Inv(t) && Polled(s, t, x, y, cap, head, n, e)
    ensures |s.p.bytes| > s.c.tail && |x| + 96 <= cap - 1 ==>
              && e != 0 && 1 <= n <= 32 && t.c.tail == s.c.tail + n <= |t.p.bytes| && t.c.out != []
              && var f := t.c.out[|t.c.out| - 1];
                 f.Data? && f.data == t.p.bytes[s.c.tail..t.c.tail] && f.Fits() && e == |f.Wire()|
    ensures s.p.dropped != s.c.reported && |x| + 16 <= cap - 1 ==> LastStatus(t.c.out) == s.p.dropped
    ensures e == 0 ==> |s.p.bytes| == s.c.tail || |x| + 96 > cap - 1
    ensures e == 0 <==> t.c.tail == s.c.tail
    ensures s.c.out <= t.c.out && |t.c.out| <= |s.c.out| + 2
    ensures |t.c.out| == |s.c.out| + 2 <==> e != 0 && s.p.dropped != s.c.reported
  {
    Occupancy(s);
    ReportFits(s);
    ReportedIsLast(t);
    hide Inv, LastStatus, Frame.Wire, HasMark, NextNo, StampAt;
    if !ReportBlocked(s, x, cap) && head != s.c.tail {
      ChunkFits(OutReported(s), t.p, s.c.tail, head, n);
      hide LongestChunk;
      assert |FifoReported(s, x)| <= |x| + 16;
      assert 1 <= n <= 32;
    }
  }

  lemma {:induction false} ProducerRunKeepsConsumer(s: State, evs: seq<Event>)
    requires ProducerOnly(evs)
    ensures Run(s, evs).c == s.c && Grows(s.p, Run(s, evs).p)
    decreases |evs|
  {
    RunGrows(s, evs);
    hide Grows;
    if evs != [] {
      var n := |evs| - 1;
      assert evs[n] in evs;
      ProducerRunKeepsConsumer(s, evs[..n]);
    }
  }

  lemma {:induction false} EncodeNonempty(kind: byte, no: byte, arg: seq<byte>)
    requires |arg| < 256
    ensures Encode(kind, no, arg) != []
  {
  }

  lemma {:induction false} EmptyRun(s: State)
    ensures Run(s, []) == s
  {
  }

  /** 1 if the first pending mark is at the tail; the mark loop makes at most one more round then. */
  function MarkAtTail(s: State): nat {
    if s.c.mtail < |s.p.marks| && s.p.marks[s.c.mtail].pos <= s.c.tail then 1 else 0
  }

  lemma {:induction false} NoMarkAtTail(s: State)
    requires Inv(s) && 0 < s.c.mtail && s.p.marks[s.c.mtail - 1].pos == s.c.tail
    ensures MarkAtTail(s) == 0
  {
  }

  lemma {:induction false} StatusWire(no: byte, dropped: u32)
    ensures Status(no, dropped).Fits() && Status(no, dropped).Wire() == Encode(STATUS_TYPE, no, LE32(dropped))
  {
    hide Encode, LE32;
  }

  lemma {:induction false} DataWire(no: byte, ts: u32, data: seq<byte>)
    requires |data| <= MAX_CHUNK
    ensures Data(no, ts, data).Fits() && Data(no, ts, data).Wire() == Encode(DATA_TYPE, no, LE32(ts) + data)
  {
    hide Encode, LE32;
  }

  lemma {:induction false} WireAllPush(out: seq<Frame>, f: Frame)
    requires AllFit(out) && f.Fits()
    ensures AllFit(out + [f]) && WireAll(out + [f]) == WireAll(out) + f.Wire()
  {
    WireAllAppend(out, [f]);
    WireAllOne(f);
  }

  /** What an offer changes on the consumer's side, once it is answered. */
  lemma {:induction false} OfferStep(s: State, f: Frame, ok: bool)
    requires Offered(s.c) == Offer(f)
    ensures var t := Step(s, Tick(ok));
            && t.p == s.p && t.c.tail == s.c.tail && t.c.mtail == s.c.mtail && t.c.curTs == s.c.curTs
            && t.c.out == (if ok then s.c.out + [f] else s.c.out)
            && t.c.seqNo == (if ok then (s.c.seqNo + 1) % 256 else s.c.seqNo)
            && t.c.reported == (if ok && s.c.pc.Report? then s.c.pc.snap else s.c.reported)
  {
    hide Low8;
  }

  lemma {:induction false} ReportOffers(c: Consumer)
    requires c.pc.Report?
    ensures Offered(c) == Offer(Status(Low8(c.seqNo), c.pc.snap))
  {
  }

  lemma {:induction false} CopyOffers(c: Consumer)
    requires c.pc.Copy? && |c.pc.got| == c.pc.n
    ensures Offered(c) == Offer(Data(Low8(c.seqNo), c.curTs, c.pc.got))
  {
  }

  lemma {:induction false} ChunkSize(s: State)
    requires Inv(s) && s.c.pc.Copy?
    ensures 1 <= s.c.pc.n <= MAX_CHUNK && |s.c.pc.got| <= s.c.pc.n
  {
    hide PayloadInv, OutInv, GapsMarked;
  }

  lemma {:induction false} RunFirst(s: State, e: Event, evs: seq<Event>)
    ensures Run(s, [e] + evs) == Run(Step(s, e), evs)
  {
    hide Step;
    assert [e][..0] == [];
    assert Run(s, [e]) == Step(Run(s, [e][..0]), e);
    RunAppend(s, [e], evs);
  }

  lemma {:induction false} NumberIs(s: State)
    requires Inv(s)
    ensures Low8(s.c.seqNo) == NextNo(s.c.out)
  {
    NextNumber(|s.c.out|);
    hide Low8, ByteOf, PayloadInv, GapsMarked, PcInv, RingInv;
  }

  /** The bytes gathered are the longest chunk there is, and the stamp in effect is theirs. */
  lemma {:induction false} ChunkGathered(s: State, head: nat, n: nat, got: seq<byte>)
    requires Inv(s) && s.c.pc == Copy(n, got) && |got| == n && s.c.tail + n <= head <= |s.p.bytes|
    requires n == 32 || s.c.tail + n == head || HasMark(s.p.marks, s.c.tail + n)
    ensures LongestChunk(s.p, s.c.tail, head, n)
    ensures got == s.p.bytes[s.c.tail..s.c.tail + n] && StampAt(s.p.marks, s.c.tail) == s.c.curTs
  {
    hide PayloadInv, OutInv, GapsMarked, ProducerInv, HasMark, StampAt;
    StampOfChunk(s, s.c.tail + n, s.c.tail);
    forall j | 0 <= j < |s.p.marks|
      ensures !(s.c.tail < s.p.marks[j].pos < s.c.tail + n)
    {
      if j >= s.c.mtail {
        assert s.p.marks[s.c.mtail].pos <= s.p.marks[j].pos;
      } else {
        assert s.p.marks[j].pos <= s.p.marks[s.c.mtail - 1].pos;
      }
    }
  }

  /** What comes in later does not change a chunk, nor its stamp. */
  lemma {:induction false} ChunkStays(p: Producer, q: Producer, tail: nat, head: nat, n: nat)
    requires Grows(p, q) && LongestChunk(p, tail, head, n)
    ensures LongestChunk(q, tail, head, n) && StampAt(q.marks, tail) == StampAt(p.marks, tail)
    ensures q.bytes[tail..tail + n] == p.bytes[tail..tail + n]
  {
    StampStays(p.marks, q.marks, tail);
    hide StampAt;
    if HasMark(p.marks, tail + n) {
      var j :| 0 <= j < |p.marks| && p.marks[j].pos == tail + n;
      assert q.marks[j].pos == tail + n;
    }
    forall j | 0 <= j < |q.marks|
      ensures !(tail < q.marks[j].pos < tail + n)
    {
      if j < |p.marks| { assert q.marks[j] == p.marks[j]; }
    }
  }

  lemma {:induction false} StampStays(marks: seq<Mark>, more: seq<Mark>, i: nat)
    requires marks <= more && forall j :: |marks| <= j < |more| ==> more[j].pos > i
    ensures StampAt(more, i) == StampAt(marks, i)
    decreases |more|
  {
    if |more| == |marks| {
      assert more == marks;
    } else {
      assert more[|more| - 1].pos > i;
      StampStays(marks, more[..|more| - 1], i);
    }
  }

  lemma {:induction false} MarkStays(p: Producer, q: Producer, i: nat)
    requires Grows(p, q) && HasMark(p.marks, i)
    ensures HasMark(q.marks, i)
  {
    var j :| 0 <= j < |p.marks| && p.marks[j].pos == i;
    assert q.marks[j].pos == i;
  }

  /** The drop counter as last reported is the value of the last STATUS frame. */
  lemma {:induction false} ReportedIsLast(s: State)
    requires Inv(s)
    ensures s.c.reported == LastStatus(s.c.out)
  {
    hide LastStatus, PayloadInv, GapsMarked, PcInv, RingInv, ProducerInv, MarksOrdered, FrameInv;
  }

  lemma {:induction false} PendingMark(s: State)
    requires Inv(s) && (s.c.pc.AdoptPos? || s.c.pc.AdoptTs? || s.c.pc.CutPos?)
    ensures s.c.mtail < |s.p.marks| && s.c.tail <= s.p.marks[s.c.mtail].pos < s.c.tail + RING
  {
    hide PayloadInv, OutInv, GapsMarked;
  }

  lemma {:induction false} UnreadByte(s: State)
    requires Inv(s) && s.c.pc.Copy? && |s.c.pc.got| < s.c.pc.n
    ensures s.c.tail + |s.c.pc.got| < |s.p.bytes|
  {
  }

  class Relay {
    const data: array<byte>
    const markPos: array<u32>
    const markTs: array<u32>
    var head: u32
    var tail: u32
    var mhead: u32
    var mtail: u32
    var lastTs: u32
    var haveLast: bool
    var dropped: u32
    var curTs: u32
    var reported: u32
    var seqNo: nat
    const tx: ByteFifo      // the FIFO behind the sink, of any capacity
    ghost var wire: seq<byte>   // everything the sink has accepted
    ghost var m: State

    ghost predicate Slots()
      requires data.Length == RING && markPos.Length == MARKS == markTs.Length
      reads this, data, markPos, markTs
    {
      DataHeld(data[..], m.p.bytes, m.c.tail) && MarksHeld(markPos[..], markTs[..], m.p.marks, m.c.mtail)
    }

    ghost predicate Indices()
      reads this
    {
      && head == Wrap(|m.p.bytes|) && tail == Wrap(m.c.tail)
      && mhead == Wrap(|m.p.marks|) && mtail == Wrap(m.c.mtail)
    }

    ghost predicate Statics()
      reads this
    {
      && lastTs == m.p.lastTs && haveLast == m.p.haveLast && dropped == m.p.dropped
      && curTs == m.c.curTs && reported == m.c.reported && seqNo == m.c.seqNo
      && AllFit(m.c.out) && wire == WireAll(m.c.out)
    }

    ghost predicate Valid()
      reads this, data, markPos, markTs, tx
    {
      && tx.Valid() && tx.buf != data && tx.buf as object != markPos && tx.buf as object != markTs
      && data.Length == RING && markPos.Length == MARKS == markTs.Length
      && markPos != markTs && data as object != markPos && data as object != markTs
      && Inv(m) && Indices() && Slots() && Statics()
    }

    lemma {:induction false} SinkIsValid()
      requires Valid()
      ensures tx.Valid()
    {
      hide Inv, Slots, Indices, Statics;
    }

    /** What happens to the sink alone does not concern the relay. */
    twostate lemma {:induction false} SinkMoved()
      requires old(Valid()) && tx.Valid() && unchanged(this, data, markPos, markTs)
      ensures Valid()
    {
      hide Inv, Slots, Indices, Statics, ByteFifo.Valid;
    }

    /** A step of the consumer that frees no slot leaves the rings as they were. */
    twostate lemma {:induction false} RingsKept()
      requires data.Length == RING && markPos.Length == MARKS == markTs.Length
      requires data[..] == old(data[..]) && markPos[..] == old(markPos[..]) && markTs[..] == old(markTs[..])
      requires m.p == old(m.p) && m.c.tail == old(m.c.tail) && m.c.mtail == old(m.c.mtail)
      requires head == old(head) && tail == old(tail) && mhead == old(mhead) && mtail == old(mtail)
      requires old(Slots()) && old(Indices())
      ensures Slots() && Indices()
    {
      hide Wrap, DataHeld, MarksHeld;
    }

    constructor (tx: ByteFifo)
      requires tx.Valid()
      ensures Valid() && m == INIT && this.tx == tx && fresh(data) && fresh(markPos) && fresh(markTs)
    {
      this.tx := tx;
      data, markPos, markTs := new byte[RING], new u32[MARKS], new u32[MARKS];
      head, tail, mhead, mtail := 0, 0, 0, 0;
      lastTs, haveLast, dropped, curTs, reported, seqNo := 0, false, 0, 0, 0, 0;
      wire, m := [], INIT;
      new;
      InitInv();
    }

    // ---- Producer ----

    method TargetRx(b: byte, ts: u32)
      requires Valid()
      modifies this`head, this`mhead, this`lastTs, this`haveLast, this`dropped, this`m, data, markPos, markTs
      ensures Valid() && m == Step(old(m), Rx(b, ts))
    {
      hide Wrap, Inv, WireAll, DataHeld, MarksHeld, AllFit, Receive, Step, ByteFifo.Valid;
      ghost var p, c := m.p, m.c;
      ghost var q := Receive(p, c.tail, c.mtail, b, ts);
      StepKeepsInv(m, Rx(b, ts));
      Occupancy(m);
      WrappedDifference(|p.bytes|, c.tail);
      RxStep(m, b, ts);
      ReceiveCases(p, c.tail, c.mtail, b, ts);
      m := Step(m, Rx(b, ts));
      if Wrap(head as int - tail as int) >= RING {
        dropped := Wrap(dropped + 1);
        return;
      }
      MarkBurst(b, ts, p, c.tail, c.mtail);
      lastTs := ts;
      haveLast := true;
      StoreByte(b, p.bytes, c.tail);
      assert m.c == c && m.p == q;
    }

    /** Records a mark when the byte starts a burst. */
    method MarkBurst(b: byte, ts: u32, ghost p: Producer, ghost t: nat, ghost mt: nat)
      requires markPos.Length == MARKS == markTs.Length && markPos != markTs
      requires MarksHeld(markPos[..], markTs[..], p.marks, mt) && mt <= |p.marks| <= mt + MARKS
      requires mhead == Wrap(|p.marks|) && mtail == Wrap(mt) && head == Wrap(|p.bytes|) && |p.bytes| - t < RING
      requires lastTs == p.lastTs && haveLast == p.haveLast && dropped == p.dropped
      modifies this`mhead, this`dropped, markPos, markTs
      ensures var q := Receive(p, t, mt, b, ts);
              dropped == q.dropped && mhead == Wrap(|q.marks|) && MarksHeld(markPos[..], markTs[..], q.marks, mt)
    {
      hide Wrap, MarksHeld, Receive;
      ReceiveCases(p, t, mt, b, ts);
      if !haveLast || Wrap(ts as int - lastTs as int) > GAP_US {
        RecordMark(ts, p.marks, mt, |p.bytes|);
      }
    }

    /** The data part of the receive entry point. */
    method StoreByte(b: byte, ghost bytes: seq<byte>, ghost t: nat)
      requires data.Length == RING && DataHeld(data[..], bytes, t) && t <= |bytes| < t + RING
      requires head == Wrap(|bytes|)
      modifies this`head, data
      ensures DataHeld(data[..], bytes + [b], t) && head == Wrap(|bytes| + 1)
    {
      PushData(data[..], bytes, t, b);
      WrappedSlot(|bytes|);
      WrappedSuccessor(|bytes|, 1);
      hide Wrap;
      data[head % RING] := b;
      head := Wrap(head + 1);
    }

    /** The mark part of the receive entry point. */
    method RecordMark(ts: u32, ghost marks: seq<Mark>, ghost mt: nat, ghost pos: nat)
      requires markPos.Length == MARKS == markTs.Length && markPos != markTs
      requires MarksHeld(markPos[..], markTs[..], marks, mt) && mt <= |marks| <= mt + MARKS
      requires mhead == Wrap(|marks|) && mtail == Wrap(mt) && head == Wrap(pos)
      modifies this`mhead, this`dropped, markPos, markTs
      ensures |marks| - mt < MARKS ==>
                && mhead == Wrap(|marks| + 1) && dropped == old(dropped)
                && MarksHeld(markPos[..], markTs[..], marks + [Mark(pos, ts)], mt)
      ensures |marks| - mt >= MARKS ==>
                && mhead == old(mhead) && dropped == Wrap(old(dropped) + 1)
                && MarksHeld(markPos[..], markTs[..], marks, mt)
    {
      WrappedDifference(|marks|, mt);
      hide Wrap;
      if Wrap(mhead as int - mtail as int) < MARKS {
        PushMark(markPos[..], markTs[..], marks, mt, Mark(pos, ts));
        WrappedSlot(|marks|);
        markPos[mhead % MARKS] := head;
        markTs[mhead % MARKS] := ts;
        WrappedSuccessor(|marks|, 1);
        mhead := Wrap(mhead + 1);
      } else {
        dropped := Wrap(dropped + 1);
      }
    }

    method NoteDropped(k: u32)
      requires Valid()
      modifies this`dropped, this`m
      ensures Valid() && m == Step(old(m), Note(k))
    {
      hide Wrap, Inv, WireAll, DataHeld, MarksHeld, AllFit;
      StepKeepsInv(m, Note(k));
      m := Step(m, Note(k));
      dropped := Wrap(dropped + k);
    }

    /** The interrupt fires any number of times. */
    method Interfere() returns (ghost evs: seq<Event>)
      requires Valid()
      modifies this`head, this`mhead, this`lastTs, this`haveLast, this`dropped, this`m, data, markPos, markTs
      ensures Valid() && ProducerOnly(evs) && m == Run(old(m), evs) && tx.Contents() == old(tx.Contents())
    {
      assert tx.buf != data;
      hide Inv, Valid, Step, ByteFifo.Contents;
      evs := [];
      var k: nat := *;
      while k > 0
        invariant Valid() && ProducerOnly(evs) && m == Run(old(m), evs)
      {
        var receives: bool := *;
        ghost var e: Event;
        if receives {
          var b: byte := *;
          var ts: u32 := *;
          e := Rx(b, ts);
          TargetRx(b, ts);
        } else {
          var lost: u32 := *;
          e := Note(lost);
          NoteDropped(lost);
        }
        assert (evs + [e])[..|evs|] == evs;
        evs := evs + [e];
        k := k - 1;
      }
    }

    // ---- Consumer, one shared access at a time ----

    /** Between a consumer step from `before` and the next one, the interrupt may fire. */
    method LetInterruptIn(ghost before: State, ghost ok: bool) returns (ghost evs: seq<Event>)
      requires Valid() && m == Step(before, Tick(ok))
      modifies this`head, this`mhead, this`lastTs, this`haveLast, this`dropped, this`m, data, markPos, markTs
      ensures Valid() && m == Run(before, evs) && OneStep(evs, ok)
      ensures tx.Contents() == old(tx.Contents())
      ensures m.c == Advance(before.c, before.p, ok) && Grows(before.p, m.p)
    {
      hide Inv, Slots, Indices, Statics, Run, Advance, ByteFifo.Contents;
      ghost var mid := m;
      evs := Interfere();
      ProducerRunKeepsConsumer(mid, evs);
      RunFirst(before, Tick(ok), evs);
      assert ([Tick(ok)] + evs)[1..] == evs;
      evs := [Tick(ok)] + evs;
    }

    /** The same after a step that offered frame `f` to the FIFO, which held `queued`. */
    method Answered(ghost before: State, ghost f: Frame, ghost ok: bool, ghost queued: seq<byte>)
        returns (ghost evs: seq<Event>)
      requires Valid() && m == Step(before, Tick(ok)) && Offered(before.c) == Offer(f) && f.Fits()
      requires ok <==> |f.Wire()| <= tx.buf.Length - 1 - |queued|
      requires tx.Contents() == queued + if ok then f.Wire() else []
      modifies this`head, this`mhead, this`lastTs, this`haveLast, this`dropped, this`m, data, markPos, markTs
      ensures Valid() && m == Run(before, evs)
      ensures Told(before, evs, queued, tx.Contents(), tx.buf.Length) && tx.Contents() == old(tx.Contents())
      ensures m.c == Advance(before.c, before.p, ok) && Grows(before.p, m.p)
    {
      hide Inv, Slots, Indices, Statics, Run, Advance, Step, Told, Frame.Wire, ByteFifo.Contents;
      evs := LetInterruptIn(before, ok);
      OfferTold(before, evs, ok, queued, tx.Contents(), tx.buf.Length);
    }

    /** The consumer is about to make a step that only reads. */
    ghost predicate Reads()
      reads this
    {
      match m.c.pc
      case Idle => true
      case ReadHead => true
      case Adopt(_) => true
      case AdoptPos(_) => true
      case Cut(_) => true
      case CutPos(_) => true
      case Copy(n, got) => |got| < n
      case _ => false
    }

    /** A consumer step that only reads, and whatever the interrupt does next. */
    method Observed() returns (ghost evs: seq<Event>)
      requires Valid() && Reads()
      modifies this`head, this`mhead, this`lastTs, this`haveLast, this`dropped, this`m, data, markPos, markTs
      ensures Valid() && m.c == Advance(old(m.c), old(m.p), true) && Grows(old(m.p), m.p)
      ensures m == Run(old(m), evs)
      ensures tx.Contents() == old(tx.Contents())
      ensures Told(old(m), evs, old(tx.Contents()), tx.Contents(), tx.buf.Length)
    {
      hide Wrap, Inv, WireAll, DataHeld, MarksHeld, AllFit, Told, ByteFifo.Contents;
      StepKeepsInv(m, Tick(true));
      ghost var before := m;
      m := Step(m, Tick(true));
      evs := LetInterruptIn(before, true);
      ReadTold(before, evs, true, tx.Contents(), tx.buf.Length);
    }

    method LoadDropped() returns (v: u32, ghost evs: seq<Event>)
      requires Valid() && m.c.pc.Idle?
      modifies this`head, this`mhead, this`lastTs, this`haveLast, this`dropped, this`m, data, markPos, markTs
      ensures Valid() && m.c == Advance(old(m.c), old(m.p), true) && Grows(old(m.p), m.p)
      ensures m == Run(old(m), evs) && v == old(m.p.dropped)
      ensures tx.Contents() == old(tx.Contents())
      ensures Told(old(m), evs, old(tx.Contents()), tx.Contents(), tx.buf.Length)
    {
      hide Inv, Told, ByteFifo.Contents;
      v := dropped;
      evs := Observed();
    }

    method LoadHead() returns (v: u32, ghost evs: seq<Event>)
      requires Valid() && m.c.pc.ReadHead?
      modifies this`head, this`mhead, this`lastTs, this`haveLast, this`dropped, this`m, data, markPos, markTs
      ensures Valid() && m.c == Advance(old(m.c), old(m.p), true) && Grows(old(m.p), m.p)
      ensures m == Run(old(m), evs) && v == Wrap(|old(m.p.bytes)|)
      ensures tx.Contents() == old(tx.Contents())
      ensures Told(old(m), evs, old(tx.Contents()), tx.Contents(), tx.buf.Length)
    {
      hide Inv, Told, ByteFifo.Contents;
      v := head;
      evs := Observed();
    }

    method LoadMhead() returns (v: u32, ghost evs: seq<Event>)
      requires Valid() && (m.c.pc.Adopt? || m.c.pc.Cut?)
      modifies this`head, this`mhead, this`lastTs, this`haveLast, this`dropped, this`m, data, markPos, markTs
      ensures Valid() && m.c == Advance(old(m.c), old(m.p), true) && Grows(old(m.p), m.p)
      ensures m == Run(old(m), evs) && (v == mtail <==> |old(m.p.marks)| == old(m.c.mtail))
      ensures tx.Contents() == old(tx.Contents())
      ensures Told(old(m), evs, old(tx.Contents()), tx.Contents(), tx.buf.Length)
    {
      hide Inv, MarksHeld, DataHeld, WireAll, AllFit, Wrap, Told, ByteFifo.Contents;
      Occupancy(m);
      WrappedEqual(|m.p.marks|, m.c.mtail);
      v := mhead;
      evs := Observed();
    }

    method LoadMarkPos() returns (v: u32, ghost evs: seq<Event>)
      requires Valid() && (m.c.pc.AdoptPos? || m.c.pc.CutPos?)
      modifies this`head, this`mhead, this`lastTs, this`haveLast, this`dropped, this`m, data, markPos, markTs
      ensures Valid() && m.c == Advance(old(m.c), old(m.p), true) && Grows(old(m.p), m.p)
      ensures m == Run(old(m), evs)
      ensures tx.Contents() == old(tx.Contents())
      ensures Told(old(m), evs, old(tx.Contents()), tx.Contents(), tx.buf.Length)
      ensures old(m.c.mtail) < |old(m.p.marks)| && v == Wrap(old(m.p.marks[m.c.mtail].pos))
    {
      hide Inv, MarksHeld, DataHeld, WireAll, AllFit, Told, ByteFifo.Contents;
      PendingMark(m);
      WrappedSlot(m.c.mtail);
      ReadMark(markPos[..], markTs[..], m.p.marks, m.c.mtail);
      hide Wrap;
      v := markPos[mtail % MARKS];
      evs := Observed();
    }

    /** Reads the stamp of the first pending mark into the stamp in effect. */
    method LoadMarkTs() returns (ghost evs: seq<Event>)
      requires Valid() && m.c.pc.AdoptTs?
      modifies this`head, this`mhead, this`lastTs, this`haveLast, this`dropped, this`m, data, markPos, markTs
      modifies this`curTs
      ensures Valid() && m.c == Advance(old(m.c), old(m.p), true) && Grows(old(m.p), m.p)
      ensures m == Run(old(m), evs)
      ensures tx.Contents() == old(tx.Contents())
      ensures Told(old(m), evs, old(tx.Contents()), tx.Contents(), tx.buf.Length)
    {
      hide Inv, MarksHeld, DataHeld, WireAll, AllFit, Told, ByteFifo.Contents;
      PendingMark(m);
      WrappedSlot(m.c.mtail);
      ReadMark(markPos[..], markTs[..], m.p.marks, m.c.mtail);
      hide Wrap;
      StepKeepsInv(m, Tick(true));
      ghost var before := m;
      curTs := markTs[mtail % MARKS];
      m := Step(m, Tick(true));
      evs := LetInterruptIn(before, true);
      ReadTold(before, evs, true, tx.Contents(), tx.buf.Length);
    }

    method FreeMark() returns (ghost evs: seq<Event>)
      requires Valid() && m.c.pc.AdoptFree?
      modifies this`head, this`mhead, this`lastTs, this`haveLast, this`dropped, this`m, data, markPos, markTs
      modifies this`mtail
      ensures Valid() && m.c == Advance(old(m.c), old(m.p), true) && Grows(old(m.p), m.p)
      ensures m == Run(old(m), evs)
      ensures tx.Contents() == old(tx.Contents())
      ensures Told(old(m), evs, old(tx.Contents()), tx.Contents(), tx.buf.Length)
    {
      hide Inv, MarksHeld, DataHeld, WireAll, AllFit, Told, ByteFifo.Contents;
      WrappedSuccessor(m.c.mtail, 1);
      DropMark(markPos[..], markTs[..], m.p.marks, m.c.mtail);
      hide Wrap;
      StepKeepsInv(m, Tick(true));
      ghost var before := m;
      mtail := Wrap(mtail + 1);
      m := Step(m, Tick(true));
      evs := LetInterruptIn(before, true);
      ReadTold(before, evs, true, tx.Contents(), tx.buf.Length);
    }

    method LoadByte(i: nat) returns (v: byte, ghost evs: seq<Event>)
      requires Valid() && m.c.pc.Copy? && i == |m.c.pc.got| < m.c.pc.n
      modifies this`head, this`mhead, this`lastTs, this`haveLast, this`dropped, this`m, data, markPos, markTs
      ensures Valid() && m.c == Advance(old(m.c), old(m.p), true) && Grows(old(m.p), m.p)
      ensures m == Run(old(m), evs) && v == ByteAt(old(m.p), old(m.c.tail) + i)
      ensures tx.Contents() == old(tx.Contents())
      ensures Told(old(m), evs, old(tx.Contents()), tx.Contents(), tx.buf.Length)
    {
      hide Inv, MarksHeld, DataHeld, WireAll, AllFit, Wrap, Told, ByteFifo.Contents;
      UnreadByte(m);
      WrappedSuccessor(m.c.tail, i);
      WrappedSlot(m.c.tail + i);
      ReadData(data[..], m.p.bytes, m.c.tail, m.c.tail + i);
      v := data[Wrap(tail + i) % RING];
      evs := Observed();
    }

    method AdvanceTail(n: nat) returns (ghost evs: seq<Event>)
      requires Valid() && m.c.pc == Release(n)
      modifies this`head, this`mhead, this`lastTs, this`haveLast, this`dropped, this`m, data, markPos, markTs, this`tail
      ensures Valid() && m.c == Advance(old(m.c), old(m.p), true) && Grows(old(m.p), m.p)
      ensures m == Run(old(m), evs)
      ensures tx.Contents() == old(tx.Contents())
      ensures Told(old(m), evs, old(tx.Contents()), tx.Contents(), tx.buf.Length)
    {
      hide Inv, MarksHeld, DataHeld, WireAll, AllFit, Told, ByteFifo.Contents;
      WrappedSuccessor(m.c.tail, n);
      DropData(data[..], m.p.bytes, m.c.tail, n);
      hide Wrap;
      StepKeepsInv(m, Tick(true));
      ghost var before := m;
      tail := Wrap(tail + n);
      m := Step(m, Tick(true));
      evs := LetInterruptIn(before, true);
      ReadTold(before, evs, true, tx.Contents(), tx.buf.Length);
    }

    // ---- Writing frames ----

    /** The sink: a FIFO of any capacity and any fill, which takes the whole buffer or nothing. */
    method PcWrite(buf: seq<byte>) returns (n: nat)
      requires tx.Valid()
      modifies tx, tx.buf, this`wire
      ensures tx.Valid()
      ensures n == if |buf| <= tx.buf.Length - 1 - |old(tx.Contents())| then |buf| else 0
      ensures var taken := if |buf| <= tx.buf.Length - 1 - |old(tx.Contents())| then buf else [];
              tx.Contents() == old(tx.Contents()) + taken && wire == old(wire) + taken
    {
      var ok := tx.PushAll(buf);
      n := if ok then |buf| else 0;
      wire := wire + if ok then buf else [];
    }

    /** Encodes one frame and offers it to the sink; the number advances when it is taken. */
    method Emit(kind: byte, arg: seq<byte>) returns (e: nat)
      requires tx.Valid() && |arg| <= 4 + MAX_CHUNK
      modifies tx, tx.buf, this`wire, this`seqNo
      ensures tx.Valid()
      ensures var enc := Encode(kind, Low8(old(seqNo)), arg);
              if |enc| <= tx.buf.Length - 1 - |old(tx.Contents())|
              then e == |enc| && e != 0 && wire == old(wire) + enc && seqNo == (old(seqNo) + 1) % 256
                   && tx.Contents() == old(tx.Contents()) + enc
              else e == 0 && wire == old(wire) && seqNo == old(seqNo) && tx.Contents() == old(tx.Contents())
    {
      hide Encode, Low8, ByteFifo.Contents;
      var enc, len := BuildFrame(kind, Low8(seqNo), arg);
      EncodeNonempty(kind, Low8(seqNo), arg);
      var taken := PcWrite(enc[..len]);
      if taken != len {
        return 0;
      }
      seqNo := (seqNo + 1) % 256;
      e := len;
    }

    /** The STATUS half of a poll. */
    method EmitStatus(snap: u32) returns (e: nat, ghost evs: seq<Event>)
      requires Valid() && m.c.pc == Report(snap)
      modifies this`head, this`mhead, this`lastTs, this`haveLast, this`dropped, this`m, data, markPos, markTs
      modifies tx, tx.buf
      modifies this`wire, this`seqNo, this`reported
      ensures Valid() && m.c == Advance(old(m.c), old(m.p), e != 0) && Grows(old(m.p), m.p)
      ensures m == Run(old(m), evs)
      ensures Told(old(m), evs, old(tx.Contents()), tx.Contents(), tx.buf.Length)
      ensures var f, x := Status(Low8(old(m.c.seqNo)), snap), old(tx.Contents());
              && (e != 0 <==> |f.Wire()| <= tx.buf.Length - 1 - |x|)
              && tx.Contents() == x + if e != 0 then f.Wire() else []
    {
      hide Inv, MarksHeld, DataHeld, Low8, WireAll, AllFit, LE32, Encode, Frame.Wire, Wrap, Told, ByteFifo.Contents;
      hide Step, Advance, Offered, ByteFifo.Valid, Grows, Slots, Indices;
      ghost var queued := tx.Contents();
      ghost var before, f := m, Status(Low8(m.c.seqNo), snap);
      ReportOffers(m.c);
      StatusWire(Low8(m.c.seqNo), snap);
      WireAllPush(before.c.out, f);
      e := Emit(STATUS_TYPE, LE32(snap));
      if e != 0 {
        reported := snap;
      }
      OfferStep(m, f, e != 0);
      StepKeepsInv(m, Tick(e != 0));
      m := Step(m, Tick(e != 0));
      RingsKept();
      evs := Answered(before, f, e != 0, queued);
    }

    /** The data half of a poll, once the bytes are gathered. */
    method EmitData(n: nat, got: seq<byte>) returns (e: nat, ghost evs: seq<Event>)
      requires Valid() && m.c.pc == Copy(n, got) && |got| == n
      modifies this`head, this`mhead, this`lastTs, this`haveLast, this`dropped, this`m, data, markPos, markTs
      modifies tx, tx.buf
      modifies this`wire, this`seqNo
      ensures Valid() && m.c == Advance(old(m.c), old(m.p), e != 0) && Grows(old(m.p), m.p)
      ensures m == Run(old(m), evs)
      ensures Told(old(m), evs, old(tx.Contents()), tx.Contents(), tx.buf.Length)
      ensures n <= MAX_CHUNK
      ensures var f, x := Data(Low8(old(m.c.seqNo)), old(m.c.curTs), got), old(tx.Contents());
              && e == (if |f.Wire()| <= tx.buf.Length - 1 - |x| then |f.Wire()| else 0)
              && (e != 0 <==> |f.Wire()| <= tx.buf.Length - 1 - |x|)
              && tx.Contents() == x + if e != 0 then f.Wire() else []
    {
      hide Inv, MarksHeld, DataHeld, Low8, WireAll, AllFit, LE32, Encode, Frame.Wire, Wrap, Told, ByteFifo.Contents;
      hide Step, Advance, Offered, ByteFifo.Valid, Grows, Slots, Indices;
      ChunkSize(m);
      ghost var queued := tx.Contents();
      ghost var before, f := m, Data(Low8(m.c.seqNo), m.c.curTs, got);
      CopyOffers(m.c);
      DataWire(Low8(m.c.seqNo), m.c.curTs, got);
      WireAllPush(before.c.out, f);
      e := Emit(DATA_TYPE, LE32(curTs) + got);
      OfferStep(m, f, e != 0);
      StepKeepsInv(m, Tick(e != 0));
      m := Step(m, Tick(e != 0));
      RingsKept();
      evs := Answered(before, f, e != 0, queued);
    }

    // ---- The poll ----

    /** Adopts the stamp of the first pending mark and frees its slot. */
    method AdoptMark() returns (ghost evs: seq<Event>)
      requires Valid() && m.c.pc.AdoptTs?
      modifies this`head, this`mhead, this`lastTs, this`haveLast, this`dropped, this`m, data, markPos, markTs
      modifies this`curTs, this`mtail
      ensures Valid() && m == Run(old(m), evs) && Grows(old(m.p), m.p)
      ensures m.c == old(m.c).(curTs := m.c.curTs, mtail := old(m.c.mtail) + 1, pc := Adopt(old(m.c.pc.avail)))
      ensures tx.Contents() == old(tx.Contents())
      ensures Told(old(m), evs, old(tx.Contents()), tx.Contents(), tx.buf.Length)
    {
      hide Inv, Slots, Statics, Indices, Run, Wrap, Told, ByteFifo.Contents, ByteFifo.Valid;
      ghost var queued := tx.Contents();
      var e1 := LoadMarkTs();
      var e2 := FreeMark();
      Continue(old(m), e1, e2, queued, queued, queued, tx.buf.Length);
      evs := e1 + e2;
    }

    /** Adopts the stamp of every burst mark at or before the tail. */
    method AdoptMarks() returns (ghost evs: seq<Event>)
      requires Valid() && m.c.pc.Adopt?
      modifies this`head, this`mhead, this`lastTs, this`haveLast, this`dropped, this`m, data, markPos, markTs
      modifies this`curTs, this`mtail
      ensures Valid() && m.c.pc == Cut(old(m.c.pc.avail)) && m == Run(old(m), evs)
      ensures m.c.tail == old(m.c.tail) && m.c.out == old(m.c.out) && m.c.seqNo == old(m.c.seqNo)
      ensures tx.Contents() == old(tx.Contents())
      ensures Told(old(m), evs, old(tx.Contents()), tx.Contents(), tx.buf.Length)
    {
      hide Inv, Slots, Statics, Run, Wrap, Signed, Told, ByteFifo.Contents, ByteFifo.Valid;
      evs := [];
      NothingTold(m, tx.Contents(), tx.buf.Length);
      ghost var queued := tx.Contents();
      ghost var start := m;
      ghost var avail := m.c.pc.avail;
      while true
        invariant Valid() && m.c.pc == Adopt(avail) && m == Run(start, evs)
        invariant tx.Contents() == queued && Told(start, evs, queued, queued, tx.buf.Length)
        invariant m.c.tail == start.c.tail && m.c.out == start.c.out && m.c.seqNo == start.c.seqNo
        decreases MarkAtTail(m)
      {
        ghost var top := m;
        Occupancy(top);
        var mh, e1 := LoadMhead();
        Continue(start, evs, e1, queued, queued, queued, tx.buf.Length);
        evs := evs + e1;
        if mh == mtail {
          break;
        }
        PendingMark(m);
        SignedDistance(m.p.marks[m.c.mtail].pos, m.c.tail);
        ghost var pos := m.p.marks[m.c.mtail].pos;
        var mp, e2 := LoadMarkPos();
        Continue(start, evs, e2, queued, queued, queued, tx.buf.Length);
        evs := evs + e2;
        if Signed(Wrap(mp as int - tail as int)) > 0 {
          break;
        }
        var e3 := AdoptMark();
        Continue(start, evs, e3, queued, queued, queued, tx.buf.Length);
        evs := evs + e3;
        NoMarkAtTail(m);
        assert top.p.marks[top.c.mtail].pos == pos == top.c.tail && MarkAtTail(top) == 1;
      }
    }

    /** Reads the `n` bytes of a chunk out of the ring. */
    method CopyChunk(n: nat) returns (got: seq<byte>, ghost evs: seq<Event>)
      requires Valid() && m.c.pc == Copy(n, [])
      modifies this`head, this`mhead, this`lastTs, this`haveLast, this`dropped, this`m, data, markPos, markTs
      ensures Valid() && m.c.pc == Copy(n, got) && |got| == n && m == Run(old(m), evs)
      ensures m.c.tail == old(m.c.tail) && m.c.out == old(m.c.out) && m.c.seqNo == old(m.c.seqNo)
      ensures tx.Contents() == old(tx.Contents())
      ensures Told(old(m), evs, old(tx.Contents()), tx.Contents(), tx.buf.Length)
    {
      hide Inv, Slots, Statics, Run, Wrap, Told, ByteFifo.Contents;
      evs, got := [], [];
      NothingTold(m, tx.Contents(), tx.buf.Length);
      ghost var queued := tx.Contents();
      ghost var start := m;
      for i := 0 to n
        invariant Valid() && m.c.pc == Copy(n, got) && |got| == i && m == Run(start, evs)
        invariant tx.Contents() == queued && Told(start, evs, queued, queued, tx.buf.Length)
        invariant m.c.tail == start.c.tail && m.c.out == start.c.out && m.c.seqNo == start.c.seqNo
      {
        var b, e1 := LoadByte(i);
        Continue(start, evs, e1, queued, queued, queued, tx.buf.Length);
        evs := evs + e1;
        got := got + [b];
      }
    }

    /** How many bytes to send: what is available, at most a chunk, and never across the next burst mark. */
    method CutChunk(avail: nat) returns (n: nat, ghost evs: seq<Event>)
      requires Valid() && m.c.pc == Cut(avail)
      modifies this`head, this`mhead, this`lastTs, this`haveLast, this`dropped, this`m, data, markPos, markTs
      ensures Valid() && m.c.pc == Copy(n, []) && 1 <= n <= MAX_CHUNK && m == Run(old(m), evs)
      ensures m.c.tail == old(m.c.tail) && m.c.out == old(m.c.out) && m.c.seqNo == old(m.c.seqNo)
      ensures n <= avail && (n == MAX_CHUNK || n == avail || HasMark(m.p.marks, m.c.tail + n))
      ensures tx.Contents() == old(tx.Contents())
      ensures Told(old(m), evs, old(tx.Contents()), tx.Contents(), tx.buf.Length)
    {
      hide Inv, Slots, Statics, Run, Wrap, Told, ByteFifo.Contents;
      ghost var start := m;
      ghost var queued := tx.Contents();
      n := if avail > MAX_CHUNK then MAX_CHUNK else avail;
      var mh, e1 := LoadMhead();
      evs := e1;
      if mh != mtail {
        PendingMark(m);
        ghost var pos := m.p.marks[m.c.mtail].pos;
        WrappedDifference(pos, m.c.tail);
        var mp, e2 := LoadMarkPos();
        Continue(start, evs, e2, queued, queued, queued, tx.buf.Length);
        evs := evs + e2;
        var toNext := Wrap(mp as int - tail as int);
        if toNext < n {
          n := toNext;
          assert m.p.marks[m.c.mtail].pos == pos;
        }
      }
      ChunkSize(m);
    }

    /** The drop report of a poll; `go` tells whether the poll goes on to the data. */
    method ReportDrops() returns (go: bool, ghost evs: seq<Event>)
      requires Valid() && m.c.pc.Idle?
      modifies this`head, this`mhead, this`lastTs, this`haveLast, this`dropped, this`m, data, markPos, markTs
      modifies tx, tx.buf
      modifies this`wire, this`seqNo, this`reported
      ensures Valid() && m == Run(old(m), evs) && m.c.tail == old(m.c.tail)
      ensures if go then m.c.pc.ReadHead? else m.c.pc.Idle?
      ensures go <==> !ReportBlocked(old(m), old(tx.Contents()), tx.buf.Length)
      ensures m.c.out == if go then OutReported(old(m)) else old(m.c.out)
      ensures tx.Contents() == if go then FifoReported(old(m), old(tx.Contents())) else old(tx.Contents())
      ensures Told(old(m), evs, old(tx.Contents()), tx.Contents(), tx.buf.Length)
    {
      hide Inv, Slots, WireAll, AllFit, Frame.Wire, Run, Wrap, Low8, NextNo, Told, ByteFifo.Contents;
      ghost var start := m;
      ghost var queued := tx.Contents();
      NumberIs(m);
      var drops, e1 := LoadDropped();
      evs := e1;
      if drops == reported {
        return true, evs;
      }
      var taken, e2 := EmitStatus(drops);
      Continue(start, evs, e2, queued, queued, tx.Contents(), tx.buf.Length);
      evs := evs + e2;
      go := taken != 0;
    }

    /** Adopts, cuts and copies: everything up to the offer. */
    method Gather(avail: nat) returns (n: nat, got: seq<byte>, ghost evs: seq<Event>)
      requires Valid() && m.c.pc == Adopt(avail) && m.c.tail + avail <= |m.p.bytes|
      modifies this`head, this`mhead, this`lastTs, this`haveLast, this`dropped, this`m, data, markPos, markTs
      modifies this`curTs, this`mtail
      ensures Valid() && m.c.pc == Copy(n, got) && |got| == n && m == Run(old(m), evs)
      ensures m.c.tail == old(m.c.tail) && m.c.out == old(m.c.out) && m.c.seqNo == old(m.c.seqNo)
      ensures LongestChunk(m.p, m.c.tail, m.c.tail + avail, n)
      ensures got == m.p.bytes[m.c.tail..m.c.tail + n] && m.c.curTs == StampAt(m.p.marks, m.c.tail)
      ensures tx.Contents() == old(tx.Contents())
      ensures Told(old(m), evs, old(tx.Contents()), tx.Contents(), tx.buf.Length)
    {
      hide Inv, Slots, Statics, Run, Wrap, Told, LongestChunk, HasMark, StampAt, ByteFifo.Contents;
      ghost var start := m;
      ghost var queued := tx.Contents();
      evs := AdoptMarks();
      ghost var more;
      n, more := CutChunk(avail);
      Continue(start, evs, more, queued, queued, queued, tx.buf.Length);
      evs := evs + more;
      ghost var cut := m;
      got, more := CopyChunk(n);
      Continue(start, evs, more, queued, queued, queued, tx.buf.Length);
      evs := evs + more;
      RunGrows(cut, more);
      RunGrows(start, evs);
      if HasMark(cut.p.marks, cut.c.tail + n) { MarkStays(cut.p, m.p, cut.c.tail + n); }
      ChunkGathered(m, m.c.tail + avail, n, got);
    }

    /** Offers the chunk, and releases it if it is taken. */
    method Send(n: nat, got: seq<byte>) returns (e: nat, ghost evs: seq<Event>)
      requires Valid() && m.c.pc == Copy(n, got) && |got| == n
      modifies this`head, this`mhead, this`lastTs, this`haveLast, this`dropped, this`m, data, markPos, markTs
      modifies tx, tx.buf
      modifies this`tail, this`wire, this`seqNo
      ensures Valid() && m.c.pc.Idle? && m == Run(old(m), evs) && n <= MAX_CHUNK
      ensures var f, x := Data(Low8(old(m.c.seqNo)), old(m.c.curTs), got), old(tx.Contents());
              if |f.Wire()| <= tx.buf.Length - 1 - |x| then
                && e == |f.Wire()| && e != 0 && m.c.out == old(m.c.out) + [f] && tx.Contents() == x + f.Wire()
                && m.c.tail == old(m.c.tail) + n
              else
                e == 0 && m.c.out == old(m.c.out) && tx.Contents() == x && m.c.tail == old(m.c.tail)
      ensures Told(old(m), evs, old(tx.Contents()), tx.Contents(), tx.buf.Length)
    {
      hide Inv, Slots, Statics, Frame.Wire, Run, Wrap, Low8, Told, ByteFifo.Contents;
      ghost var start := m;
      ghost var queued := tx.Contents();
      ghost var f := Data(Low8(m.c.seqNo), m.c.curTs, got);
      e, evs := EmitData(n, got);
      if e == 0 {
        return;
      }
      assert f.Fits() && m.c.out == start.c.out + [f];
      ghost var after := tx.Contents();
      var more := AdvanceTail(n);
      Continue(start, evs, more, queued, after, after, tx.buf.Length);
      evs := evs + more;
    }

    /** The data part of a poll; `n` is the length of the chunk it offers. */
    method RelayData() returns (e: nat, ghost evs: seq<Event>, ghost n: nat)
      requires Valid() && m.c.pc.ReadHead?
      modifies this`head, this`mhead, this`lastTs, this`haveLast, this`dropped, this`m, data, markPos, markTs
      modifies tx, tx.buf
      modifies this`curTs, this`mtail, this`tail, this`wire, this`seqNo
      ensures Valid() && m.c.pc.Idle? && m == Run(old(m), evs)
      ensures DataPolled(old(m), m, old(tx.Contents()), tx.Contents(), tx.buf.Length, n, e)
      ensures Told(old(m), evs, old(tx.Contents()), tx.Contents(), tx.buf.Length)
    {
      hide Inv, Slots, Statics, Frame.Wire, Run, Wrap, Told, LongestChunk, StampAt, Low8, NextNo, ByteFifo.Contents;
      ghost var start := m;
      ghost var queued := tx.Contents();
      Occupancy(m);
      NumberIs(m);
      WrappedDifference(|m.p.bytes|, m.c.tail);
      var h, e1 := LoadHead();
      evs, n := e1, 0;
      RunGrows(start, evs);
      var avail := Wrap(h as int - tail as int);
      if avail == 0 {
        return 0, evs, 0;
      }
      ghost var more;
      var k, got;
      k, got, more := Gather(avail);
      Continue(start, evs, more, queued, queued, queued, tx.buf.Length);
      evs, n := evs + more, k;
      ghost var full := m;
      e, more := Send(k, got);
      Continue(start, evs, more, queued, queued, tx.Contents(), tx.buf.Length);
      evs := evs + more;
      RunGrows(full, more);
      ChunkStays(full.p, m.p, start.c.tail, |start.p.bytes|, n);
    }

    /**
     * One poll of the main loop, with the interrupt firing between any two shared accesses. `evs` is what happened,
     * in order; the relay does in it exactly what the relay on unbounded indices does. `found` is how much had come in
     * when the poll looked, and `n` the length of the chunk it offered.
     */
    method Poll() returns (e: nat, ghost evs: seq<Event>, ghost found: nat, ghost n: nat)
      requires Valid() && m.c.pc.Idle?
      modifies this`head, this`mhead, this`lastTs, this`haveLast, this`dropped, this`m, data, markPos, markTs
      modifies tx, tx.buf
      modifies this`curTs, this`mtail, this`tail, this`wire, this`seqNo, this`reported
      ensures Valid() && m.c.pc.Idle? && m == Run(old(m), evs)
      ensures Polled(old(m), m, old(tx.Contents()), tx.Contents(), tx.buf.Length, found, n, e)
      ensures Told(old(m), evs, old(tx.Contents()), tx.Contents(), tx.buf.Length)
    {
      hide Inv, Slots, Statics, Frame.Wire, Run, Told, LongestChunk, Polled, DataPolled, ByteFifo.Contents;
      ghost var start := m;
      ghost var queued := tx.Contents();
      ReportedIsLast(m);
      var go, e1 := ReportDrops();
      evs, found, n := e1, 0, 0;
      RunGrows(start, evs);
      ghost var mid, between := m, tx.Contents();
      ReportedIsLast(mid);
      if !go {
        BlockedPoll(start, mid, queued, tx.buf.Length);
        return 0, evs, 0, 0;
      }
      ghost var e2;
      e, e2, n := RelayData();
      found := |mid.p.bytes|;
      Continue(start, evs, e2, queued, between, tx.Contents(), tx.buf.Length);
      evs := evs + e2;
      RunGrows(mid, e2);
      ReportedIsLast(m);
      PollInParts(start, mid, m, queued, tx.Contents(), tx.buf.Length, n, e);
    }
  }
}
