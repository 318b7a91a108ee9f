/** What the relay promises in every reachable state, however the interrupt and the main loop interleave. */
module RelayTheorems {
  import opened Bytes
  import opened Framing
  import opened RelayModel

  lemma {:induction false} Reachable(evs: seq<Event>)
    ensures Inv(Run(INIT, evs))
  {
    InitInv();
    RunKeepsInv(INIT, evs);
  }

  // ---- The rings refine an unbounded queue of stamped bytes ----

  /**
   * Lock-free refinement: the data frames written so far carry, in order and without gap or repetition, exactly
   * the accepted bytes up to the tail, each under the stamp the queue gives it.
   */
  lemma {:induction false} RelaysTheQueue(evs: seq<Event>)
    ensures var s := Run(INIT, evs);
            Written(s.c) <= |s.p.bytes| && Payload(s.c.out) == Stamped(s.p)[..Written(s.c)]
  {
    Reachable(evs);
  }

  /**
   * No unread byte and no pending mark is ever overwritten, and pending marks are strictly increasing and lie in
   * [tail, head).
   */
  lemma {:induction false} RingsNeverOverrun(evs: seq<Event>)
    ensures var s := Run(INIT, evs);
            && s.c.tail <= |s.p.bytes| <= s.c.tail + 512
            && s.c.mtail <= |s.p.marks| <= s.c.mtail + 32
            && (forall j :: s.c.mtail <= j < |s.p.marks| ==> s.c.tail <= s.p.marks[j].pos < |s.p.bytes|)
            && (forall i, j :: s.c.mtail <= i < j < |s.p.marks| ==> s.p.marks[i].pos < s.p.marks[j].pos)
  {
    Reachable(evs);
  }

  /** Every accepted byte is queued under the last recorded mark at or before it. */
  lemma {:induction false} StampIsOfLastMark(evs: seq<Event>, i: nat)
    requires i < |Run(INIT, evs).p.bytes|
    ensures var p := Run(INIT, evs).p;
            exists j :: 0 <= j < |p.marks| && p.marks[j].pos <= i && Stamped(p)[i] == Cell(p.bytes[i], p.marks[j].ts)
              && forall k :: j < k < |p.marks| ==> p.marks[k].pos > i
  {
    Reachable(evs);
    var p := Run(INIT, evs).p;
    var j := LastMark(p.marks, i);
    assert p.marks[j].pos <= i && Stamped(p)[i] == Cell(p.bytes[i], p.marks[j].ts);
  }

  lemma {:induction false} LastMark(marks: seq<Mark>, i: nat) returns (j: nat)
    requires marks != [] && marks[0].pos <= i
    requires forall a, b :: 0 <= a < b < |marks| ==> marks[a].pos < marks[b].pos
    ensures j < |marks| && marks[j].pos <= i && StampAt(marks, i) == marks[j].ts
    ensures forall k :: j < k < |marks| ==> marks[k].pos > i
  {
    j := |marks| - 1;
    if marks[j].pos > i {
      j := LastMark(marks[..j], i);
    }
  }

  // ---- The stamped stream depends on the arrivals only ----

  datatype Arrival = Arrival(b: byte, ts: u32)

  /** The calls of the receive entry point among the events. */
  function Arrivals(evs: seq<Event>): seq<Arrival> {
    if evs == [] then []
    else
      var e := evs[|evs| - 1];
      Arrivals(evs[..|evs| - 1]) + (if e.Rx? then [Arrival(e.b, e.ts)] else [])
  }

  /** The time stamp of the burst the last of `a` belongs to: bursts are split at gaps longer than the threshold. */
  function BurstStart(a: seq<Arrival>): u32
    requires a != []
  {
    var n := |a| - 1;
    if n == 0 || Wrap(a[n].ts as int - a[n - 1].ts as int) > GAP_US then a[n].ts else BurstStart(a[..n])
  }

  /** Every arriving byte under the stamp of its burst. */
  function Ideal(a: seq<Arrival>): (q: seq<Cell>)
    ensures |q| == |a|
  {
    if a == [] then [] else Ideal(a[..|a| - 1]) + [Cell(a[|a| - 1].b, BurstStart(a))]
  }

  ghost predicate MatchesArrivals(p: Producer, a: seq<Arrival>) {
    && |p.bytes| == |a| && |p.times| == |a|
    && (forall i :: 0 <= i < |a| ==> p.bytes[i] == a[i].b && p.times[i] == a[i].ts)
    && Stamped(p) == Ideal(a)
  }

  /** A newly accepted byte is queued under the start of its burst. */
  lemma {:induction false} NewestStamp(s: State, b: byte, ts: u32, a: seq<Arrival>)
    requires ProducerInv(s.p) && MarksOrdered(s.p) && RingInv(s) && MatchesArrivals(s.p, a)
    requires var q := Step(s, Rx(b, ts)).p; q.refused == s.p.refused && q.lostAt == s.p.lostAt
    ensures StampAt(Step(s, Rx(b, ts)).p.marks, |a|) == BurstStart(a + [Arrival(b, ts)])
  {
    var p, q, n := s.p, Step(s, Rx(b, ts)).p, |a|;
    var a' := a + [Arrival(b, ts)];
    assert a'[..n] == a;
    hide StampAt;
    if StartsBurst(p, ts) {
      StampIs(q.marks, |p.marks|, n);
    } else {
      StampIs(p.marks, |p.marks| - 1, n);
      StampIs(p.marks, |p.marks| - 1, n - 1);
      assert Stamped(p)[n - 1] == Ideal(a)[n - 1];
      assert Ideal(a) == Ideal(a[..n - 1]) + [Cell(a[n - 1].b, BurstStart(a))];
    }
  }

  /** The queue before the new byte is as it was. */
  lemma {:induction false} OlderStamps(p: Producer, q: Producer, a: seq<Arrival>, i: nat)
    requires MatchesArrivals(p, a) && i < |a| && |q.bytes| > |a| && q.bytes[i] == p.bytes[i]
    requires q.marks == p.marks
             || (|q.marks| == |p.marks| + 1 && q.marks[..|p.marks|] == p.marks && q.marks[|p.marks|].pos == |a|)
    ensures Stamped(q)[i] == Ideal(a)[i]
  {
    hide StampAt, Ideal;
    SameMarks(p.marks, q.marks, i, |a|);
    assert Stamped(p)[i] == Ideal(a)[i];
  }

  /** What receiving without a loss adds. */
  lemma {:induction false} Received(s: State, b: byte, ts: u32)
    requires var q := Step(s, Rx(b, ts)).p; q.refused == s.p.refused && q.lostAt == s.p.lostAt
    ensures var p, q := s.p, Step(s, Rx(b, ts)).p;
            && q.bytes == p.bytes + [b] && q.times == p.times + [ts]
            && (q.marks == p.marks || q.marks == p.marks + [Mark(|p.bytes|, ts)])
  {
  }

  lemma {:induction false} ReceiveMatches(s: State, b: byte, ts: u32, a: seq<Arrival>)
    requires Inv(s) && MatchesArrivals(s.p, a)
    requires var q := Step(s, Rx(b, ts)).p; q.refused == s.p.refused && q.lostAt == s.p.lostAt
    ensures MatchesArrivals(Step(s, Rx(b, ts)).p, a + [Arrival(b, ts)])
  {
    var p, q := s.p, Step(s, Rx(b, ts)).p;
    var a', n := a + [Arrival(b, ts)], |a|;
    NewestStamp(s, b, ts, a);
    Received(s, b, ts);
    hide Inv, StampAt, BurstStart, Step;
    assert a'[..n] == a;
    forall i | 0 <= i < n
      ensures Stamped(q)[i] == Ideal(a)[i]
    {
      OlderStamps(p, q, a, i);
    }
    assert Stamped(q) == Ideal(a) + [Cell(b, BurstStart(a'))];
  }

  lemma {:induction false} LossOnlyGrows(s: State, e: Event)
    ensures var t := Step(s, e);
            s.p.refused <= t.p.refused && |s.p.lostAt| <= |t.p.lostAt|
            && (t.p.lostAt == [] ==> s.p.lostAt == [])
  {
  }

  lemma {:induction false} OthersMatch(s: State, e: Event, a: seq<Arrival>)
    requires MatchesArrivals(s.p, a) && !e.Rx?
    ensures MatchesArrivals(Step(s, e).p, a)
  {
    assert Stamped(Step(s, e).p) == Stamped(s.p);
  }

  lemma {:induction false} NoArrivals()
    ensures MatchesArrivals(INIT.p, [])
  {
  }

  lemma {:induction false} LosslessMatches(evs: seq<Event>)
    requires var p := Run(INIT, evs).p; p.refused == 0 && p.lostAt == []
    ensures MatchesArrivals(Run(INIT, evs).p, Arrivals(evs))
    decreases |evs|
  {
    hide Step, Inv, MatchesArrivals;
    if evs == [] {
      NoArrivals();
    } else {
      var n := |evs| - 1;
      var s := Run(INIT, evs[..n]);
      LossOnlyGrows(s, evs[n]);
      LosslessMatches(evs[..n]);
      Reachable(evs[..n]);
      if evs[n].Rx? {
        ReceiveMatches(s, evs[n].b, evs[n].ts, Arrivals(evs[..n]));
      } else {
        OthersMatch(s, evs[n], Arrivals(evs[..n]));
        assert Arrivals(evs) == Arrivals(evs[..n]);
      }
    }
  }

  /**
   * While nothing has been refused and no mark lost, what has been relayed is a prefix of the arrivals, each under
   * the arrival time of its burst's first byte: poll schedule, chunking and rejections leave no trace.
   */
  lemma {:induction false} StreamDependsOnArrivalsOnly(evs: seq<Event>)
    requires var p := Run(INIT, evs).p; p.refused == 0 && p.lostAt == []
    ensures var s := Run(INIT, evs);
            Written(s.c) <= |Arrivals(evs)| && Payload(s.c.out) == Ideal(Arrivals(evs))[..Written(s.c)]
  {
    LosslessMatches(evs);
    RelaysTheQueue(evs);
  }

  // ---- Losses are counted and reported ----

  /** Every offered byte is written, buffered or refused, and the drop counter is the sum of all losses. */
  lemma {:induction false} LossConservation(evs: seq<Event>)
    ensures var s := Run(INIT, evs);
            && s.p.offered == |Payload(s.c.out)| + (|s.p.bytes| - Written(s.c)) + s.p.refused
            && s.p.dropped == Wrap(s.p.refused + |s.p.lostAt| + s.p.noted)
            && s.p.offered == |Arrivals(evs)|
  {
    hide Run, Arrivals, Payload, LastStatus, StampAt, GapsMarked, MarksOrdered, RingInv, PcInv, OutInv;
    Reachable(evs);
    OfferedAreArrivals(evs);
  }

  lemma {:induction false} OfferedAreArrivals(evs: seq<Event>)
    ensures Run(INIT, evs).p.offered == |Arrivals(evs)|
    decreases |evs|
  {
    if evs != [] { OfferedAreArrivals(evs[..|evs| - 1]); }
  }

  /**
   * Losses surface before data: each data frame follows a stream whose last STATUS value is the counter as read at
   * the start of that frame's poll, and a STATUS frame carries that reading and only when it is news.
   */
  lemma {:induction false} DropsSurfaceBeforeData(evs: seq<Event>, i: nat)
    requires i < |Run(INIT, evs).c.out|
    ensures var c := Run(INIT, evs).c;
            && |c.snaps| == |c.out|
            && (c.out[i].Data? ==> LastStatus(c.out[..i]) == c.snaps[i])
            && (c.out[i].Status? ==> c.out[i].dropped == c.snaps[i] != LastStatus(c.out[..i]))
  {
    Reachable(evs);
    assert FrameInv(Run(INIT, evs).c, i);
  }

  /** The i-th frame carries SEQ i modulo 256, and every data frame between 1 and 32 bytes. */
  lemma {:induction false} FramesAreNumbered(evs: seq<Event>, i: nat)
    requires i < |Run(INIT, evs).c.out|
    ensures var f := Run(INIT, evs).c.out[i];
            IntOf(f.no) == i % 256 && (f.Data? ==> 1 <= |f.data| <= 32) && f.Fits()
  {
    Reachable(evs);
    assert FrameInv(Run(INIT, evs).c, i);
    IntOfByteOf(i % 256);
  }

  // ---- Rejections ----

  /** As long as the sink rejects, neither the tail nor the numbering nor the output changes. */
  lemma {:induction false} RejectionChangesNothing(s: State, evs: seq<Event>)
    requires !s.c.pc.Release? && forall e :: e in evs && e.Tick? ==> !e.ok
    ensures var t := Run(s, evs);
            !t.c.pc.Release? && t.c.tail == s.c.tail && t.c.seqNo == s.c.seqNo && t.c.out == s.c.out
    decreases |evs|
  {
    if evs != [] {
      var n := |evs| - 1;
      assert evs[n] in evs;
      RejectionChangesNothing(s, evs[..n]);
    }
  }

  // ---- How far a stamp can be from the arrival ----

  /** The arrival of position `i` and of the burst start `j` before it, 200 microseconds per byte at most. */
  lemma {:induction false} ElapsedInBurst(p: Producer, j: nat, i: nat)
    requires ProducerInv(p) && MarksOrdered(p) && GapsMarked(p)
    requires j <= i < |p.times| && GAP_US * (i - j) < TWO32
    requires forall k :: j < k <= i ==> !HasMark(p.marks, k) && k !in p.lostAt
    ensures Wrap(p.times[i] as int - p.times[j] as int) <= GAP_US * (i - j)
    decreases i
  {
    if j < i {
      ElapsedInBurst(p, j, i - 1);
      assert !GapBefore(p.times, i);
      Elapses(p.times[j], p.times[i - 1], p.times[i], GAP_US * (i - 1 - j), GAP_US);
    }
  }

  lemma {:induction false} Elapses(a: int, b: int, c: int, x: nat, y: nat)
    requires Wrap(b - a) <= x && Wrap(c - b) <= y && x + y < TWO32
    ensures Wrap(c - a) <= x + y
  {
    var q, r := (b - a) / TWO32, (c - b) / TWO32;
    assert c - a == (q + r) * TWO32 + (Wrap(b - a) + Wrap(c - b));
  }

  lemma {:induction false} NoMarkInside(p: Producer, j: nat, i: nat)
    requires MarksOrdered(p) && j < |p.marks|
    requires forall k :: j < k < |p.marks| ==> p.marks[k].pos > i
    ensures forall k :: p.marks[j].pos < k <= i ==> !HasMark(p.marks, k)
  {
  }

  lemma {:induction false} ErrorBoundAt(p: Producer, j: nat, i: nat)
    requires ProducerInv(p) && MarksOrdered(p) && GapsMarked(p)
    requires j < |p.marks| && p.marks[j].pos <= i < |p.bytes| && GAP_US * (i - p.marks[j].pos) < TWO32
    requires forall k :: j < k < |p.marks| ==> p.marks[k].pos > i
    requires forall l :: l in p.lostAt ==> !(p.marks[j].pos < l <= i)
    ensures StampAt(p.marks, i) == p.times[p.marks[j].pos]
    ensures Wrap(p.times[i] as int - p.times[p.marks[j].pos] as int) <= GAP_US * (i - p.marks[j].pos)
  {
    StampIs(p.marks, j, i);
    NoMarkInside(p, j, i);
    hide StampAt, GapsMarked, HasMark, Wrap;
    ElapsedInBurst(p, p.marks[j].pos, i);
  }

  /**
   * A byte `k` positions after the last mark arrived at most 200 k microseconds after the stamp its frame carries,
   * on the wrapping clock, provided no mark was lost in between; the marked byte itself is stamped exactly.
   */
  lemma {:induction false} StampErrorBound(evs: seq<Event>, j: nat, i: nat)
    requires var p := Run(INIT, evs).p;
             && j < |p.marks| && p.marks[j].pos <= i < |p.bytes| && i < |p.times|
             && (forall k :: j < k < |p.marks| ==> p.marks[k].pos > i)
             && (forall l :: l in p.lostAt ==> !(p.marks[j].pos < l <= i))
             && 200 * (i - p.marks[j].pos) < TWO32
    ensures var p := Run(INIT, evs).p;
            && Wrap(p.times[i] as int - Stamped(p)[i].ts as int) <= 200 * (i - p.marks[j].pos)
            && (i == p.marks[j].pos ==> Stamped(p)[i].ts == p.times[i])
  {
    Reachable(evs);
    hide StampAt, GapsMarked, HasMark, Wrap, Run;
    ErrorBoundAt(Run(INIT, evs).p, j, i);
  }

  /**
   * The same, burst by burst: if a burst begins at `j` and its mark was not lost, every byte of it carries the
   * arrival time of its first, and the `k`-th after that arrived at most 200 k microseconds later. Bytes may have been
   * refused and other marks lost.
   */
  lemma {:induction false} BurstIsStamped(evs: seq<Event>, j: nat, i: nat)
    requires var p := Run(INIT, evs).p;
             && j <= i < |p.bytes| && |p.times| == |p.bytes| && j !in p.lostAt
             && (j == 0 || GapBefore(p.times, j)) && (forall k :: j < k <= i ==> !GapBefore(p.times, k))
    ensures var p := Run(INIT, evs).p;
            && Stamped(p)[i].ts == p.times[j]
            && (200 * (i - j) < TWO32 ==> Wrap(p.times[i] as int - p.times[j] as int) <= 200 * (i - j))
  {
    Reachable(evs);
    var p := Run(INIT, evs).p;
    hide StampAt, GapBefore, Wrap, Run;
    assert HasMark(p.marks, j);
    var q :| 0 <= q < |p.marks| && p.marks[q].pos == j;
    forall k | q < k < |p.marks|
      ensures p.marks[k].pos > i
    {
      MarkIsGap(p, k);
    }
    StampIs(p.marks, q, i);
    if GAP_US * (i - j) < TWO32 {
      forall l | l in p.lostAt
        ensures !(j < l <= i)
      {
        if l > 0 { LostIsGap(p, l); }
      }
      ErrorBoundAt(p, q, i);
    }
  }

  lemma {:induction false} MarkIsGap(p: Producer, k: nat)
    requires ProducerInv(p) && MarksOrdered(p) && GapsMarked(p) && k < |p.marks| && p.marks[k].pos > 0
    ensures GapBefore(p.times, p.marks[k].pos)
  {
    hide GapBefore;
    assert HasMark(p.marks, p.marks[k].pos);
  }

  lemma {:induction false} LostIsGap(p: Producer, l: nat)
    requires ProducerInv(p) && GapsMarked(p) && l in p.lostAt && l > 0
    ensures l < |p.times| && GapBefore(p.times, l)
  {
    hide GapBefore, HasMark;
    assert l in p.lostAt ==> l < |p.bytes|;
  }

  /**
   * Where bursts are split: a byte up to 200 microseconds after its predecessor is relayed under the same stamp, a
   * later one under its own arrival time unless the mark ring was full; it has a mark exactly in the second case.
   */
  lemma {:induction false} BurstsSplitAtGaps(evs: seq<Event>, i: nat)
    requires var p := Run(INIT, evs).p; 1 <= i < |p.bytes|
    ensures var p := Run(INIT, evs).p;
            && |p.times| == |p.bytes|
            && var gap := Wrap(p.times[i] as int - p.times[i - 1] as int);
               && (gap <= 200 ==> Stamped(p)[i].ts == Stamped(p)[i - 1].ts)
               && (gap > 200 && i !in p.lostAt ==> Stamped(p)[i].ts == p.times[i])
               && (HasMark(p.marks, i) <==> gap > 200 && i !in p.lostAt)
  {
    Reachable(evs);
    var p := Run(INIT, evs).p;
    hide StampAt, Wrap, Run;
    assert GapBefore(p.times, i) <==> HasMark(p.marks, i) || i in p.lostAt;
    LostHasNoMark(evs, i);
    var j := LastMark(p.marks, i);
    if HasMark(p.marks, i) {
      var k :| 0 <= k < |p.marks| && p.marks[k].pos == i;
      assert j == k;
    } else {
      assert p.marks[j].pos < i;
      StampIs(p.marks, j, i - 1);
    }
  }

  lemma {:induction false} LostHasNoMark(evs: seq<Event>, i: nat)
    ensures var p := Run(INIT, evs).p; i in p.lostAt ==> !HasMark(p.marks, i)
    decreases |evs|
  {
    if evs != [] {
      var n := |evs| - 1;
      var s := Run(INIT, evs[..n]);
      LostHasNoMark(evs[..n], i);
      Reachable(evs[..n]);
      hide Run;
      LostKeepsMarks(s, evs[n], i);
    }
  }

  lemma {:induction false} LostKeepsMarks(s: State, e: Event, i: nat)
    requires Inv(s) && (i in s.p.lostAt ==> !HasMark(s.p.marks, i))
    ensures var p := Step(s, e).p; i in p.lostAt ==> !HasMark(p.marks, i)
  {
    hide GapsMarked, PayloadInv, OutInv, PcInv;
    assert i in s.p.lostAt ==> i < |s.p.bytes|;
  }

  /** What the receive entry point makes of a byte, in terms of what is unread and pending. */
  predicate ReceivesByte(s: State, t: State, b: byte, ts: u32) {
    var p, q := s.p, t.p;
    var starts := p.bytes == [] || (p.times != [] && Wrap(ts as int - p.times[|p.times| - 1] as int) > 200);
    var pending := |p.marks| - s.c.mtail;
    && t.c == s.c
    && if |p.bytes| - s.c.tail == 512 then
         q.bytes == p.bytes && q.times == p.times && q.marks == p.marks && q.dropped == Wrap(p.dropped + 1)
       else
         && q.bytes == p.bytes + [b] && q.times == p.times + [ts]
         && q.marks == (if starts && pending < 32 then p.marks + [Mark(|p.bytes|, ts)] else p.marks)
         && q.dropped == (if starts && pending == 32 then Wrap(p.dropped + 1) else p.dropped)
  }

  lemma {:induction false} StepReceives(s: State, b: byte, ts: u32)
    requires ProducerInv(s.p) && RingInv(s)
    ensures ReceivesByte(s, Step(s, Rx(b, ts)), b, ts)
  {
    hide Wrap;
  }

  /**
   * A byte is refused exactly when 512 bytes are unread, and its mark lost exactly when 32 are pending; otherwise both
   * rings take it, and either way a loss is counted.
   */
  lemma {:induction false} RefusedOnlyWhenFull(evs: seq<Event>, b: byte, ts: u32)
    ensures ReceivesByte(Run(INIT, evs), Run(INIT, evs + [Rx(b, ts)]), b, ts)
  {
    Reachable(evs);
    assert (evs + [Rx(b, ts)])[..|evs|] == evs;
    hide ReceivesByte, Step, ProducerInv, RingInv;
    StepReceives(Run(INIT, evs), b, ts);
  }
}
