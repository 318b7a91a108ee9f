/** Two runs that show what the relay's own documentation does not promise. */
module RelayRuns {
  import opened Bytes
  import opened Framing
  import opened RelayModel

  lemma {:induction false} RunNext(s: State, evs: seq<Event>, e: Event)
    ensures Run(s, evs + [e]) == Step(Run(s, evs), e)
  {
    hide Step;
    assert (evs + [e])[..|evs|] == evs;
  }

  /** The consumer alone steps, with a sink that accepts, and does not return in between. */
  ghost predicate WithinPoll(evs: seq<Event>, more: seq<Event>) {
    && (forall e :: e in more ==> e == Tick(true))
    && (forall k :: 0 < k < |more| ==> !Run(INIT, evs + more[..k]).c.pc.Idle?)
  }

  lemma {:induction false} PollGoesOn(evs: seq<Event>, more: seq<Event>)
    requires WithinPoll(evs, more) && (more != [] ==> !Run(INIT, evs + more).c.pc.Idle?)
    ensures WithinPoll(evs, more + [Tick(true)])
    ensures Run(INIT, evs + (more + [Tick(true)])) == Step(Run(INIT, evs + more), Tick(true))
  {
    hide Step, Run;
    var next := more + [Tick(true)];
    RunNext(INIT, evs + more, Tick(true));
    assert evs + more + [Tick(true)] == evs + next;
    forall k | 0 < k < |next|
      ensures !Run(INIT, evs + next[..k]).c.pc.Idle?
    {
      assert next[..k] == more[..k] && (k == |more| ==> more[..k] == more);
    }
  }

  /** The consumer is on its way to offer all of `got`, the first bytes ever received, under their one mark. */
  predicate Gathering(c: Consumer, got: seq<byte>, ts: u32) {
    && c.tail == 0 && c.mtail <= 1 && (c.mtail == 1 ==> c.curTs == ts)
    && match c.pc
       case ReadHead => true
       case Adopt(v) => v == |got|
       case AdoptPos(v) => v == |got| && c.mtail == 0
       case AdoptTs(v) => v == |got| && c.mtail == 0
       case AdoptFree(v) => v == |got| && c.mtail == 0 && c.curTs == ts
       case Cut(v) => v == |got| && c.mtail == 1
       case Copy(n, g) => n == |got| && c.mtail == 1 && |g| <= n && g == got[..|g|]
       case _ => false
  }

  function StepsLeft(c: Consumer): int {
    match c.pc
    case ReadHead => 60
    case Adopt(_) => if c.mtail == 0 then 59 else 50
    case AdoptPos(_) => 58
    case AdoptTs(_) => 57
    case AdoptFree(_) => 56
    case Cut(_) => 40
    case Copy(_, g) => 39 - |g|
    case _ => 0
  }

  lemma {:induction false} GatheringGoesOn(s: State, got: seq<byte>, ts: u32)
    requires s.p.bytes == got && 1 <= |got| <= MAX_CHUNK && s.p.marks == [Mark(0, ts)] && Gathering(s.c, got, ts)
    requires s.c.pc != Copy(|got|, got)
    ensures var t := Step(s, Tick(true));
            && t.p == s.p && Gathering(t.c, got, ts) && 0 <= StepsLeft(t.c) < StepsLeft(s.c)
            && t.c.out == s.c.out && t.c.seqNo == s.c.seqNo && t.c.reported == s.c.reported
  {
  }

  lemma {:induction false} Gathers(evs: seq<Event>, before: seq<Event>, got: seq<byte>, ts: u32)
      returns (more: seq<Event>)
    requires var s := Run(INIT, evs + before);
             && s.p.bytes == got && 1 <= |got| <= MAX_CHUNK && s.p.marks == [Mark(0, ts)] && Gathering(s.c, got, ts)
    requires WithinPoll(evs, before)
    ensures var s, t := Run(INIT, evs + before), Run(INIT, evs + more);
            && t.p == s.p && t.c.pc == Copy(|got|, got) && t.c.curTs == ts && t.c.mtail == 1 && t.c.tail == 0
            && t.c.out == s.c.out && t.c.seqNo == s.c.seqNo && t.c.reported == s.c.reported
    ensures WithinPoll(evs, more)
    decreases StepsLeft(Run(INIT, evs + before).c)
  {
    hide Step, Run;
    var s := Run(INIT, evs + before);
    if s.c.pc == Copy(|got|, got) {
      more := before;
    } else {
      GatheringGoesOn(s, got, ts);
      PollGoesOn(evs, before);
      more := Gathers(evs, before + [Tick(true)], got, ts);
    }
  }

  lemma {:induction false} FirstByte(evs: seq<Event>, b: byte, ts: u32)
    requires var s := Run(INIT, evs);
             s.p.bytes == [] && !s.p.haveLast && s.p.marks == [] && s.c.tail == 0 && s.c.mtail == 0
    ensures var s, t := Run(INIT, evs), Run(INIT, evs + [Rx(b, ts)]);
            && t.c == s.c && t.p.bytes == [b] && t.p.marks == [Mark(0, ts)] && t.p.lastTs == ts && t.p.haveLast
            && t.p.dropped == s.p.dropped
  {
    RunNext(INIT, evs, Rx(b, ts));
  }

  /**
   * One poll, two frames: after a noted loss and a byte, a single poll with an accepting sink writes a STATUS frame
   * and then a data frame.
   */
  lemma {:induction false} OnePollTwoFrames(b: byte, ts: u32) returns (before: seq<Event>, poll: seq<Event>)
    ensures var s, t := Run(INIT, before), Run(INIT, before + poll);
            && s.c.pc.Idle? && s.c.out == []
            && t.c.out == [Status(0, 1), Data(1, ts, [b])]
    ensures WithinPoll(before, poll)
  {
    hide Run, Low8, Step;
    Numbers();
    before := NotedLoss(b, ts);
    var s := Run(INIT, before);
    poll := [];
    assert before + poll == before;
    PollGoesOn(before, poll);
    poll := [Tick(true)];
    assert [] + [Tick(true)] == poll;
    StatusStep(s);
    PollGoesOn(before, poll);
    poll := poll + [Tick(true)];
    var more := Gathers(before, poll, [b], ts);
    DataStep(Run(INIT, before + more), [b]);
    PollGoesOn(before, more);
    poll := more + [Tick(true)];
  }

  lemma {:induction false} NotedLoss(b: byte, ts: u32) returns (evs: seq<Event>)
    ensures var s := Run(INIT, evs);
            && s.c == INIT.c && s.p.dropped == 1 && s.p.bytes == [b] && s.p.marks == [Mark(0, ts)]
  {
    evs := [Note(1)];
    RunNext(INIT, [], Note(1));
    assert [] + [Note(1)] == evs;
    FirstByte(evs, b, ts);
    evs := evs + [Rx(b, ts)];
  }

  lemma {:induction false} StatusStep(s: State)
    requires s.c == INIT.c && s.p.dropped == 1
    ensures var t := Step(s, Tick(true)); var u := Step(t, Tick(true));
            && t.c.pc == Report(1) && t.p == s.p && u.p == s.p
            && u.c.pc.ReadHead? && u.c.tail == 0 && u.c.mtail == 0 && u.c.seqNo == 1 && u.c.out == [Status(Low8(0), 1)]
  {
    hide Low8;
  }

  lemma {:induction false} DataStep(s: State, got: seq<byte>)
    requires s.c.pc == Copy(|got|, got)
    ensures Step(s, Tick(true)).c.out == s.c.out + [Data(Low8(s.c.seqNo), s.c.curTs, got)]
  {
    hide Low8;
  }

  lemma {:induction false} Numbers()
    ensures Low8(0) == 0 && Low8(1) == 1
  {
  }

  /**
   * A retry is rebuilt: a frame with one byte is offered and rejected, nothing is written, a second byte of the same
   * burst comes in, and the next attempt offers both bytes under the same number and stamp.
   */
  lemma {:induction false} RetryIsRebuilt(a: byte, b: byte, ts: u32) returns (first: seq<Event>, again: seq<Event>)
    ensures Offered(Run(INIT, first).c) == Offer(Data(0, ts, [a]))
    ensures var t := Run(INIT, first + [Tick(false), Rx(b, ts)] + again);
            Offered(t.c) == Offer(Data(0, ts, [a, b])) && t.c.out == []
  {
    hide Run, Low8, Step;
    Numbers();
    first := [Rx(a, ts)];
    OneByteIn(a, ts);
    var more := PollStarts(first, [a], ts);
    first := first + more;
    RunNext(INIT, first, Tick(false));
    RunNext(INIT, first + [Tick(false)], Rx(b, ts));
    assert first + [Tick(false)] + [Rx(b, ts)] == first + [Tick(false), Rx(b, ts)];
    var evs := first + [Tick(false), Rx(b, ts)];
    Rejected(Run(INIT, first), a, b, ts);
    again := PollStarts(evs, [a, b], ts);
  }

  lemma {:induction false} OneByteIn(a: byte, ts: u32)
    ensures var s := Run(INIT, [Rx(a, ts)]);
            && s.c == INIT.c && s.p.bytes == [a] && s.p.marks == [Mark(0, ts)] && s.p.lastTs == ts && s.p.haveLast
            && s.p.dropped == 0
  {
    FirstByte([], a, ts);
    assert [] + [Rx(a, ts)] == [Rx(a, ts)];
  }

  /** The frame is rejected, and a byte of the same burst comes in. */
  lemma {:induction false} Rejected(s: State, a: byte, b: byte, ts: u32)
    requires s.c.pc == Copy(1, [a]) && s.c.tail == 0 && s.c.mtail == 1 && s.c.curTs == ts
    requires s.p.bytes == [a] && s.p.marks == [Mark(0, ts)] && s.p.lastTs == ts && s.p.haveLast
    ensures var t := Step(Step(s, Tick(false)), Rx(b, ts));
            && t.c == s.c.(pc := Idle) && t.p.bytes == [a, b] && t.p.marks == [Mark(0, ts)]
            && t.p.dropped == s.p.dropped
  {
  }

  /** A poll from its start to the offer, with nothing to report. */
  lemma {:induction false} PollStarts(evs: seq<Event>, got: seq<byte>, ts: u32) returns (more: seq<Event>)
    requires var s := Run(INIT, evs);
             && s.p.bytes == got && 1 <= |got| <= MAX_CHUNK && s.p.marks == [Mark(0, ts)]
             && s.c.pc.Idle? && s.c.tail == 0 && s.c.mtail <= 1 && (s.c.mtail == 1 ==> s.c.curTs == ts)
             && s.p.dropped == s.c.reported
    ensures var s, t := Run(INIT, evs), Run(INIT, evs + more);
            && t.p == s.p && t.c.pc == Copy(|got|, got) && t.c.curTs == ts && t.c.mtail == 1 && t.c.tail == 0
            && t.c.out == s.c.out && t.c.seqNo == s.c.seqNo && t.c.reported == s.c.reported
  {
    hide Run;
    assert evs + [] == evs;
    PollGoesOn(evs, []);
    assert [] + [Tick(true)] == [Tick(true)];
    more := Gathers(evs, [Tick(true)], got, ts);
  }
}
