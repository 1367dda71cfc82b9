/** What the invariant means for whole runs of the stream. */
module StreamTheorems {
  import opened Common
  import opened Wire
  import opened Flight
  import opened Reordering
  import opened Connection
  import opened Stream

  // ----- Safety -----

  lemma FlowMeansPrefix(snd: Peer, rcv: Peer, fwd: set<Message>, back: set<Message>)
    requires Flow(snd, rcv, fwd, back)
    ensures rcv.output <= Concat(snd.written)
  {
    var min := rcv.conn.buf.min;
    assert snd.written == snd.written[..min] + snd.written[min..];
    ConcatSplit(snd.written[..min], snd.written[min..]);
  }

  /** In every state of every run, what each application has read is, byte for byte, the
      first `lowestUnseen` buffers that the other one wrote. */
  lemma StreamIsExact(streamId: nat, run: seq<Step>)
    requires CanRun(START, streamId, run)
    ensures var w := After(START, streamId, run);
      && w.a.conn.lowestUnseen == w.a.conn.buf.min <= |w.b.written|
      && w.b.conn.lowestUnseen == w.b.conn.buf.min <= |w.a.written|
      && w.b.output == Concat(w.a.written[..w.b.conn.lowestUnseen]) <= Concat(w.a.written)
      && w.a.output == Concat(w.b.written[..w.a.conn.lowestUnseen]) <= Concat(w.b.written)
  {
    StartSatisfiesInv();
    RunKeepsInv(START, streamId, run);
    var w := After(START, streamId, run);
    FlowMeansPrefix(w.a, w.b, w.toB, w.toA);
    FlowMeansPrefix(w.b, w.a, w.toA, w.toB);
  }

  /** The world as one of its endpoints sees it, with that endpoint as `a`. */
  function From(w: World, byA: bool): World {
    if byA then w else w.Swap()
  }

  /** An event of that endpoint. */
  function Acting(byA: bool, e: Event, r: Readings, cwnd: nat): Step {
    if byA then ActA(e, r, cwnd) else ActB(e, r, cwnd)
  }

  lemma ReachableSatisfiesInv(streamId: nat, run: seq<Step>, byA: bool)
    requires CanRun(START, streamId, run)
    ensures Inv(From(After(START, streamId, run), byA))
  {
    StartSatisfiesInv();
    RunKeepsInv(START, streamId, run);
  }

  /** No segment under way is more than one past its receiver's window, and the receiver
      turns away an honest segment exactly when it is that one. `WindowEdge.OnePastTheWindow`
      shows that there may be such a segment. */
  lemma WindowBound(streamId: nat, run: seq<Step>, byA: bool, m: Message)
    requires CanRun(START, streamId, run)
    requires m in From(After(START, streamId, run), byA).toB && m.Data?
    ensures var b := From(After(START, streamId, run), byA).b.conn.buf;
      && m.seqno <= b.min + WINDOW + 1
      && (!Inserted(b, m.seqno, m.payload).1 <==> m.seqno == b.min + WINDOW + 1)
  {
    ReachableSatisfiesInv(streamId, run, byA);
  }

  /** Nothing written is ever forgotten: it is unacknowledged, buffered or delivered. */
  lemma NothingIsForgotten(streamId: nat, run: seq<Step>, byA: bool, s: Seqno)
    requires CanRun(START, streamId, run)
    requires s < |From(After(START, streamId, run), byA).a.written|
    ensures var w := From(After(START, streamId, run), byA);
      s in w.a.conn.flight.segs || s in w.b.conn.buf.pkts || s < w.b.conn.lowestUnseen
  {
    ReachableSatisfiesInv(streamId, run, byA);
    var w := From(After(START, streamId, run), byA);
    assert s in w.a.conn.flight.segs || w.b.conn.buf.Received(s);
  }

  lemma AllAckedMeansAllDelivered(snd: Peer, rcv: Peer, fwd: set<Message>, back: set<Message>)
    requires Flow(snd, rcv, fwd, back) && snd.conn.flight.segs == map[]
    ensures rcv.output == Concat(snd.written)
  {
    ReleasedUpTo(snd, rcv, snd.conn.nextFree);
    assert snd.written[..rcv.conn.buf.min] == snd.written;
  }

  /** When an endpoint dies because it was closing and had nothing unacknowledged left, its
      peer has read every byte that was written. */
  lemma GracefulCloseIsComplete(streamId: nat, run: seq<Step>, byA: bool, e: Event, r: Readings, cwnd: nat)
    requires CanRun(START, streamId, run)
    requires CanStep(After(START, streamId, run), Acting(byA, e, r, cwnd))
    requires Process(From(After(START, streamId, run), byA).a.conn, streamId, e, r).verdict == DrainedAndClosed
    ensures var v := From(Stepped(After(START, streamId, run), streamId, Acting(byA, e, r, cwnd)), byA);
      !v.a.alive && v.b.output == Concat(v.a.written)
  {
    ReachableSatisfiesInv(streamId, run, byA);
    DrainingStepIsComplete(From(After(START, streamId, run), byA), streamId, e, r, cwnd);
  }

  lemma DrainingStepIsComplete(w: World, streamId: nat, e: Event, r: Readings, cwnd: nat)
    requires Inv(w) && CanStep(w, ActA(e, r, cwnd))
    requires Process(w.a.conn, streamId, e, r).verdict == DrainedAndClosed
    ensures var v := Stepped(w, streamId, ActA(e, r, cwnd)); !v.a.alive && v.b.output == Concat(v.a.written)
  {
    StepKeepsInv(w, streamId, ActA(e, r, cwnd));
    var v := Stepped(w, streamId, ActA(e, r, cwnd));
    DrainedMeansNoneLeft(w.a.conn, streamId, e, r);
    AllAckedMeansAllDelivered(v.a, v.b, v.toB, v.toA);
  }

  lemma DrainedMeansNoneLeft(c: Conn, streamId: nat, e: Event, r: Readings)
    requires Process(c, streamId, e, r).verdict == DrainedAndClosed
    ensures Process(c, streamId, e, r).conn.closing && Process(c, streamId, e, r).conn.flight.segs == map[]
  {
  }

  lemma LastStep(w: World, streamId: nat, l: Step)
    ensures CanRun(w, streamId, [l]) <==> CanStep(w, l)
    ensures After(w, streamId, [l]) == Stepped(w, streamId, l)
  {
    assert [l][1..] == [];
  }

  lemma {:induction false} RunConcat(w: World, streamId: nat, first: seq<Step>, rest: seq<Step>)
    ensures CanRun(w, streamId, first + rest) <==>
      CanRun(w, streamId, first) && CanRun(After(w, streamId, first), streamId, rest)
    ensures After(w, streamId, first + rest) == After(After(w, streamId, first), streamId, rest)
    decreases |first|
  {
    if first == [] {
      assert first + rest == rest;
    } else {
      assert (first + rest)[0] == first[0] && (first + rest)[1..] == first[1..] + rest;
      RunConcat(Stepped(w, streamId, first[0]), streamId, first[1..], rest);
    }
  }

  /** Counters and batches in every state of every run: each written segment is either
      unacknowledged or counted as delivered exactly once, the congestion controller has
      heard of each delivery exactly once, and acknowledgements waiting to be sent never
      exceed a batch and always have a timer. */
  lemma CountersAreConserved(streamId: nat, run: seq<Step>, byA: bool)
    requires CanRun(START, streamId, run)
    ensures var p := From(After(START, streamId, run), byA).a; var c := p.conn;
      && c.flight.delivered + |c.flight.segs| == c.nextFree == |p.written|
      && c.ccAcks == c.flight.delivered
      && |c.ackSeqnos| <= ACK_BATCH
      && (c.ackSeqnos != {} ==> c.ackTimer.Some?)
  {
    ReachableSatisfiesInv(streamId, run, byA);
  }

  ghost predicate WindowsAtMost(run: seq<Step>, byA: bool, bound: nat) {
    forall l :: l in run && (if byA then l.ActA? else l.ActB?) ==> l.cwnd <= bound
  }

  lemma {:induction false} UnackedStaysBounded(w: World, streamId: nat, run: seq<Step>, byA: bool, bound: nat)
    requires Inv(w) && CanRun(w, streamId, run) && WindowsAtMost(run, byA, bound)
    requires |From(w, byA).a.conn.flight.segs| <= bound + 1
    ensures |From(After(w, streamId, run), byA).a.conn.flight.segs| <= bound + 1
    decreases |run|
  {
    if run != [] {
      var l := run[0];
      if if byA then l.ActA? else l.ActB? {
        assert l in run;
        ProcessKeepsUnackedBound(From(w, byA).a.conn, streamId, l.e, l.r, w.clock, l.cwnd, bound);
      }
      StepKeepsInv(w, streamId, l);
      UnackedStaysBounded(Stepped(w, streamId, l), streamId, run[1..], byA, bound);
    }
  }

  /** While the congestion window of an endpoint stays at or below `bound`, at most
      `bound + 1` of its segments are unacknowledged, and so at most that many in flight. */
  lemma InFlightBound(streamId: nat, run: seq<Step>, byA: bool, bound: nat)
    requires CanRun(START, streamId, run) && WindowsAtMost(run, byA, bound)
    ensures var segs := From(After(START, streamId, run), byA).a.conn.flight.segs;
      |Unlost(segs)| <= |segs| <= bound + 1
  {
    StartSatisfiesInv();
    UnackedStaysBounded(START, streamId, run, byA, bound);
    LostAndUnlostPartition(From(After(START, streamId, run), byA).a.conn.flight.segs);
  }

  // ----- Timers -----

  ghost function Due(c: Conn, t: Time): set<Seqno> {
    set s | s in c.flight.segs && !c.flight.segs[s].knownLost && c.flight.segs[s].retransTime <= t
  }

  ghost function BurstMeasure(c: Conn, t: Time): nat {
    2 * |Due(c, t)| + |Lost(c.flight.segs)|
  }

  lemma Pow2Positive(rto: nat, n: nat)
    requires rto > 0
    ensures rto * Pow2(n) > 0
  {
  }

  lemma RtoShrinksBurst(c: Conn, s: Seqno, t: Time)
    requires s in Due(c, t)
    ensures BurstMeasure(OnRto(c, s).conn, t) < BurstMeasure(c, t)
  {
    var after := OnRto(c, s).conn;
    assert Due(after, t) == Due(c, t) - {s};
    assert Lost(after.flight.segs) == Lost(c.flight.segs) + {s};
  }

  lemma RetransmitShrinksBurst(c: Conn, s: Seqno, r: Readings)
    requires s in Lost(c.flight.segs) && r.rto > 0
    ensures BurstMeasure(OnRetransmit(c, s, r).conn, r.now) < BurstMeasure(c, r.now)
  {
    var after := OnRetransmit(c, s, r).conn;
    Pow2Positive(r.rto, c.flight.segs[s].retrans + 1);
    assert after.flight.segs[s].retransTime > r.now;
    assert Due(after, r.now) == Due(c, r.now);
    assert Lost(after.flight.segs) == Lost(c.flight.segs) - {s};
  }

  /** Nothing but timeouts and retransmissions of one endpoint, with the clock standing still. */
  ghost predicate IsBurst(run: seq<Step>, byA: bool, t: Time) {
    forall l :: l in run ==> (if byA then l.ActA? else l.ActB?) && (l.e.Rto? || l.e.Retransmit?) && l.r.now == t
  }

  /** The events of highest priority cannot starve the others: with the clock standing
      still, a burst of timeouts and retransmissions is no longer than its measure. */
  lemma {:induction false} BurstsAreFinite(w: World, streamId: nat, run: seq<Step>, byA: bool)
    requires CanRun(w, streamId, run) && IsBurst(run, byA, w.clock)
    ensures |run| <= BurstMeasure(From(w, byA).a.conn, w.clock)
    decreases |run|
  {
    if run != [] {
      var l, c := run[0], From(w, byA).a.conn;
      assert l in run;
      if l.e.Rto? {
        RtoShrinksBurst(c, l.e.seqno, w.clock);
      } else {
        RetransmitShrinksBurst(c, l.e.seqno, l.r);
      }
      assert forall x :: x in run[1..] ==> x in run;
      BurstsAreFinite(Stepped(w, streamId, l), streamId, run[1..], byA);
    }
  }

  lemma {:induction false} EarliestExists(segs: Segments, some: set<Seqno>)
    requires some != {} && some <= segs.Keys
    ensures exists s :: s in some && forall x :: x in some ==> segs[s].retransTime <= segs[x].retransTime
    decreases |some|
  {
    var x :| x in some;
    var rest := some - {x};
    if rest == {} {
      assert some == {x};
      assert x in some && forall y :: y in some ==> segs[x].retransTime <= segs[y].retransTime;
    } else {
      EarliestExists(segs, rest);
      var m :| m in rest && forall y :: y in rest ==> segs[m].retransTime <= segs[y].retransTime;
      var best := if segs[x].retransTime < segs[m].retransTime then x else m;
      assert forall y :: y in some ==> y == x || y in rest;
      assert best in some && forall y :: y in some ==> segs[best].retransTime <= segs[y].retransTime;
    }
  }

  lemma FirstToExpireExists(segs: Segments, unlost: set<Seqno>)
    requires unlost == Unlost(segs) && unlost != {}
    ensures exists s :: FirstToExpire(segs, s)
  {
    EarliestExists(segs, unlost);
    var s :| s in unlost && forall x :: x in unlost ==> segs[s].retransTime <= segs[x].retransTime;
    forall x | x in segs && !segs[x].knownLost ensures segs[s].retransTime <= segs[x].retransTime {
      assert x in unlost;
    }
    assert FirstToExpire(segs, s);
  }
}
