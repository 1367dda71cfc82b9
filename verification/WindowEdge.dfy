/** The write gate bounds the span of unacknowledged segments before a write, not after it:
    a run in which the sender's next segment is turned away by its peer. */
module WindowEdge {
  import opened Common
  import opened Wire
  import opened Flight
  import opened Reordering
  import opened Connection
  import opened Stream
  import opened Recovery

  /** A timeout and an RTT spread that outlast the whole run. */
  const LONG: nat := 1_000_000_000

  const PAYLOAD: Bytes := [7]

  function Unhurried(streamId: nat): Setting {
    Setting(streamId, 1, LONG, LONG)
  }

  /** A receiver that has sent nothing, has nothing to acknowledge and misses segment 0. */
  ghost predicate Waiting(p: Peer) {
    p.alive && p.conn.buf.min == 0 && p.conn.flight.segs == map[] && p.conn.ackSeqnos == {} && p.conn.ackTimer == None
  }

  /** Segment 0 is still on its way, while segments 1 to n have been delivered, buffered and
      selectively acknowledged. */
  ghost predicate HeldBack(w: World, n: nat) {
    && Inv(w) && w.clock == n * ACK_DELAY && w.a.alive
    && OnlyFirst(w.a.conn.flight.segs)
    && w.a.conn.nextFree == n + 1 && !w.a.conn.closing && w.a.conn.ackSeqnos == {}
    && Waiting(w.b)
  }

  ghost predicate OnlyFirst(segs: Segments) {
    segs.Keys == {0} && !segs[0].knownLost && segs[0].retransTime == LONG
  }

  lemma OnlyFirstIsQuiet(c: Conn, now: Time, cwnd: nat)
    requires OnlyFirst(c.flight.segs) && now < LONG && cwnd > 0 && !c.closing && c.ackSeqnos == {}
    ensures Quiet(c, now, cwnd) && Connection.CanWriteNew(c, cwnd)
  {
    assert Unlost(c.flight.segs) == {0} && Lost(c.flight.segs) == {};
    assert |c.flight.segs| == |c.flight.segs.Keys|;
  }

  lemma TwoAreQuiet(c: Conn, s: Seqno, now: Time, cwnd: nat)
    requires s > 0 && c.flight.segs.Keys == {0, s} && OnlyFirst(c.flight.segs - {s}) && c.ackSeqnos == {}
    requires !c.flight.segs[s].knownLost && now < LONG && now < c.flight.segs[s].retransTime
    ensures Quiet(c, now, cwnd)
  {
    var segs := c.flight.segs;
    assert segs[0] == (segs - {s})[0];
    assert Lost(segs) == {};
  }

  lemma IdleTakesPackets(c: Conn, m: Message, now: Time, cwnd: nat)
    requires c.flight.segs == map[] && c.ackSeqnos == {}
    ensures Enabled(c, NewPkt(m), now, now, cwnd)
  {
    assert Lost(c.flight.segs) == {};
  }

  lemma TimerIsNext(c: Conn, clock: Time, now: Time, cwnd: nat)
    requires c.flight.segs == map[] && c.ackTimer.Some? && c.ackTimer.value <= now
    ensures Enabled(c, AckTimer, clock, now, cwnd)
  {
    assert Lost(c.flight.segs) == {};
  }

  lemma ReceiverState(w: World)
    requires Inv(w)
    ensures w.a.conn.buf.Drained() && w.a.conn.lowestUnseen == w.a.conn.buf.min
  {
  }

  /** A write next to the segment held back. */
  lemma WriteEffect(p: Peer, now: Time, k: Setting)
    requires p.alive
    ensures var q := PeerAfter(p, k.streamId, NewWrite(PAYLOAD), Read(now, k));
      && q.alive && q.conn.nextFree == p.conn.nextFree + 1 && q.conn.closing == p.conn.closing
      && q.conn.ackSeqnos == p.conn.ackSeqnos
      && q.conn.flight == Sent(p.conn.flight, p.conn.nextFree, Data(k.streamId, p.conn.nextFree, PAYLOAD), now, k.rto)
    ensures Data(k.streamId, p.conn.nextFree, PAYLOAD) in Emitted(p, k.streamId, NewWrite(PAYLOAD), Read(now, k))
  {
  }

  /** A segment inside the window, but not the next one, is buffered and noted. */
  lemma AheadEffect(p: Peer, m: Message, now: Time, k: Setting)
    requires p.alive && m.Data? && p.conn.buf.Drained() && p.conn.buf.min < m.seqno <= p.conn.buf.min + WINDOW
    requires p.conn.ackTimer == None
    ensures var q := PeerAfter(p, k.streamId, NewPkt(m), Read(now, k));
      && q.alive && q.conn.flight == p.conn.flight && q.conn.buf.min == p.conn.buf.min
      && q.conn.lowestUnseen == p.conn.lowestUnseen
      && q.conn.ackSeqnos == p.conn.ackSeqnos + {m.seqno} && q.conn.ackTimer == Some(now + ACK_DELAY)
  {
  }

  lemma SortedSingle(s: Seqno)
    ensures Sorted({s}) == [s]
  {
    var keys := Sorted({s});
    assert |keys| == 1 && keys[0] in keys;
  }

  lemma SortedNone()
    ensures Sorted({}) == []
  {
  }

  /** A selective acknowledgement of the newer segment leaves the one held back as it was. */
  lemma SelectiveEffect(p: Peer, s: Seqno, now: Time, k: Setting)
    requires p.alive && s > 0 && p.conn.flight.segs.Keys == {0, s} && !p.conn.closing && k.rttVar == LONG
    requires OnlyFirst(p.conn.flight.segs - {s}) && p.conn.flight.segs[s].retransTime < 3 * LONG
    ensures var q := PeerAfter(p, k.streamId, NewPkt(DataAck(k.streamId, 0, Some([s]))), Read(now, k));
      && q.alive && q.conn.nextFree == p.conn.nextFree && !q.conn.closing
      && q.conn.ackSeqnos == p.conn.ackSeqnos && OnlyFirst(q.conn.flight.segs)
  {
    var segs, r := p.conn.flight.segs, Read(now, k);
    assert Below(segs, 0) == {};
    SortedNone();
    assert AckOrder(segs, 0, [s]) == [s];
    assert [s][..0] == [];
    assert AckedAll(p.conn.flight, [s], r.acks) == Acked(p.conn.flight, s, r.acks(s));
    assert !EarlyRetransmit(segs[0], segs[s], r.acks(s));
  }

  /** The sender writes segment n + 1. */
  lemma WriteOne(w: World, n: nat, k: Setting) returns (v: World)
    requires HeldBack(w, n) && n <= WINDOW && k == Unhurried(k.streamId)
    ensures Reaches(w, v, k) && Inv(v) && v.clock == w.clock && v.b == w.b && v.a.alive
    ensures v.a.conn.flight.segs.Keys == {0, n + 1} && OnlyFirst(v.a.conn.flight.segs - {n + 1})
    ensures v.a.conn.flight.segs[n + 1].retransTime == w.clock + LONG && !v.a.conn.flight.segs[n + 1].knownLost
    ensures v.a.conn.nextFree == n + 2 && !v.a.conn.closing && v.a.conn.ackSeqnos == {}
    ensures Data(k.streamId, n + 1, PAYLOAD) in v.toB
  {
    hide Inv, PeerAfter, Emitted, Quiet, Connection.CanWriteNew, Reaches;
    OnlyFirstIsQuiet(w.a.conn, w.clock, k.cwnd);
    v := Act(w, NewWrite(PAYLOAD), w.clock, k);
    WriteEffect(w.a, w.clock, k);
  }

  /** The receiver buffers it and acknowledges it, when its timer expires. */
  lemma BufferOne(w: World, n: nat, k: Setting) returns (v: World)
    requires Inv(w) && Waiting(w.a) && n < WINDOW && w.clock == n * ACK_DELAY && k == Unhurried(k.streamId)
    requires Data(k.streamId, n + 1, PAYLOAD) in w.toA
    ensures Reaches(w, v, k) && Inv(v) && v.clock == (n + 1) * ACK_DELAY && v.b == w.b && Waiting(v.a)
    ensures DataAck(k.streamId, 0, Some([n + 1])) in v.toB
  {
    hide Inv, PeerAfter, Emitted, Quiet, Reaches, Enabled;
    var m := Data(k.streamId, n + 1, PAYLOAD);
    IdleTakesPackets(w.a.conn, m, w.clock, k.cwnd);
    ReceiverState(w);
    var got := Act(w, NewPkt(m), w.clock, k);
    AheadEffect(w.a, m, w.clock, k);
    v := AckBuffered(got, n, k);
    ReachesThrough(w, got, v, k);
  }

  lemma AckBuffered(w: World, n: nat, k: Setting) returns (v: World)
    requires Inv(w) && w.a.alive && w.clock == n * ACK_DELAY && k == Unhurried(k.streamId)
    requires w.a.conn.buf.min == w.a.conn.lowestUnseen == 0 && w.a.conn.flight.segs == map[]
    requires w.a.conn.ackSeqnos == {n + 1} && w.a.conn.ackTimer == Some(w.clock + ACK_DELAY)
    ensures Reaches(w, v, k) && Inv(v) && v.clock == (n + 1) * ACK_DELAY && v.b == w.b && Waiting(v.a)
    ensures DataAck(k.streamId, 0, Some([n + 1])) in v.toB
  {
    hide Inv, PeerAfter, Emitted, Quiet, Reaches, Enabled, Sorted;
    var now := w.clock + ACK_DELAY;
    TimerIsNext(w.a.conn, w.clock, now, k.cwnd);
    v := Act(w, AckTimer, now, k);
    AckTimerEffect(w.a, now, k);
    assert v.a.conn.flight.segs.Keys == {};
    SortedSingle(n + 1);
  }

  lemma AckOne(w: World, n: nat, k: Setting) returns (v: World)
    requires Inv(w) && w.a.alive && n < WINDOW && w.clock == (n + 1) * ACK_DELAY && k == Unhurried(k.streamId)
    requires w.a.conn.flight.segs.Keys == {0, n + 1} && OnlyFirst(w.a.conn.flight.segs - {n + 1})
    requires w.a.conn.flight.segs[n + 1].retransTime == n * ACK_DELAY + LONG && !w.a.conn.flight.segs[n + 1].knownLost
    requires w.a.conn.nextFree == n + 2 && !w.a.conn.closing && w.a.conn.ackSeqnos == {}
    requires DataAck(k.streamId, 0, Some([n + 1])) in w.toA
    ensures Reaches(w, v, k) && Inv(v) && v.clock == w.clock && v.b == w.b && v.a.alive
    ensures OnlyFirst(v.a.conn.flight.segs)
    ensures v.a.conn.nextFree == n + 2 && !v.a.conn.closing && v.a.conn.ackSeqnos == {}
  {
    TwoAreQuiet(w.a.conn, n + 1, w.clock, k.cwnd);
    hide Inv, PeerAfter, Emitted, Quiet, Reaches;
    var ack := DataAck(k.streamId, 0, Some([n + 1]));
    v := Act(w, NewPkt(ack), w.clock, k);
    SelectiveEffect(w.a, n + 1, w.clock, k);
  }

  /** One more segment overtakes the one held back. */
  lemma OneFurther(w: World, n: nat, k: Setting) returns (v: World)
    requires HeldBack(w, n) && n < WINDOW && k == Unhurried(k.streamId)
    ensures Reaches(w, v, k) && HeldBack(v, n + 1)
  {
    var written := WriteOne(w, n, k);
    var swapped := BufferOne(written.Swap(), n, k);
    ReachesSwapped(written.Swap(), swapped, k);
    assert written.Swap().Swap() == written;
    var buffered := swapped.Swap();
    v := AckOne(buffered, n, k);
    ReachesThrough(w, written, buffered, k);
    ReachesThrough(w, buffered, v, k);
  }

  lemma {:induction false} AllFurther(n: nat, k: Setting) returns (v: World)
    requires n <= WINDOW && k == Unhurried(k.streamId)
    ensures Reaches(START, v, k) && HeldBack(v, n)
    decreases n
  {
    if n == 0 {
      StartSatisfiesInv();
      assert Unlost(map[]) == {} && Lost(map[]) == {};
      v := Act(START, NewWrite(PAYLOAD), 0, k);
      WriteEffect(START.a, 0, k);
    } else {
      var before := AllFurther(n - 1, k);
      v := OneFurther(before, n - 1, k);
      ReachesThrough(START, before, v, k);
    }
  }

  /** There is a run that puts a segment one past the receiver's window on the wire: the
      receiver turns it away, and the sender's unacknowledged segments span twice its gate. */
  lemma OnePastTheWindow(streamId: nat) returns (run: seq<Step>, m: Message)
    ensures CanRun(START, streamId, run)
    ensures var w := After(START, streamId, run); var buf := w.b.conn.buf;
      && m in w.toB && m.Data? && m.seqno == buf.min + WINDOW + 1
      && !Inserted(buf, m.seqno, m.payload).1
      && w.a.conn.flight.segs.Keys == {0, m.seqno} && m.seqno > 2 * WRITE_SPAN
  {
    var k := Unhurried(streamId);
    var w := AllFurther(WINDOW, k);
    var v := WriteOne(w, WINDOW, k);
    ReachesThrough(START, w, v, k);
    run :| CanRun(START, k.streamId, run) && After(START, k.streamId, run) == v && forall l :: l in run ==> Uses(l, k);
    m := Data(streamId, WINDOW + 1, PAYLOAD);
  }
}
