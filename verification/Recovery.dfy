/** Loss never wedges a stream: from every reachable state, after every message under way
    has been lost, the two endpoints can still deliver and acknowledge everything written. */
module Recovery {
  import opened Common
  import opened Wire
  import opened Flight
  import opened Reordering
  import opened Connection
  import opened Stream
  import opened StreamTheorems

  /** The stream, the congestion window, the RTO and the RTT spread that all steps of a
      schedule use. */
  datatype Setting = Setting(streamId: nat, cwnd: nat, rto: nat, rttVar: nat)

  ghost predicate Uses(l: Step, k: Setting) {
    match l
    case ActA(e, r, cwnd) => !e.Failure? && cwnd == k.cwnd && r.rto == k.rto
    case ActB(e, r, cwnd) => !e.Failure? && cwnd == k.cwnd && r.rto == k.rto
    case _ => false
  }

  /** `v` follows from `w` by events of the two endpoints alone, none of them a failure. */
  ghost predicate Reaches(w: World, v: World, k: Setting) {
    exists run :: CanRun(w, k.streamId, run) && After(w, k.streamId, run) == v && forall l :: l in run ==> Uses(l, k)
  }

  lemma ReachesItself(w: World, k: Setting)
    ensures Reaches(w, w, k)
  {
    assert CanRun(w, k.streamId, []) && After(w, k.streamId, []) == w;
  }

  lemma ReachesThrough(w: World, v: World, u: World, k: Setting)
    requires Reaches(w, v, k) && Reaches(v, u, k)
    ensures Reaches(w, u, k)
  {
    var first :| CanRun(w, k.streamId, first) && After(w, k.streamId, first) == v && forall l :: l in first ==> Uses(l, k);
    var rest :| CanRun(v, k.streamId, rest) && After(v, k.streamId, rest) == u && forall l :: l in rest ==> Uses(l, k);
    RunConcat(w, k.streamId, first, rest);
    assert forall l :: l in first + rest ==> Uses(l, k);
  }

  lemma ReachesByStep(w: World, l: Step, k: Setting)
    requires CanStep(w, l) && Uses(l, k)
    ensures Reaches(w, Stepped(w, k.streamId, l), k)
  {
    LastStep(w, k.streamId, l);
    assert forall x :: x in [l] ==> Uses(x, k);
  }

  function Swapped(l: Step): Step {
    match l
    case ActA(e, r, cwnd) => ActB(e, r, cwnd)
    case ActB(e, r, cwnd) => ActA(e, r, cwnd)
    case ResendRst(byA) => ResendRst(!byA)
    case Lose(keptA, keptB) => Lose(keptB, keptA)
  }

  lemma {:induction false} SwappedRun(w: World, streamId: nat, run: seq<Step>, k: Setting) returns (swapped: seq<Step>)
    requires CanRun(w, streamId, run) && forall l :: l in run ==> Uses(l, k)
    ensures CanRun(w.Swap(), streamId, swapped) && After(w.Swap(), streamId, swapped) == After(w, streamId, run).Swap()
    ensures forall l :: l in swapped ==> Uses(l, k)
    decreases |run|
  {
    swapped := [];
    if run != [] {
      var l := Swapped(run[0]);
      assert CanStep(w.Swap(), l) && Stepped(w.Swap(), streamId, l) == Stepped(w, streamId, run[0]).Swap();
      var rest := SwappedRun(Stepped(w, streamId, run[0]), streamId, run[1..], k);
      swapped := [l] + rest;
      assert swapped[0] == l && swapped[1..] == rest;
      assert run[0] in run;
    }
  }

  /** The two endpoints play the same part. */
  lemma ReachesSwapped(w: World, v: World, k: Setting)
    requires Reaches(w, v, k)
    ensures Reaches(w.Swap(), v.Swap(), k)
  {
    var run :| CanRun(w, k.streamId, run) && After(w, k.streamId, run) == v && forall l :: l in run ==> Uses(l, k);
    var _ := SwappedRun(w, k.streamId, run, k);
  }

  // ----- Acting as one endpoint -----

  function Read(now: Time, k: Setting): Readings {
    Readings(now, k.rto, (_: Seqno) => AckReading(now, k.rttVar))
  }

  /** An endpoint that has only done housekeeping: it is as alive, and has the same
      writes, the same unacknowledged seqnos and the same received data. */
  ghost predicate KeptPeer(p: Peer, q: Peer) {
    && q.alive == p.alive && q.written == p.written && q.output == p.output
    && q.conn.flight.segs.Keys == p.conn.flight.segs.Keys
    && q.conn.nextFree == p.conn.nextFree
    && q.conn.buf == p.conn.buf
  }

  ghost predicate Kept(w: World, v: World) {
    && KeptPeer(w.a, v.a)
    && v.b == w.b && v.toA == w.toA && w.toB <= v.toB && w.clock <= v.clock
  }

  lemma RtoEffect(p: Peer, s: Seqno, now: Time, k: Setting)
    requires p.alive && s in p.conn.flight.segs
    ensures var q := PeerAfter(p, k.streamId, Rto(s), Read(now, k));
      q.conn == OnRto(p.conn, s).conn && KeptPeer(p, q)
  {
    assert p.output + [] == p.output;
  }

  lemma RetransmitEffect(p: Peer, s: Seqno, now: Time, k: Setting)
    requires p.alive && s in p.conn.flight.segs
    ensures var q := PeerAfter(p, k.streamId, Retransmit(s), Read(now, k));
      q.conn == OnRetransmit(p.conn, s, Read(now, k)).conn && KeptPeer(p, q)
    ensures p.conn.flight.segs[s].payload in Emitted(p, k.streamId, Retransmit(s), Read(now, k))
  {
    assert p.output + [] == p.output;
  }

  lemma AckTimerEffect(p: Peer, now: Time, k: Setting)
    requires p.alive
    ensures var q := PeerAfter(p, k.streamId, AckTimer, Read(now, k));
      q.conn == p.conn.(ackSeqnos := {}, ackTimer := None) && KeptPeer(p, q)
    ensures DataAck(k.streamId, p.conn.lowestUnseen, Some(Sorted(p.conn.ackSeqnos)))
         in Emitted(p, k.streamId, AckTimer, Read(now, k))
  {
    assert p.output + [] == p.output;
  }

  lemma DataEffect(p: Peer, m: Message, now: Time, k: Setting)
    requires p.alive && m.Data? && p.conn.buf.Valid()
    ensures var q := PeerAfter(p, k.streamId, NewPkt(m), Read(now, k));
      && q.alive && q.written == p.written && q.conn.flight == p.conn.flight && q.conn.ackTimer.Some?
      && (m.seqno <= p.conn.buf.min ==> m.seqno < q.conn.buf.min)
  {
    TakenReleasesTheRun(Inserted(p.conn.buf, m.seqno, m.payload).0);
  }

  lemma AckEffect(p: Peer, m: Message, now: Time, k: Setting)
    requires p.alive && m.DataAck? && m.selective.Some? && LostIsPast(p.conn.flight.segs, now)
    ensures var q := PeerAfter(p, k.streamId, NewPkt(m), Read(now, k));
      && q.written == p.written && (q.alive || q.conn.flight.segs == map[])
      && q.conn.flight.segs.Keys <= p.conn.flight.segs.Keys
      && forall s :: s in q.conn.flight.segs ==> s >= m.cumulative
  {
    var order := AckOrder(p.conn.flight.segs, m.cumulative, m.selective.value);
    AckedAllRemovesTheListed(p.conn.flight, order, Read(now, k).acks, now, now);
    forall s | s in Below(p.conn.flight.segs, m.cumulative) ensures s in order {
      assert s in Sorted(Below(p.conn.flight.segs, m.cumulative));
    }
  }

  /** One event of `a` at time `now`. */
  lemma Act(w: World, e: Event, now: Time, k: Setting) returns (v: World)
    requires Inv(w) && w.clock <= now && k.rto > 0
    requires w.a.alive && !e.Failure? && Enabled(w.a.conn, e, w.clock, now, k.cwnd) && (e.NewPkt? ==> e.msg in w.toA)
    ensures Reaches(w, v, k) && Inv(v)
    ensures v.a == PeerAfter(w.a, k.streamId, e, Read(now, k)) && v.b == w.b
    ensures v.toA == w.toA && v.toB == w.toB + Emitted(w.a, k.streamId, e, Read(now, k)) && v.clock == now
  {
    var l := ActA(e, Read(now, k), k.cwnd);
    v := Stepped(w, k.streamId, l);
    StepKeepsInv(w, k.streamId, l);
    ReachesByStep(w, l, k);
  }

  /** From a sound state, timeouts that are due and retransmissions that are ready can be
      worked off while the clock stands still. */
  lemma {:induction false} WorkOffBurst(w: World, k: Setting) returns (v: World)
    requires Inv(w) && w.a.alive && k.rto > 0
    ensures Reaches(w, v, k) && Inv(v) && Kept(w, v) && v.clock == w.clock
    ensures !RtoDue(v.a.conn, v.clock) && !RetransmitReady(v.a.conn, k.cwnd)
    decreases BurstMeasure(w.a.conn, w.clock)
  {
    var segs := w.a.conn.flight.segs;
    if RtoDue(w.a.conn, w.clock) {
      var due :| due in segs && !segs[due].knownLost && segs[due].retransTime <= w.clock;
      assert due in Unlost(segs);
      FirstToExpireExists(segs, Unlost(segs));
      var s :| FirstToExpire(segs, s);
      assert s in Due(w.a.conn, w.clock);
      var mid := Act(w, Rto(s), w.clock, k);
      RtoEffect(w.a, s, w.clock, k);
      RtoShrinksBurst(w.a.conn, s, w.clock);
      v := WorkOffBurst(mid, k);
      ReachesThrough(w, mid, v, k);
    } else if RetransmitReady(w.a.conn, k.cwnd) {
      var s := Least(Lost(segs));
      var mid := Act(w, Retransmit(s), w.clock, k);
      RetransmitEffect(w.a, s, w.clock, k);
      RetransmitShrinksBurst(w.a.conn, s, Read(w.clock, k));
      v := WorkOffBurst(mid, k);
      ReachesThrough(w, mid, v, k);
    } else {
      v := w;
      ReachesItself(w, k);
    }
  }

  /** After that, at most one forced acknowledgement stands before the next packet. */
  lemma BecomeQuiet(w: World, k: Setting) returns (v: World)
    requires Inv(w) && w.a.alive && k.rto > 0
    ensures Reaches(w, v, k) && Inv(v) && Kept(w, v) && v.clock == w.clock
    ensures Quiet(v.a.conn, v.clock, k.cwnd)
  {
    v := WorkOffBurst(w, k);
    if ForceAck(v.a.conn) {
      var u := Act(v, AckTimer, v.clock, k);
      AckTimerEffect(v.a, v.clock, k);
      ReachesThrough(w, v, u, k);
      v := u;
    }
  }

  ghost predicate AllPast(segs: Segments, now: Time) {
    forall s :: s in segs ==> segs[s].retransTime <= now
  }

  lemma RtoLosesOne(c: Conn, s: Seqno, now: Time)
    requires s in Unlost(c.flight.segs) && AllPast(c.flight.segs, now)
    ensures AllPast(OnRto(c, s).conn.flight.segs, now)
    ensures |Unlost(OnRto(c, s).conn.flight.segs)| < |Unlost(c.flight.segs)|
  {
    assert Unlost(OnRto(c, s).conn.flight.segs) == Unlost(c.flight.segs) - {s};
  }

  /** Once the clock is past every timeout, everything unacknowledged can be declared lost. */
  lemma {:induction false} LoseAll(w: World, k: Setting, now: Time) returns (v: World)
    requires Inv(w) && w.a.alive && k.rto > 0 && w.clock <= now
    requires AllPast(w.a.conn.flight.segs, now)
    ensures Reaches(w, v, k) && Inv(v) && Kept(w, v) && Unlost(v.a.conn.flight.segs) == {}
    decreases |Unlost(w.a.conn.flight.segs)|
  {
    var segs := w.a.conn.flight.segs;
    if Unlost(segs) == {} {
      v := w;
      ReachesItself(w, k);
    } else {
      FirstToExpireExists(segs, Unlost(segs));
      var s :| FirstToExpire(segs, s);
      var mid := Act(w, Rto(s), now, k);
      RtoEffect(w.a, s, now, k);
      RtoLosesOne(w.a.conn, s, now);
      v := LoseAll(mid, k, now);
      ReachesThrough(w, mid, v, k);
    }
  }

  lemma LatestTimeout(segs: Segments, clock: Time) returns (t: Time)
    ensures clock <= t && AllPast(segs, t)
  {
    var times := set s | s in segs :: segs[s].retransTime;
    t := clock;
    var left := times;
    while left != {}
      invariant clock <= t && left <= times
      invariant forall x :: x in times && x !in left ==> x <= t
      decreases |left|
    {
      var x :| x in left;
      t := if x > t then x else t;
      left := left - {x};
    }
    forall s | s in segs ensures segs[s].retransTime <= t {
      assert segs[s].retransTime in times;
    }
  }

  /** `a` can always put its oldest unacknowledged segment back on the wire. */
  lemma ResendOldest(w: World, k: Setting) returns (v: World, oldest: Seqno)
    requires Inv(w) && w.a.alive && k.rto > 0 && w.a.conn.flight.segs != map[]
    ensures Reaches(w, v, k) && Inv(v) && Kept(w, v)
    ensures oldest in v.a.conn.flight.segs && forall s :: s in v.a.conn.flight.segs ==> oldest <= s
    ensures exists m :: m in v.toB && m.Data? && m.seqno == oldest
  {
    var now := LatestTimeout(w.a.conn.flight.segs, w.clock);
    var mid := LoseAll(w, k, now);
    v, oldest := ResendLost(mid, k);
    ReachesThrough(w, mid, v, k);
  }

  lemma ResendLost(w: World, k: Setting) returns (v: World, oldest: Seqno)
    requires Inv(w) && w.a.alive && k.rto > 0
    requires w.a.conn.flight.segs.Keys != {} && Unlost(w.a.conn.flight.segs) == {}
    ensures Reaches(w, v, k) && Inv(v) && Kept(w, v)
    ensures oldest in v.a.conn.flight.segs && forall s :: s in v.a.conn.flight.segs ==> oldest <= s
    ensures exists m :: m in v.toB && m.Data? && m.seqno == oldest
  {
    var segs := w.a.conn.flight.segs;
    AllLost(segs);
    assert !RtoDue(w.a.conn, w.clock) by {
      assert forall s :: s in segs ==> s in Lost(segs);
    }
    oldest := Least(Lost(segs));
    v := Act(w, Retransmit(oldest), w.clock, k);
    RetransmitEffect(w.a, oldest, w.clock, k);
    var m := segs[oldest].payload;
    assert m in v.toB && m.Data? && m.seqno == oldest;
  }

  /** The receiver (as `a`) takes a segment off the wire and acknowledges past it. */
  lemma ReceiveAndAck(w: World, k: Setting, m: Message) returns (v: World, ack: Message)
    requires Inv(w) && w.a.alive && k.rto > 0
    requires m in w.toA && m.Data? && m.seqno <= w.a.conn.buf.min
    ensures Reaches(w, v, k) && Inv(v) && v.a.alive && v.b == w.b && v.toA == w.toA
    ensures v.a.written == w.a.written
    ensures ack in v.toB && ack.DataAck? && m.seqno < ack.cumulative
  {
    var mid := BecomeQuiet(w, k);
    var got := Act(mid, NewPkt(m), mid.clock, k);
    DataEffect(mid.a, m, mid.clock, k);
    var timer := got.a.conn.ackTimer.value;
    var now := if timer <= got.clock then got.clock else timer;
    v := Act(got, AckTimer, now, k);
    AckTimerEffect(got.a, now, k);
    ack := DataAck(k.streamId, got.a.conn.lowestUnseen, Some(Sorted(got.a.conn.ackSeqnos)));
    ReachesThrough(w, mid, got, k);
    ReachesThrough(w, got, v, k);
  }

  /** The sender takes an acknowledgement off the wire and lets go of what it covers. */
  lemma TakeAck(w: World, k: Setting, ack: Message, oldest: Seqno) returns (v: World)
    requires Inv(w) && w.a.alive && k.rto > 0
    requires ack in w.toA && ack.DataAck? && oldest < ack.cumulative && oldest in w.a.conn.flight.segs
    ensures Reaches(w, v, k) && Inv(v) && v.b == w.b && v.a.written == w.a.written
    ensures |v.a.conn.flight.segs| < |w.a.conn.flight.segs|
    ensures v.a.alive || v.a.conn.flight.segs == map[]
  {
    var mid := BecomeQuiet(w, k);
    v := Act(mid, NewPkt(ack), mid.clock, k);
    AckEffect(mid.a, ack, mid.clock, k);
    ReachesThrough(w, mid, v, k);
    FewerKeys(v.a.conn.flight.segs, w.a.conn.flight.segs, oldest);
  }

  lemma FewerKeys(small: Segments, big: Segments, gone: Seqno)
    requires small.Keys <= big.Keys && gone in big && gone !in small
    ensures |small| < |big|
  {
    SubsetSize(small.Keys, big.Keys - {gone});
    assert |small| == |small.Keys| && |big| == |big.Keys|;
  }

  /** One retransmission, one delivery and one acknowledgement: the sender has less to do. */
  lemma Round(w: World, k: Setting) returns (v: World)
    requires Inv(w) && w.a.alive && w.b.alive && k.rto > 0 && w.a.conn.flight.segs != map[]
    ensures Reaches(w, v, k) && Inv(v) && v.b.alive && v.a.written == w.a.written
    ensures |v.a.conn.flight.segs| < |w.a.conn.flight.segs|
    ensures v.a.alive || v.a.conn.flight.segs == map[]
  {
    var sent, oldest := ResendOldest(w, k);
    var m :| m in sent.toB && m.Data? && m.seqno == oldest;
    ReleasedUpTo(sent.a, sent.b, oldest);
    var swapped, ack := ReceiveAndAck(sent.Swap(), k, m);
    var acked := swapped.Swap();
    ReachesSwapped(sent.Swap(), swapped, k);
    assert sent.Swap().Swap() == sent;
    assert Inv(acked);
    v := TakeAck(acked, k, ack, oldest);
    ReachesThrough(w, sent, acked, k);
    ReachesThrough(w, acked, v, k);
    assert |sent.a.conn.flight.segs| == |sent.a.conn.flight.segs.Keys|;
    assert |w.a.conn.flight.segs| == |w.a.conn.flight.segs.Keys|;
  }

  lemma {:induction false} DrainSender(w: World, k: Setting) returns (v: World)
    requires Inv(w) && w.a.alive && w.b.alive && k.rto > 0
    ensures Reaches(w, v, k) && Inv(v) && v.a.written == w.a.written
    ensures v.a.conn.flight.segs == map[]
    decreases |w.a.conn.flight.segs|
  {
    if w.a.conn.flight.segs == map[] {
      v := w;
      ReachesItself(w, k);
    } else {
      v := Round(w, k);
      if v.a.conn.flight.segs != map[] {
        var u := DrainSender(v, k);
        ReachesThrough(w, v, u, k);
        v := u;
      }
    }
  }

  /** From every reachable state in which neither endpoint has given up, even after all
      messages under way are lost, and whatever the congestion window and the RTO, the
      endpoints can go on until the peer of either one has read everything it wrote so far and
      it knows. */
  lemma LossNeverWedgesTheStream(run: seq<Step>, byA: bool, k: Setting)
    requires CanRun(START, k.streamId, run) && k.rto > 0
    requires After(START, k.streamId, run).a.alive && After(START, k.streamId, run).b.alive
    ensures var w := From(After(START, k.streamId, run), byA);
      exists v :: Reaches(w.(toA := {}, toB := {}), v, k)
        && v.a.written == w.a.written && v.a.conn.flight.segs == map[]
        && v.b.output == Concat(w.a.written)
  {
    var w := From(After(START, k.streamId, run), byA);
    ReachableSatisfiesInv(k.streamId, run, byA);
    StepKeepsInv(w, k.streamId, Lose({}, {}));
    var cut := w.(toA := {}, toB := {});
    var v := DrainSender(cut, k);
    AllAckedMeansAllDelivered(v.a, v.b, v.toB, v.toA);
  }
}
