/** One endpoint of a reliable stream as a value, what each event does to it, and
    which events may be chosen (src/mux/relconn/connvars.rs). */
module Connection {
  import opened Common
  import opened Wire
  import opened Flight
  import opened Reordering

  const ACK_BATCH: nat := 32
  const ACK_DELAY: Time := 1_000
  const WRITE_SPAN: nat := 10_000

  /** `ccAcks` counts the acknowledgements reported to the congestion controller. */
  datatype Conn = Conn(
    flight: Unacked, nextFree: Seqno,
    ackTimer: Option<Time>, ackSeqnos: set<Seqno>,
    buf: Buffered<Bytes>, lowestUnseen: Seqno,
    closing: bool, ccAcks: nat)

  const NEW_CONN: Conn := Conn(Unacked(map[], 0), 0, None, {}, Buffered(map[], 0), 0, false, 0)

  datatype Event =
    | Rto(seqno: Seqno)
    | Retransmit(seqno: Seqno)
    | AckTimer
    | NewWrite(payload: Bytes)
    | NewPkt(msg: Message)
    | Closing
    | Failure

  datatype Verdict = Continue | GotRst | BadAckList | DrainedAndClosed | EventFailed

  /** What one event reads from its surroundings: the clock, the current RTO, and a
      reading for each segment that it may acknowledge. */
  datatype Readings = Readings(now: Time, rto: nat, acks: Seqno -> AckReading)

  /** The clock never runs backwards and the RTO is positive. */
  ghost predicate Plausible(r: Readings, clock: Time) {
    clock <= r.now && r.rto > 0 && ReadingsWithin(r.acks, clock, r.now)
  }

  /** The endpoint after an event, the message it transmits if any, the buffers it
      hands to the application, and whether it goes on. */
  datatype Outcome = Outcome(conn: Conn, sent: Option<Message>, toApp: seq<Bytes>, verdict: Verdict)

  // ----- The choice of an event -----

  ghost predicate RtoDue(c: Conn, t: Time) {
    exists s :: s in c.flight.segs && !c.flight.segs[s].knownLost && c.flight.segs[s].retransTime <= t
  }

  predicate CanRetransmit(c: Conn, cwnd: nat) {
    |Unlost(c.flight.segs)| <= cwnd
  }

  predicate RetransmitReady(c: Conn, cwnd: nat) {
    Lost(c.flight.segs) != {} && CanRetransmit(c, cwnd)
  }

  predicate ForceAck(c: Conn) {
    |c.ackSeqnos| >= ACK_BATCH
  }

  /** The largest unacknowledged seqno is within the write span of the smallest. */
  predicate SpanAtMost(segs: Segments, span: nat) {
    forall s, t :: s in segs && t in segs ==> t <= s + span
  }

  predicate CanWriteNew(c: Conn, cwnd: nat) {
    && CanRetransmit(c, cwnd)
    && |c.flight.segs| <= cwnd
    && !c.closing
    && Lost(c.flight.segs) == {}
    && SpanAtMost(c.flight.segs, WRITE_SPAN)
  }

  /** No event of higher priority than an incoming packet is certain to be chosen instead. */
  ghost predicate Quiet(c: Conn, clock: Time, cwnd: nat) {
    !RtoDue(c, clock) && !RetransmitReady(c, cwnd) && !ForceAck(c)
  }

  /** Events race in a fixed order of priority: a timeout, a retransmission, the
      acknowledgement timer, a failure, a packet, a write. An event is chosen only if its
      own guard holds and nothing of higher priority was ready when the choice began. */
  ghost predicate Enabled(c: Conn, e: Event, clock: Time, now: Time, cwnd: nat) {
    match e
    case Rto(s) => FirstToExpire(c.flight.segs, s) && c.flight.segs[s].retransTime <= now
    case Retransmit(s) =>
      !RtoDue(c, clock) && RetransmitReady(c, cwnd) && s == Least(Lost(c.flight.segs))
    case AckTimer =>
      && !RtoDue(c, clock) && !RetransmitReady(c, cwnd)
      && (ForceAck(c) || (c.ackTimer.Some? && c.ackTimer.value <= now))
    case Failure => Quiet(c, clock, cwnd)
    case NewPkt(_) => Quiet(c, clock, cwnd)
    case NewWrite(p) => Quiet(c, clock, cwnd) && CanWriteNew(c, cwnd) && 0 < |p| <= MSS
    case Closing => Quiet(c, clock, cwnd) && CanWriteNew(c, cwnd)
  }

  // ----- The effect of an event -----

  function CheckClosed(c: Conn): Verdict {
    if c.closing && c.flight.segs == map[] then DrainedAndClosed else Continue
  }

  function OnRto(c: Conn, s: Seqno): Outcome {
    Outcome(c.(flight := MarkedLost(c.flight, s)), None, [], Continue)
  }

  function OnRetransmit(c: Conn, s: Seqno, r: Readings): Outcome {
    Outcome(c.(flight := Resent(c.flight, s, r.now, r.rto)),
            if s in c.flight.segs then Some(c.flight.segs[s].payload) else None, [], Continue)
  }

  function OnAckTimer(c: Conn, streamId: nat): Outcome {
    Outcome(c.(ackSeqnos := {}, ackTimer := None),
            Some(DataAck(streamId, c.lowestUnseen, Some(Sorted(c.ackSeqnos)))), [], Continue)
  }

  function OnWrite(c: Conn, streamId: nat, payload: Bytes, r: Readings): Outcome {
    var msg := Data(streamId, c.nextFree, payload);
    Outcome(c.(flight := Sent(c.flight, c.nextFree, msg, r.now, r.rto), nextFree := c.nextFree + 1),
            Some(msg), [], Continue)
  }

  function OnClosing(c: Conn): Outcome {
    var after := c.(closing := true);
    Outcome(after, None, [], CheckClosed(after))
  }

  /** The seqnos a packet acknowledges, in the order in which it does: everything below
      the cumulative mark first, then the selective list. */
  function AckOrder(segs: Segments, cumulative: Seqno, selective: seq<Seqno>): seq<Seqno> {
    Sorted(Below(segs, cumulative)) + selective
  }

  function OnAck(c: Conn, cumulative: Seqno, selective: Option<seq<Seqno>>, r: Readings): Outcome {
    if selective.None? then Outcome(c, None, [], BadAckList)
    else
      var order := AckOrder(c.flight.segs, cumulative, selective.value);
      var after := c.(flight := AckedAll(c.flight, order, r.acks),
                      ccAcks := c.ccAcks + |Listed(c.flight.segs, order)|);
      Outcome(after, None, [], CheckClosed(after))
  }

  function OnData(c: Conn, s: Seqno, payload: Bytes, r: Readings): Outcome {
    var (buf, accepted) := Inserted(c.buf, s, payload);
    var released := Ready(buf);
    Outcome(c.(ackTimer := if c.ackTimer.None? then Some(r.now + ACK_DELAY) else c.ackTimer,
               ackSeqnos := if accepted then c.ackSeqnos + {s} else c.ackSeqnos,
               buf := Taken(buf),
               lowestUnseen := c.lowestUnseen + |released|),
            None, released, Continue)
  }

  function OnPkt(c: Conn, msg: Message, r: Readings): Outcome {
    match msg
    case Data(_, s, payload) => OnData(c, s, payload, r)
    case DataAck(_, cumulative, selective) => OnAck(c, cumulative, selective, r)
    case Control(Rst, _) => Outcome(c, None, [], GotRst)
    case _ => Outcome(c, None, [], Continue)
  }

  function Process(c: Conn, streamId: nat, e: Event, r: Readings): Outcome {
    match e
    case Rto(s) => OnRto(c, s)
    case Retransmit(s) => OnRetransmit(c, s, r)
    case AckTimer => OnAckTimer(c, streamId)
    case NewWrite(payload) => OnWrite(c, streamId, payload, r)
    case NewPkt(msg) => OnPkt(c, msg, r)
    case Closing => OnClosing(c)
    case Failure => Outcome(c, None, [], EventFailed)
  }

  // ----- What every event keeps -----

  /** The local invariant of one endpoint, relative to a clock that its past has not outrun. */
  ghost predicate Sound(c: Conn, clock: Time) {
    && LostIsPast(c.flight.segs, clock)
    && (forall s :: s in c.flight.segs ==>
          && s < c.nextFree && c.flight.segs[s].seqno == s
          && c.flight.segs[s].sendTime <= clock
          && c.flight.segs[s].delivered <= c.flight.delivered)
    && c.flight.delivered + |c.flight.segs| == c.nextFree
    && c.ccAcks == c.flight.delivered
    && c.lowestUnseen == c.buf.min
    && c.buf.Valid() && c.buf.Drained()
    && |c.ackSeqnos| <= ACK_BATCH
    && (c.ackSeqnos != {} ==> c.ackTimer.Some?)
  }

  lemma SetUpdateSize(segs: Segments, s: Seqno, seg: Segment)
    ensures s in segs ==> |segs[s := seg]| == |segs|
    ensures s !in segs ==> |segs[s := seg]| == |segs| + 1
  {
    assert |segs| == |segs.Keys| && |segs[s := seg]| == |segs[s := seg].Keys|;
    assert segs[s := seg].Keys == segs.Keys + {s};
  }

  lemma SplitSize(before: Segments, after: Segments, gone: set<Seqno>)
    requires before.Keys == after.Keys + gone && after.Keys !! gone
    ensures |before| == |after| + |gone|
  {
    assert |before| == |before.Keys| && |after| == |after.Keys|;
  }

  function Listed(segs: Segments, order: seq<Seqno>): set<Seqno> {
    set s | s in segs && s in order
  }

  lemma AckedCount(u: Unacked, order: seq<Seqno>, at: Seqno -> AckReading, from: Time, now: Time)
    requires LostIsPast(u.segs, from) && ReadingsWithin(at, from, now)
    ensures AckedAll(u, order, at).delivered == u.delivered + |Listed(u.segs, order)|
  {
    AckedAllRemovesTheListed(u, order, at, from, now);
    AckedAllConserves(u, order, at);
    var after := AckedAll(u, order, at).segs;
    assert forall s :: s in after.Keys + Listed(u.segs, order) <==> s in u.segs.Keys;
    SplitSize(u.segs, after, Listed(u.segs, order));
  }

  /** An acknowledgement releases exactly the segments below its mark and those it lists, each
      counted once as delivered, and leaves the payloads and the loss flags of the others alone. */
  lemma AckReleasesExactly(c: Conn, cumulative: Seqno, selective: seq<Seqno>, r: Readings, clock: Time)
    requires Sound(c, clock) && Plausible(r, clock)
    ensures var after := OnAck(c, cumulative, Some(selective), r).conn.flight;
      && (forall s :: s in after.segs <==> s in c.flight.segs && s >= cumulative && s !in selective)
      && (forall s :: s in after.segs ==> SameSegment(c.flight.segs[s], after.segs[s], clock, r.now))
      && after.delivered == c.flight.delivered + |c.flight.segs| - |after.segs|
  {
    var order := AckOrder(c.flight.segs, cumulative, selective);
    AckedAllRemovesTheListed(c.flight, order, r.acks, clock, r.now);
    AckedAllConserves(c.flight, order, r.acks);
    assert forall s :: s in order <==> s in Sorted(Below(c.flight.segs, cumulative)) || s in selective;
  }

  lemma AckStaysSound(c: Conn, cumulative: Seqno, selective: Option<seq<Seqno>>, r: Readings, clock: Time)
    requires Sound(c, clock) && Plausible(r, clock)
    ensures Sound(OnAck(c, cumulative, selective, r).conn, r.now)
  {
    if selective.Some? {
      var order := AckOrder(c.flight.segs, cumulative, selective.value);
      AckedCount(c.flight, order, r.acks, clock, r.now);
      AckedAllRemovesTheListed(c.flight, order, r.acks, clock, r.now);
      AckedAllConserves(c.flight, order, r.acks);
      var after := AckedAll(c.flight, order, r.acks).segs;
      assert forall s :: s in after ==> SameSegment(c.flight.segs[s], after[s], clock, r.now);
    }
  }

  lemma DataStaysSound(c: Conn, s: Seqno, payload: Bytes, r: Readings, clock: Time)
    requires Sound(c, clock) && Plausible(r, clock) && !ForceAck(c)
    ensures Sound(OnData(c, s, payload, r).conn, r.now)
  {
    TakenReleasesTheRun(Inserted(c.buf, s, payload).0);
  }

  lemma RtoStaysSound(c: Conn, s: Seqno, r: Readings, clock: Time)
    requires Sound(c, clock) && Plausible(r, clock)
    requires FirstToExpire(c.flight.segs, s) && c.flight.segs[s].retransTime <= r.now
    ensures Sound(OnRto(c, s).conn, r.now)
  {
    SetUpdateSize(c.flight.segs, s, c.flight.segs[s].(knownLost := true));
  }

  lemma RetransmitStaysSound(c: Conn, s: Seqno, r: Readings, clock: Time)
    requires Sound(c, clock) && Plausible(r, clock) && s in Lost(c.flight.segs)
    ensures Sound(OnRetransmit(c, s, r).conn, r.now)
  {
    SetUpdateSize(c.flight.segs, s, Resent(c.flight, s, r.now, r.rto).segs[s]);
  }

  lemma WriteStaysSound(c: Conn, streamId: nat, payload: Bytes, r: Readings, clock: Time)
    requires Sound(c, clock) && Plausible(r, clock)
    ensures Sound(OnWrite(c, streamId, payload, r).conn, r.now)
  {
    SetUpdateSize(c.flight.segs, c.nextFree, OnWrite(c, streamId, payload, r).conn.flight.segs[c.nextFree]);
  }

  lemma PktStaysSound(c: Conn, msg: Message, r: Readings, clock: Time)
    requires Sound(c, clock) && Plausible(r, clock) && !ForceAck(c)
    ensures Sound(OnPkt(c, msg, r).conn, r.now)
  {
    match msg
    case Data(_, s, payload) => DataStaysSound(c, s, payload, r, clock);
    case DataAck(_, cumulative, selective) => AckStaysSound(c, cumulative, selective, r, clock);
    case _ => SoundLater(c, clock, r.now);
  }

  lemma SoundLater(c: Conn, clock: Time, now: Time)
    requires Sound(c, clock) && clock <= now
    ensures Sound(c, now)
  {
  }

  /** Every event keeps the local invariant: a conserved delivery counter, one congestion
      report per delivered segment, a bounded acknowledgement batch under an armed timer,
      and known-lost segments that are past their timeout. */
  lemma ProcessStaysSound(c: Conn, streamId: nat, e: Event, r: Readings, clock: Time, cwnd: nat)
    requires Sound(c, clock) && Plausible(r, clock) && Enabled(c, e, clock, r.now, cwnd)
    ensures Sound(Process(c, streamId, e, r).conn, r.now)
  {
    match e
    case Rto(s) => RtoStaysSound(c, s, r, clock);
    case Retransmit(s) => RetransmitStaysSound(c, s, r, clock);
    case NewWrite(payload) => WriteStaysSound(c, streamId, payload, r, clock);
    case NewPkt(msg) => PktStaysSound(c, msg, r, clock);
    case _ => SoundLater(c, clock, r.now);
  }

  /** The write gate caps unacknowledged segments at one above the window. */
  lemma ProcessKeepsUnackedBound(c: Conn, streamId: nat, e: Event, r: Readings, clock: Time, cwnd: nat, bound: nat)
    requires Sound(c, clock) && Plausible(r, clock) && Enabled(c, e, clock, r.now, cwnd)
    requires cwnd <= bound && |c.flight.segs| <= bound + 1
    ensures |Process(c, streamId, e, r).conn.flight.segs| <= bound + 1
  {
    match e
    case Rto(s) => SetUpdateSize(c.flight.segs, s, c.flight.segs[s].(knownLost := true));
    case Retransmit(s) =>
      SetUpdateSize(c.flight.segs, s, Resent(c.flight, s, r.now, r.rto).segs[s]);
    case NewWrite(payload) =>
      SetUpdateSize(c.flight.segs, c.nextFree, OnWrite(c, streamId, payload, r).conn.flight.segs[c.nextFree]);
    case NewPkt(DataAck(_, cumulative, Some(selective))) =>
      var order := AckOrder(c.flight.segs, cumulative, selective);
      AckedCount(c.flight, order, r.acks, clock, r.now);
      AckedAllConserves(c.flight, order, r.acks);
    case _ =>
  }
}
