/** Two endpoints and the network between them. The network may lose, duplicate,
    delay and reorder anything; the invariants relate both endpoints and every message
    under way, and hold in every state of every run. */
module Stream {
  import opened Common
  import opened Wire
  import opened Flight
  import opened Reordering
  import opened Connection

  /** An endpoint with its history: the buffers its application wrote to the stream,
      and the bytes handed to its application. */
  datatype Peer = Peer(conn: Conn, alive: bool, written: seq<Bytes>, output: Bytes)

  const NEW_PEER: Peer := Peer(NEW_CONN, true, [], [])

  /** `toA` and `toB` hold the messages that may still arrive. Delivery does not remove
      a message, so it can arrive again; `Lose` does. */
  datatype World = World(a: Peer, b: Peer, toA: set<Message>, toB: set<Message>, clock: Time) {
    function Swap(): World {
      World(b, a, toB, toA, clock)
    }
  }

  const START: World := World(NEW_PEER, NEW_PEER, {}, {}, 0)

  datatype Step =
    | ActA(e: Event, r: Readings, cwnd: nat)
    | ActB(e: Event, r: Readings, cwnd: nat)
    | ResendRst(byA: bool)
    | Lose(keptA: set<Message>, keptB: set<Message>)

  ghost predicate PeerCanAct(p: Peer, incoming: set<Message>, e: Event, r: Readings, clock: Time, cwnd: nat) {
    && p.alive
    && Plausible(r, clock)
    && Enabled(p.conn, e, clock, r.now, cwnd)
    && (e.NewPkt? ==> e.msg in incoming)
  }

  function PeerAfter(p: Peer, streamId: nat, e: Event, r: Readings): Peer {
    var o := Process(p.conn, streamId, e, r);
    Peer(o.conn, o.verdict == Continue,
         if e.NewWrite? then p.written + [e.payload] else p.written,
         p.output + Concat(o.toApp))
  }

  /** What an endpoint puts on the wire; one that gives up announces it with a reset. */
  function Emitted(p: Peer, streamId: nat, e: Event, r: Readings): set<Message> {
    var o := Process(p.conn, streamId, e, r);
    (if o.sent.Some? then {o.sent.value} else {})
    + (if o.verdict == Continue then {} else {Control(Rst, streamId)})
  }

  ghost predicate CanStep(w: World, l: Step) {
    match l
    case ActA(e, r, cwnd) => PeerCanAct(w.a, w.toA, e, r, w.clock, cwnd)
    case ActB(e, r, cwnd) => PeerCanAct(w.b, w.toB, e, r, w.clock, cwnd)
    case ResendRst(byA) => !(if byA then w.a else w.b).alive
    case Lose(keptA, keptB) => keptA <= w.toA && keptB <= w.toB
  }

  function Stepped(w: World, streamId: nat, l: Step): World {
    match l
    case ActA(e, r, _) =>
      w.(a := PeerAfter(w.a, streamId, e, r), toB := w.toB + Emitted(w.a, streamId, e, r), clock := r.now)
    case ActB(e, r, _) =>
      w.(b := PeerAfter(w.b, streamId, e, r), toA := w.toA + Emitted(w.b, streamId, e, r), clock := r.now)
    case ResendRst(byA) =>
      if byA then w.(toB := w.toB + {Control(Rst, streamId)}) else w.(toA := w.toA + {Control(Rst, streamId)})
    case Lose(keptA, keptB) => w.(toA := keptA, toB := keptB)
  }

  ghost predicate CanRun(w: World, streamId: nat, run: seq<Step>)
    decreases |run|
  {
    run == [] || (CanStep(w, run[0]) && CanRun(Stepped(w, streamId, run[0]), streamId, run[1..]))
  }

  function After(w: World, streamId: nat, run: seq<Step>): World
    decreases |run|
  {
    if run == [] then w else After(Stepped(w, streamId, run[0]), streamId, run[1..])
  }

  // ----- One direction of the stream -----

  /** What the segments of `snd`, the messages under way and the state of `rcv` say about
      the data that flows from `snd` to `rcv`; `fwd` travels with it, `back` against it. */
  ghost predicate Flow(snd: Peer, rcv: Peer, fwd: set<Message>, back: set<Message>) {
    && SenderHonest(snd, fwd)
    && ReceiverHonest(snd, rcv)
    && AcksHonest(rcv, back)
    && NothingForgotten(snd, rcv)
    && snd.conn.nextFree <= rcv.conn.buf.min + WINDOW + 2
  }

  /** Every segment, unacknowledged or under way, carries what was written at its seqno. */
  ghost predicate SenderHonest(snd: Peer, fwd: set<Message>) {
    && |snd.written| == snd.conn.nextFree
    && (forall s :: s in snd.conn.flight.segs ==>
          var m := snd.conn.flight.segs[s].payload;
          s < snd.conn.nextFree && m.Data? && m.seqno == s && m.payload == snd.written[s])
    && (forall m :: m in fwd && m.Data? ==> m.seqno < snd.conn.nextFree && m.payload == snd.written[m.seqno])
  }

  /** The receiver holds only what was written, and has released exactly the first `min` writes. */
  ghost predicate ReceiverHonest(snd: Peer, rcv: Peer) {
    && |snd.written| == snd.conn.nextFree
    && rcv.conn.buf.Valid() && rcv.conn.buf.Drained()
    && rcv.conn.lowestUnseen == rcv.conn.buf.min <= snd.conn.nextFree
    && (forall s :: s in rcv.conn.buf.pkts ==> s < snd.conn.nextFree && rcv.conn.buf.pkts[s] == snd.written[s])
    && rcv.output == Concat(snd.written[..rcv.conn.buf.min])
  }

  /** Only accepted segments are acknowledged. */
  ghost predicate AcksHonest(rcv: Peer, back: set<Message>) {
    && (forall s :: s in rcv.conn.ackSeqnos ==> rcv.conn.buf.Received(s))
    && (forall m :: m in back && m.DataAck? ==>
          && m.cumulative <= rcv.conn.buf.min && m.selective.Some?
          && forall s :: s in m.selective.value ==> rcv.conn.buf.Received(s))
  }

  ghost predicate NothingForgotten(snd: Peer, rcv: Peer) {
    forall s :: 0 <= s < snd.conn.nextFree ==> s in snd.conn.flight.segs || rcv.conn.buf.Received(s)
  }

  /** The invariant of the whole system. */
  ghost predicate Inv(w: World) {
    && Sound(w.a.conn, w.clock) && Sound(w.b.conn, w.clock)
    && Flow(w.a, w.b, w.toB, w.toA)
    && Flow(w.b, w.a, w.toA, w.toB)
  }

  // ----- The sender's events keep a direction -----

  /** Everything below the smallest unacknowledged seqno has been released by the receiver. */
  lemma ReleasedUpTo(snd: Peer, rcv: Peer, n: Seqno)
    requires NothingForgotten(snd, rcv) && rcv.conn.buf.Drained()
    requires n <= snd.conn.nextFree
    requires forall s :: s in snd.conn.flight.segs ==> n <= s
    ensures n <= rcv.conn.buf.min
  {
    var next := rcv.conn.buf.min;
    assert next < snd.conn.nextFree ==> next in snd.conn.flight.segs || rcv.conn.buf.Received(next);
  }

  /** The write gate keeps a new segment at most one past the receiver's window. */
  lemma WriteWithinWindow(snd: Peer, rcv: Peer)
    requires NothingForgotten(snd, rcv) && rcv.conn.buf.Valid() && rcv.conn.buf.Drained()
    requires forall s :: s in snd.conn.flight.segs ==> s < snd.conn.nextFree
    requires SpanAtMost(snd.conn.flight.segs, WRITE_SPAN)
    ensures snd.conn.nextFree <= rcv.conn.buf.min + WINDOW + 1
  {
    var n := snd.conn.nextFree;
    if n > 0 {
      if n - 1 in snd.conn.flight.segs {
        var first := Least(snd.conn.flight.segs.Keys);
        ReleasedUpTo(snd, rcv, first);
        assert n - 1 <= first + WRITE_SPAN;
      } else {
        assert rcv.conn.buf.Received(n - 1);
      }
    }
  }

  /** The sender keeps its writes, and every unacknowledged segment it still has. */
  ghost predicate OnlyLetsGo(snd: Peer, after: Peer) {
    && after.written == snd.written && after.conn.nextFree == snd.conn.nextFree
    && forall s :: s in after.conn.flight.segs ==>
         s in snd.conn.flight.segs && after.conn.flight.segs[s].payload == snd.conn.flight.segs[s].payload
  }

  lemma LettingGoKeepsFlow(snd: Peer, after: Peer, rcv: Peer, fwd: set<Message>, back: set<Message>)
    requires Flow(snd, rcv, fwd, back) && OnlyLetsGo(snd, after)
    requires forall s :: s in snd.conn.flight.segs && s !in after.conn.flight.segs ==> rcv.conn.buf.Received(s)
    ensures Flow(after, rcv, fwd, back)
  {
    forall s | 0 <= s < after.conn.nextFree
      ensures s in after.conn.flight.segs || rcv.conn.buf.Received(s)
    {
      assert s in snd.conn.flight.segs || rcv.conn.buf.Received(s);
    }
  }

  /** An acknowledgement releases only what the receiver has accepted, however stale it is. */
  lemma AckKeepsFlow(snd: Peer, rcv: Peer, fwd: set<Message>, back: set<Message>,
                     streamId: nat, msg: Message, r: Readings, clock: Time)
    requires Sound(snd.conn, clock) && Plausible(r, clock)
    requires Flow(snd, rcv, fwd, back) && msg in back && msg.DataAck?
    ensures Flow(PeerAfter(snd, streamId, NewPkt(msg), r), rcv, fwd, back)
  {
    var after := PeerAfter(snd, streamId, NewPkt(msg), r);
    var order := AckOrder(snd.conn.flight.segs, msg.cumulative, msg.selective.value);
    AckedAllRemovesTheListed(snd.conn.flight, order, r.acks, clock, r.now);
    assert after.conn.flight == AckedAll(snd.conn.flight, order, r.acks);
    forall s | s in after.conn.flight.segs
      ensures s in snd.conn.flight.segs && after.conn.flight.segs[s].payload == snd.conn.flight.segs[s].payload
    {
      assert SameSegment(snd.conn.flight.segs[s], after.conn.flight.segs[s], clock, r.now);
    }
    forall s | s in snd.conn.flight.segs && s in order
      ensures rcv.conn.buf.Received(s)
    {
      if s in Sorted(Below(snd.conn.flight.segs, msg.cumulative)) {
        assert s in Below(snd.conn.flight.segs, msg.cumulative);
      } else {
        assert s in msg.selective.value;
      }
    }
    LettingGoKeepsFlow(snd, after, rcv, fwd, back);
  }

  lemma WriteKeepsFlow(snd: Peer, rcv: Peer, fwd: set<Message>, back: set<Message>,
                       streamId: nat, payload: Bytes, r: Readings)
    requires Flow(snd, rcv, fwd, back) && SpanAtMost(snd.conn.flight.segs, WRITE_SPAN)
    ensures Flow(PeerAfter(snd, streamId, NewWrite(payload), r), rcv,
                 fwd + Emitted(snd, streamId, NewWrite(payload), r), back)
  {
    WriteWithinWindow(snd, rcv);
    var after := PeerAfter(snd, streamId, NewWrite(payload), r);
    assert after.written[..rcv.conn.buf.min] == snd.written[..rcv.conn.buf.min];
    assert Emitted(snd, streamId, NewWrite(payload), r) == {Data(streamId, snd.conn.nextFree, payload)};
  }

  lemma MoreOnTheWire(snd: Peer, rcv: Peer, fwd: set<Message>, back: set<Message>, more: set<Message>)
    requires Flow(snd, rcv, fwd, back)
    requires forall m :: m in more && m.Data? ==> m.seqno < snd.conn.nextFree && m.payload == snd.written[m.seqno]
    ensures Flow(snd, rcv, fwd + more, back)
  {
  }

  lemma RetransmitKeepsFlow(snd: Peer, rcv: Peer, fwd: set<Message>, back: set<Message>,
                            streamId: nat, s: Seqno, r: Readings)
    requires Flow(snd, rcv, fwd, back)
    ensures Flow(PeerAfter(snd, streamId, Retransmit(s), r), rcv, fwd + Emitted(snd, streamId, Retransmit(s), r), back)
  {
    var after := PeerAfter(snd, streamId, Retransmit(s), r);
    LettingGoKeepsFlow(snd, after, rcv, fwd, back);
    MoreOnTheWire(after, rcv, fwd, back, Emitted(snd, streamId, Retransmit(s), r));
  }

  /** Any other event leaves the unacknowledged segments and their payloads as they are. */
  lemma OtherEventsLetNothingGo(snd: Peer, streamId: nat, e: Event, r: Readings)
    requires !e.Retransmit? && !e.NewWrite? && !(e.NewPkt? && e.msg.DataAck?)
    requires forall s :: s in snd.conn.flight.segs ==> s < snd.conn.nextFree
    ensures OnlyLetsGo(snd, PeerAfter(snd, streamId, e, r))
    ensures PeerAfter(snd, streamId, e, r).conn.flight.segs.Keys == snd.conn.flight.segs.Keys
    ensures forall m :: m in Emitted(snd, streamId, e, r) ==> !m.Data?
  {
    match e
    case NewPkt(msg) =>
    case _ =>
  }

  lemma SenderKeepsFlow(snd: Peer, rcv: Peer, fwd: set<Message>, back: set<Message>,
                        streamId: nat, e: Event, r: Readings, clock: Time, cwnd: nat)
    requires Sound(snd.conn, clock) && Flow(snd, rcv, fwd, back)
    requires PeerCanAct(snd, back, e, r, clock, cwnd)
    ensures Flow(PeerAfter(snd, streamId, e, r), rcv, fwd + Emitted(snd, streamId, e, r), back)
  {
    hide Flow;
    var after := PeerAfter(snd, streamId, e, r);
    if e.Retransmit? {
      RetransmitKeepsFlow(snd, rcv, fwd, back, streamId, e.seqno, r);
    } else if e.NewWrite? {
      WriteKeepsFlow(snd, rcv, fwd, back, streamId, e.payload, r);
    } else {
      if e.NewPkt? && e.msg.DataAck? {
        AckKeepsFlow(snd, rcv, fwd, back, streamId, e.msg, r, clock);
        assert forall m :: m in Emitted(snd, streamId, e, r) ==> !m.Data?;
      } else {
        OtherEventsLetNothingGo(snd, streamId, e, r);
        LettingGoKeepsFlow(snd, after, rcv, fwd, back);
      }
      MoreOnTheWire(after, rcv, fwd, back, Emitted(snd, streamId, e, r));
    }
  }

  // ----- The receiver's events keep a direction -----

  /** A receiver event that accepts no data leaves the data it has alone. */
  lemma SameDataKeepsFlow(snd: Peer, rcv: Peer, after: Peer, fwd: set<Message>, back: set<Message>, more: set<Message>)
    requires Flow(snd, rcv, fwd, back)
    requires after.output == rcv.output && after.conn.buf == rcv.conn.buf
    requires after.conn.lowestUnseen == rcv.conn.lowestUnseen
    requires after.conn.ackSeqnos <= rcv.conn.ackSeqnos
    requires forall m :: m in more && m.DataAck? ==>
      && m.cumulative <= rcv.conn.buf.min && m.selective.Some?
      && forall s :: s in m.selective.value ==> s in rcv.conn.ackSeqnos
    ensures Flow(snd, after, fwd, back + more)
  {
  }

  /** A buffer that holds only what was written, at the right places. */
  ghost predicate HoldsWrites(buf: Buffered<Bytes>, written: seq<Bytes>) {
    && buf.Valid() && buf.min <= |written|
    && forall s :: s in buf.pkts ==> s < |written| && buf.pkts[s] == written[s]
  }

  /** Releasing from such a buffer releases the next writes, byte for byte. */
  lemma ReleasesNextWrites(buf: Buffered<Bytes>, written: seq<Bytes>)
    requires HoldsWrites(buf, written)
    ensures HoldsWrites(Taken(buf), written) && Taken(buf).Drained()
    ensures Taken(buf).min == buf.min + |Ready(buf)|
    ensures Concat(written[..Taken(buf).min]) == Concat(written[..buf.min]) + Concat(Ready(buf))
  {
    TakenReleasesTheRun(buf);
    var min, next, released := buf.min, Taken(buf).min, Ready(buf);
    if next > min {
      assert next - 1 in buf.pkts;
    }
    forall s | min <= s < next ensures written[s] == released[s - min] {
      assert s in buf.pkts;
    }
    NextWrites(written, min, next, released);
  }

  lemma NextWrites(written: seq<Bytes>, min: nat, next: nat, released: seq<Bytes>)
    requires min <= next <= |written| && |released| == next - min
    requires forall s :: min <= s < next ==> written[s] == released[s - min]
    ensures Concat(written[..next]) == Concat(written[..min]) + Concat(released)
  {
    assert written[..next] == written[..min] + released;
    ConcatSplit(written[..min], released);
  }

  lemma AcceptedStaysReceived(b: Buffered<Bytes>, s: Seqno, payload: Bytes, x: Seqno)
    requires b.Valid()
    ensures b.Received(x) ==> Taken(Inserted(b, s, payload).0).Received(x)
    ensures Inserted(b, s, payload).1 ==> Taken(Inserted(b, s, payload).0).Received(s)
  {
    TakenKeepsReceived(Inserted(b, s, payload).0, x);
    TakenKeepsReceived(Inserted(b, s, payload).0, s);
  }

  /** Accepting a segment that was honestly sent. */
  lemma DataKeepsFlow(snd: Peer, rcv: Peer, fwd: set<Message>, back: set<Message>,
                      streamId: nat, msg: Message, r: Readings)
    requires Flow(snd, rcv, fwd, back) && msg in fwd && msg.Data?
    ensures Flow(snd, PeerAfter(rcv, streamId, NewPkt(msg), r), fwd, back)
  {
    var after := PeerAfter(rcv, streamId, NewPkt(msg), r);
    var (buf, accepted) := Inserted(rcv.conn.buf, msg.seqno, msg.payload);
    assert HoldsWrites(buf, snd.written);
    ReleasesNextWrites(buf, snd.written);
    assert after.conn.buf == Taken(buf) && after.output == rcv.output + Concat(Ready(buf));
    forall s ensures rcv.conn.buf.Received(s) ==> after.conn.buf.Received(s) {
      AcceptedStaysReceived(rcv.conn.buf, msg.seqno, msg.payload, s);
    }
    assert ReceiverHonest(snd, after);
    assert AcksHonest(after, back) by {
      AcceptedStaysReceived(rcv.conn.buf, msg.seqno, msg.payload, msg.seqno);
    }
  }

  /** Any other event leaves the received data as it is and acknowledges only accepted segments. */
  lemma OtherEventsAcceptNothing(rcv: Peer, streamId: nat, e: Event, r: Readings)
    requires !(e.NewPkt? && e.msg.Data?)
    requires forall s :: s in rcv.conn.flight.segs ==> rcv.conn.flight.segs[s].payload.Data?
    ensures var after := PeerAfter(rcv, streamId, e, r);
      && after.output == rcv.output && after.conn.buf == rcv.conn.buf
      && after.conn.lowestUnseen == rcv.conn.lowestUnseen
      && after.conn.ackSeqnos <= rcv.conn.ackSeqnos
    ensures forall m :: m in Emitted(rcv, streamId, e, r) && m.DataAck? ==>
      m.cumulative == rcv.conn.lowestUnseen && m.selective == Some(Sorted(rcv.conn.ackSeqnos))
  {
    assert rcv.output + [] == rcv.output;
    if e.NewPkt? {
      OtherPktsSayNothing(rcv, e.msg, r);
    }
  }

  lemma OtherPktsSayNothing(rcv: Peer, msg: Message, r: Readings)
    requires !msg.Data?
    ensures var o := OnPkt(rcv.conn, msg, r);
      && o.sent.None? && o.toApp == [] && o.conn.buf == rcv.conn.buf
      && o.conn.lowestUnseen == rcv.conn.lowestUnseen && o.conn.ackSeqnos == rcv.conn.ackSeqnos
  {
  }

  lemma ReceiverKeepsFlow(snd: Peer, rcv: Peer, fwd: set<Message>, back: set<Message>,
                          streamId: nat, e: Event, r: Readings, clock: Time, cwnd: nat)
    requires Flow(snd, rcv, fwd, back)
    requires PeerCanAct(rcv, fwd, e, r, clock, cwnd)
    requires forall s :: s in rcv.conn.flight.segs ==> rcv.conn.flight.segs[s].payload.Data?
    ensures Flow(snd, PeerAfter(rcv, streamId, e, r), fwd, back + Emitted(rcv, streamId, e, r))
  {
    if e.NewPkt? && e.msg.Data? {
      DataKeepsFlow(snd, rcv, fwd, back, streamId, e.msg, r);
      assert back + Emitted(rcv, streamId, e, r) == back;
    } else {
      OtherEventsAcceptNothing(rcv, streamId, e, r);
      SameDataKeepsFlow(snd, rcv, PeerAfter(rcv, streamId, e, r), fwd, back, Emitted(rcv, streamId, e, r));
    }
  }

  // ----- Every step keeps the invariant -----

  lemma LossKeepsFlow(snd: Peer, rcv: Peer, fwd: set<Message>, back: set<Message>,
                      fwd': set<Message>, back': set<Message>)
    requires Flow(snd, rcv, fwd, back) && fwd' <= fwd && back' <= back
    ensures Flow(snd, rcv, fwd', back')
  {
  }

  lemma ActKeepsInv(w: World, streamId: nat, e: Event, r: Readings, cwnd: nat)
    requires Inv(w) && CanStep(w, ActA(e, r, cwnd))
    ensures Inv(Stepped(w, streamId, ActA(e, r, cwnd)))
  {
    ProcessStaysSound(w.a.conn, streamId, e, r, w.clock, cwnd);
    SoundLater(w.b.conn, w.clock, r.now);
    SenderKeepsFlow(w.a, w.b, w.toB, w.toA, streamId, e, r, w.clock, cwnd);
    ReceiverKeepsFlow(w.b, w.a, w.toA, w.toB, streamId, e, r, w.clock, cwnd);
  }

  lemma StepKeepsInv(w: World, streamId: nat, l: Step)
    requires Inv(w) && CanStep(w, l)
    ensures Inv(Stepped(w, streamId, l))
  {
    match l
    case ActA(e, r, cwnd) => ActKeepsInv(w, streamId, e, r, cwnd);
    case ActB(e, r, cwnd) => ActKeepsInv(w.Swap(), streamId, e, r, cwnd);
    case ResendRst(byA) =>
      if byA {
        MoreOnTheWire(w.a, w.b, w.toB, w.toA, {Control(Rst, streamId)});
        SameDataKeepsFlow(w.b, w.a, w.a, w.toA, w.toB, {Control(Rst, streamId)});
      } else {
        MoreOnTheWire(w.b, w.a, w.toA, w.toB, {Control(Rst, streamId)});
        SameDataKeepsFlow(w.a, w.b, w.b, w.toB, w.toA, {Control(Rst, streamId)});
      }
    case Lose(keptA, keptB) =>
      LossKeepsFlow(w.a, w.b, w.toB, w.toA, keptB, keptA);
      LossKeepsFlow(w.b, w.a, w.toA, w.toB, keptA, keptB);
  }

  lemma {:induction false} RunKeepsInv(w: World, streamId: nat, run: seq<Step>)
    requires Inv(w) && CanRun(w, streamId, run)
    ensures Inv(After(w, streamId, run))
    decreases |run|
  {
    if run != [] {
      StepKeepsInv(w, streamId, run[0]);
      RunKeepsInv(Stepped(w, streamId, run[0]), streamId, run[1..]);
    }
  }

  lemma StartSatisfiesInv()
    ensures Inv(START)
  {
    assert Concat([]) == [];
  }
}
