/** The endpoint as it runs: mutable fields, a second book of lost segments beside the
    one in `Inflight`, and one method per event (src/mux/relconn/connvars.rs). */
module ConnectionVars {
  import opened Common
  import opened Wire
  import opened Flight
  import opened Reordering
  import opened Tracking
  import opened Connection

  /** What is at hand when an event is chosen. */
  datatype Inputs = Inputs(pkt: Option<Message>, write: Option<Bytes>, endOfWrites: bool, failed: bool)

  class ConnVars {
    const inflight: Inflight
    const reorderer: Reorderer<Bytes>
    var nextFreeSeqno: Seqno
    var delayedAckTimer: Option<Time>
    var ackSeqnos: set<Seqno>
    var lowestUnseen: Seqno
    var closing: bool
    var lostSeqnos: set<Seqno>
    var ccAcks: nat

    constructor ()
      ensures Valid() && State() == NEW_CONN && fresh(inflight) && fresh(reorderer)
    {
      inflight := new Inflight();
      reorderer := new Reorderer<Bytes>();
      nextFreeSeqno, delayedAckTimer, ackSeqnos, lowestUnseen := 0, None, {}, 0;
      closing, lostSeqnos, ccAcks := false, {}, 0;
    }

    ghost function State(): Conn
      reads this, inflight, reorderer
    {
      Conn(inflight.State(), nextFreeSeqno, delayedAckTimer, ackSeqnos,
           reorderer.State(), lowestUnseen, closing, ccAcks)
    }

    /** The two books of lost segments agree. */
    ghost predicate Valid()
      reads this, inflight
    {
      inflight.Valid() && lostSeqnos == Lost(inflight.segments)
    }

    /** The consistency assertion that follows every event: it always holds. */
    method CheckBooks()
      requires Valid()
    {
      assert inflight.lostCount == |lostSeqnos|;
    }

    method CheckClosed() returns (verdict: Verdict)
      ensures verdict == Connection.CheckClosed(State())
    {
      var n := inflight.UnackedCount();
      verdict := if closing && n == 0 then DrainedAndClosed else Continue;
    }

    // ----- The choice of an event -----

    method CanWriteNew(cwnd: nat) returns (b: bool)
      requires Valid()
      ensures b == Connection.CanWriteNew(State(), cwnd)
    {
      var inFlight := inflight.InflightCount();
      var unacked := inflight.UnackedCount();
      var span := inflight.LastMinusFirst();
      b := inFlight <= cwnd && unacked <= cwnd && !closing && lostSeqnos == {} && span <= WRITE_SPAN;
      var segs := inflight.segments;
      if segs != map[] {
        ghost var first, last :| first in segs && last in segs && span == last - first
          && forall s :: s in segs ==> first <= s <= last;
        assert span <= WRITE_SPAN <==> SpanAtMost(segs, WRITE_SPAN);
      }
    }

    /** The timeout to wait for and the segment to retransmit, as the race sees them. An endpoint
        with anything unacknowledged is never left without both: unless a timeout is filed in the
        index, everything is known lost and a retransmission is ready under any window. */
    method Wakeups(cwnd: nat) returns (firstRto: Option<(Seqno, Time)>, retransmit: Option<Seqno>)
      requires Valid()
      ensures inflight.segments != map[] ==> firstRto.Some? || retransmit.Some?
      ensures firstRto.Some? ==>
        && FirstToExpire(inflight.segments, firstRto.value.0)
        && inflight.segments[firstRto.value.0].retransTime == firstRto.value.1
        && firstRto.value.1 in inflight.rtos && firstRto.value.0 in inflight.rtos[firstRto.value.1]
        && forall t :: t in inflight.rtos ==> firstRto.value.1 <= t
      ensures firstRto.None? ==> inflight.rtos == map[] && lostSeqnos == inflight.segments.Keys
      ensures retransmit.Some? <==> RetransmitReady(State(), cwnd)
      ensures retransmit.Some? ==> IsLeast(lostSeqnos, retransmit.value)
    {
      firstRto := inflight.FirstRto();
      var inFlight := inflight.InflightCount();
      var canRetransmit := inFlight <= cwnd;
      retransmit := if lostSeqnos != {} && canRetransmit then Some(Least(lostSeqnos)) else None;
      if Unlost(inflight.segments) == {} {
        AllLost(inflight.segments);
      }
    }

    /** Polls the sources in order of priority. What it picks is enabled and at hand, nothing of
        higher priority is ready, and it picks nothing only when nothing is ready. With anything unacknowledged it then still wakes up by
        itself: a timeout is filed in the index, and all of them lie ahead. */
    method NextEvent(now: Time, cwnd: nat, inputs: Inputs) returns (e: Option<Event>)
      requires Valid() && |ackSeqnos| <= ACK_BATCH
      requires inputs.write.Some? ==> 0 < |inputs.write.value| <= MSS
      ensures e.Some? ==> Enabled(State(), e.value, now, now, cwnd)
      ensures e.None? ==>
        && Quiet(State(), now, cwnd) && inputs.pkt.None? && !inputs.failed
        && !(delayedAckTimer.Some? && delayedAckTimer.value <= now)
        && (inputs.write.Some? || inputs.endOfWrites ==> !Connection.CanWriteNew(State(), cwnd))
      ensures e.None? && inflight.segments != map[] ==>
        inflight.rtos != map[] && forall t :: t in inflight.rtos ==> now < t
      ensures e.Some? && e.value.NewPkt? ==> inputs.pkt == Some(e.value.msg)
      ensures e.Some? && e.value.NewWrite? ==> inputs.write == Some(e.value.payload)
      ensures e == Some(Closing) ==> inputs.endOfWrites && inputs.write.None?
      ensures e == Some(Failure) ==> inputs.failed
      ensures
        if RtoDue(State(), now) then e.Some? && e.value.Rto? && FirstToExpire(inflight.segments, e.value.seqno)
        else if RetransmitReady(State(), cwnd) then e.Some? && e.value.Retransmit? && IsLeast(lostSeqnos, e.value.seqno)
        else if ForceAck(State()) || (delayedAckTimer.Some? && delayedAckTimer.value <= now) then e == Some(AckTimer)
        else if inputs.failed then e == Some(Failure)
        else if inputs.pkt.Some? then e == Some(NewPkt(inputs.pkt.value))
        else if !Connection.CanWriteNew(State(), cwnd) then e == None
        else if inputs.write.Some? then e == Some(NewWrite(inputs.write.value))
        else e == if inputs.endOfWrites then Some(Closing) else None
    {
      var firstRto, retransmit := Wakeups(cwnd);
      if firstRto.Some? && firstRto.value.1 <= now {
        return Some(Rto(firstRto.value.0));
      }
      assert !RtoDue(State(), now);
      if retransmit.Some? {
        return Some(Retransmit(retransmit.value));
      }
      var forceAck := |ackSeqnos| >= ACK_BATCH;
      if forceAck || (delayedAckTimer.Some? && delayedAckTimer.value <= now) {
        return Some(AckTimer);
      }
      if inputs.failed {
        return Some(Failure);
      }
      if inputs.pkt.Some? {
        return Some(NewPkt(inputs.pkt.value));
      }
      var canWriteNew := CanWriteNew(cwnd);
      if canWriteNew {
        if inputs.write.Some? {
          return Some(NewWrite(inputs.write.value));
        } else if inputs.endOfWrites {
          return Some(Closing);
        }
      }
      return None;
    }

    // ----- The events -----

    method OnRetransmit(seqno: Seqno, r: Readings) returns (sent: Option<Message>)
      requires Valid() && seqno in lostSeqnos
      modifies this`lostSeqnos, inflight
      ensures Valid() && sent.Some?
      ensures Outcome(State(), sent, [], Continue) == Connection.OnRetransmit(old(State()), seqno, r)
    {
      sent := inflight.Retransmit(seqno, r.now, r.rto);
      if sent.Some? {
        lostSeqnos := lostSeqnos - {seqno};
      }
      CheckBooks();
    }

    method OnRto(seqno: Seqno)
      requires Valid() && seqno in inflight.segments
      modifies this`lostSeqnos, inflight
      ensures Valid()
      ensures State() == Connection.OnRto(old(State()), seqno).conn
    {
      var _ := inflight.MarkLost(seqno);
      lostSeqnos := lostSeqnos + {seqno};
      CheckBooks();
    }

    method OnAckTimer(streamId: nat) returns (sent: Option<Message>)
      requires Valid() && |ackSeqnos| <= ACK_BATCH
      modifies this`ackSeqnos, this`delayedAckTimer
      ensures Valid()
      ensures Outcome(State(), sent, [], Continue) == Connection.OnAckTimer(old(State()), streamId)
    {
      var acks := Sorted(ackSeqnos);
      assert |acks| <= ACK_BATCH;
      sent := Some(DataAck(streamId, lowestUnseen, Some(acks)));
      ackSeqnos := {};
      delayedAckTimer := None;
      CheckBooks();
    }

    method OnWrite(streamId: nat, payload: Bytes, r: Readings) returns (sent: Option<Message>)
      requires Valid() && nextFreeSeqno !in inflight.segments && |payload| <= MSS
      modifies this`nextFreeSeqno, inflight
      ensures Valid()
      ensures Outcome(State(), sent, [], Continue) == Connection.OnWrite(old(State()), streamId, payload, r)
    {
      assert |payload| <= MSS;
      var seqno := nextFreeSeqno;
      nextFreeSeqno := nextFreeSeqno + 1;
      var msg := Data(streamId, seqno, payload);
      inflight.Insert(seqno, msg, r.now, r.rto);
      sent := Some(msg);
      CheckBooks();
    }

    method OnClosing() returns (verdict: Verdict)
      requires Valid()
      modifies this`closing
      ensures Valid()
      ensures Outcome(State(), None, [], verdict) == Connection.OnClosing(old(State()))
    {
      closing := true;
      verdict := CheckClosed();
    }

    method OnData(seqno: Seqno, payload: Bytes, r: Readings) returns (released: seq<Bytes>)
      requires Valid()
      modifies this`delayedAckTimer, this`ackSeqnos, this`lowestUnseen, reorderer
      ensures Valid()
      ensures Outcome(State(), None, released, Continue) == Connection.OnData(old(State()), seqno, payload, r)
    {
      if delayedAckTimer.None? {
        delayedAckTimer := Some(r.now + ACK_DELAY);
      }
      var accepted := reorderer.Insert(seqno, payload);
      if accepted {
        ackSeqnos := ackSeqnos + {seqno};
      }
      released := reorderer.Take();
      lowestUnseen := lowestUnseen + |released|;
      CheckBooks();
    }

    /** The selective part of an acknowledgement, after a cumulative part that has
        acknowledged `first`. */
    method MarkSelective(selective: seq<Seqno>, r: Readings,
                         ghost before: Unacked, ghost first: seq<Seqno>, ghost clock: Time)
      requires Valid() && Plausible(r, clock) && LostIsPast(before.segs, clock)
      requires forall s :: s in before.segs ==> before.segs[s].sendTime <= clock
      requires inflight.State() == AckedAll(before, first, r.acks)
      modifies this`lostSeqnos, this`ccAcks, inflight
      ensures Valid() && inflight.State() == AckedAll(before, first + selective, r.acks)
      ensures ccAcks == old(ccAcks) + inflight.delivered - old(inflight.delivered)
    {
      assert first + selective[..0] == first;
      for i := 0 to |selective|
        invariant Valid()
        invariant inflight.State() == AckedAll(before, first + selective[..i], r.acks)
        invariant ccAcks == old(ccAcks) + inflight.delivered - old(inflight.delivered)
      {
        var seqno := selective[i];
        NextSelective(before, first, selective, i, r, clock);
        lostSeqnos := lostSeqnos - {seqno};
        var found := inflight.MarkAcked(seqno, r.acks(seqno));
        if found {
          ccAcks := ccAcks + 1;
        }
      }
      assert selective[..|selective|] == selective;
    }

    method MarkCumulative(cumulative: Seqno, r: Readings, ghost clock: Time)
      requires Valid() && Plausible(r, clock) && Sound(State(), clock)
      modifies this`lostSeqnos, this`ccAcks, inflight
      ensures Valid()
      ensures inflight.State() == AckedAll(old(inflight.State()), Sorted(Below(old(inflight.segments), cumulative)), r.acks)
      ensures ccAcks == old(ccAcks) + inflight.delivered - old(inflight.delivered)
    {
      ghost var before := inflight.State();
      var n := inflight.MarkAckedLt(cumulative, r.acks, clock, r.now);
      ccAcks := ccAcks + n;
      lostSeqnos := set s | s in lostSeqnos && s >= cumulative;
      CumulativePart(before, cumulative, r, clock);
    }

    method MarkAll(cumulative: Seqno, selective: seq<Seqno>, r: Readings, ghost clock: Time)
      requires Valid() && Plausible(r, clock) && Sound(State(), clock)
      modifies this`lostSeqnos, this`ccAcks, inflight
      ensures Valid()
      ensures var order := AckOrder(old(inflight.segments), cumulative, selective);
        && inflight.State() == AckedAll(old(inflight.State()), order, r.acks)
        && ccAcks == old(ccAcks) + |Listed(old(inflight.segments), order)|
    {
      ghost var before := inflight.State();
      ghost var first := Sorted(Below(before.segs, cumulative));
      AckedCount(before, first + selective, r.acks, clock, r.now);
      MarkCumulative(cumulative, r, clock);
      CheckBooks();
      MarkSelective(selective, r, before, first, clock);
    }

    method OnAck(cumulative: Seqno, selective: Option<seq<Seqno>>, r: Readings, ghost clock: Time)
      returns (verdict: Verdict)
      requires Valid() && Sound(State(), clock) && Plausible(r, clock)
      modifies this`lostSeqnos, this`ccAcks, inflight
      ensures Valid()
      ensures Outcome(State(), None, [], verdict) == Connection.OnAck(old(State()), cumulative, selective, r)
    {
      CheckBooks();
      if selective.None? {
        return BadAckList;
      }
      MarkAll(cumulative, selective.value, r, clock);
      verdict := CheckClosed();
      CheckBooks();
    }

    method OnPkt(msg: Message, r: Readings, ghost clock: Time)
      returns (released: seq<Bytes>, verdict: Verdict)
      requires Valid() && Sound(State(), clock) && Plausible(r, clock)
      modifies this, inflight, reorderer
      ensures Valid()
      ensures Outcome(State(), None, released, verdict) == Connection.OnPkt(old(State()), msg, r)
    {
      released, verdict := [], Continue;
      match msg
      case Control(Rst, _) => verdict := GotRst;
      case DataAck(_, cumulative, selective) => verdict := OnAck(cumulative, selective, r, clock);
      case Data(_, seqno, payload) => released := OnData(seqno, payload, r);
      case _ =>
    }

    /** One event. Whatever is enabled by the sound state of the endpoint leads to the
        outcome that `Connection.Process` describes, and no assertion on the way fails. */
    method ProcessOne(streamId: nat, e: Event, r: Readings, ghost clock: Time, ghost cwnd: nat)
      returns (sent: Option<Message>, toApp: seq<Bytes>, verdict: Verdict)
      requires Valid() && Sound(State(), clock)
      requires Plausible(r, clock) && Enabled(State(), e, clock, r.now, cwnd)
      modifies this, inflight, reorderer
      ensures Valid() && Sound(State(), r.now)
      ensures Outcome(State(), sent, toApp, verdict) == Process(old(State()), streamId, e, r)
    {
      ProcessStaysSound(State(), streamId, e, r, clock, cwnd);
      CheckBooks();
      sent, toApp, verdict := None, [], Continue;
      match e
      case Retransmit(seqno) => sent := OnRetransmit(seqno, r);
      case Closing => verdict := OnClosing();
      case Rto(seqno) => OnRto(seqno);
      case NewPkt(msg) => toApp, verdict := OnPkt(msg, r, clock);
      case NewWrite(payload) => sent := OnWrite(streamId, payload, r);
      case AckTimer => sent := OnAckTimer(streamId);
      case Failure => verdict := EventFailed;
    }
  }

  lemma CumulativePart(u: Unacked, cumulative: Seqno, r: Readings, clock: Time)
    requires LostIsPast(u.segs, clock) && ReadingsWithin(r.acks, clock, r.now)
    ensures var after := AckedAll(u, Sorted(Below(u.segs, cumulative)), r.acks);
      && Lost(after.segs) == (set s | s in Lost(u.segs) && s >= cumulative)
      && after.delivered == u.delivered + |Below(u.segs, cumulative)|
  {
    var first := Sorted(Below(u.segs, cumulative));
    LostAfterAcks(u, first, r.acks, clock, r.now);
    AckedCount(u, first, r.acks, clock, r.now);
    assert Listed(u.segs, first) == Below(u.segs, cumulative);
  }

  /** Working through the selective list after the cumulative part, the next entry meets
      what `MarkAcked` needs, whether or not its segment is still there. */
  lemma NextSelective(u: Unacked, first: seq<Seqno>, rest: seq<Seqno>, i: nat, r: Readings, clock: Time)
    requires LostIsPast(u.segs, clock) && ReadingsWithin(r.acks, clock, r.now) && i < |rest|
    requires forall s :: s in u.segs ==> u.segs[s].sendTime <= clock
    ensures var mid := AckedAll(u, first + rest[..i], r.acks); var s := rest[i]; var at := r.acks(s);
      && LostIsPast(mid.segs, at.now)
      && (s in mid.segs ==> mid.segs[s].sendTime <= at.now)
      && Acked(mid, s, at) == AckedAll(u, first + rest[..i + 1], r.acks)
      && Lost(Acked(mid, s, at).segs) == Lost(mid.segs) - {s}
      && Acked(mid, s, at).delivered == mid.delivered + (if s in mid.segs then 1 else 0)
  {
    var list, s := first + rest[..i], rest[i];
    AckedAllRemovesTheListed(u, list, r.acks, clock, r.now);
    var mid := AckedAll(u, list, r.acks);
    assert clock <= r.acks(s).now <= r.now;
    assert s in mid.segs ==> SameSegment(u.segs[s], mid.segs[s], clock, r.now);
    assert (first + rest[..i + 1])[..|list|] == list;
    assert AckedAll(u, first + rest[..i + 1], r.acks) == Acked(mid, s, r.acks(s));
    assert LostIsPast(mid.segs, clock);
    assert Lost(Acked(mid, s, r.acks(s)).segs) == Lost(mid.segs) - {s};
  }
}
