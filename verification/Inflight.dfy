/** The sender's bookkeeping with its redundant structures: the segment map, the
    timeout index and a lost counter, kept in step by separate code paths
    (src/mux/relconn/inflight.rs). */
module Tracking {
  import opened Common
  import opened Wire
  import opened Flight
  import opened RtoIndex

  lemma LostSizeWithout(segs: Segments, s: Seqno)
    requires s in segs
    ensures |Lost(segs - {s})| == |Lost(segs)| - (if segs[s].knownLost then 1 else 0)
  {
    assert Lost(segs - {s}) == Lost(segs) - {s};
  }

  lemma LostWithNew(segs: Segments, s: Seqno, seg: Segment)
    requires s !in segs
    ensures Lost(segs[s := seg]) == if seg.knownLost then Lost(segs) + {s} else Lost(segs)
  {
  }

  lemma EndsOfKeys(segs: Segments, keys: seq<Seqno>)
    requires Ascending(keys) && keys != [] && forall s :: s in keys <==> s in segs
    ensures keys[0] in segs && keys[|keys| - 1] in segs
    ensures forall s :: s in segs ==> keys[0] <= s <= keys[|keys| - 1]
  {
    assert keys[0] in keys && keys[|keys| - 1] in keys;
    assert forall s :: s in segs ==> s in keys;
  }

  lemma LostSizeAfter(segs: Segments, s: Seqno, seg: Segment)
    requires s in segs
    ensures |Lost(segs[s := seg])| ==
      |Lost(segs)| - (if segs[s].knownLost then 1 else 0) + (if seg.knownLost then 1 else 0)
  {
    var rest := Lost(segs) - {s};
    assert Lost(segs[s := seg]) == if seg.knownLost then rest + {s} else rest;
  }

  ghost function RetimedUpTo(segs: Segments, keys: seq<Seqno>, i: nat, acked: Segment, at: AckReading): Segments
    requires i <= |keys|
  {
    Retimed(segs, Elements(keys[..i]), acked, at)
  }

  lemma RetimedOneMore(segs: Segments, keys: seq<Seqno>, i: nat, acked: Segment, at: AckReading)
    requires i < |keys| && Ascending(keys)
    ensures Retimed(RetimedUpTo(segs, keys, i, acked, at), {keys[i]}, acked, at)
         == RetimedUpTo(segs, keys, i + 1, acked, at)
  {
    assert keys[..i + 1] == keys[..i] + [keys[i]];
    assert Elements(keys[..i + 1]) == Elements(keys[..i]) + {keys[i]};
    assert keys[i] !in keys[..i];
  }

  lemma RetimedUpToAll(segs: Segments, bound: Seqno, keys: seq<Seqno>, acked: Segment, at: AckReading)
    requires forall s :: s in keys <==> s in Below(segs, bound)
    ensures RetimedUpTo(segs, keys, |keys|, acked, at) == Retimed(segs, Below(segs, bound), acked, at)
  {
    assert keys[..|keys|] == keys;
    assert Elements(keys) == Below(segs, bound);
  }

  /** Working through a list of distinct unacknowledged seqnos, the next one is always
      still there and satisfies what `MarkAcked` needs. */
  lemma NextToAck(u: Unacked, list: seq<Seqno>, i: nat, at: Seqno -> AckReading, from: Time, now: Time)
    requires LostIsPast(u.segs, from) && ReadingsWithin(at, from, now)
    requires Ascending(list) && i < |list| && list[i] in u.segs
    requires u.segs[list[i]].sendTime <= from
    ensures var mid := AckedAll(u, list[..i], at);
      && list[i] in mid.segs && mid.segs[list[i]].sendTime <= at(list[i]).now
      && LostIsPast(mid.segs, at(list[i]).now)
      && Acked(mid, list[i], at(list[i])) == AckedAll(u, list[..i + 1], at)
  {
    AckedAllRemovesTheListed(u, list[..i], at, from, now);
    assert from <= at(list[i]).now <= now;
    assert list[i] !in list[..i];
    assert list[..i + 1][..i] == list[..i];
    assert SameSegment(u.segs[list[i]], AckedAll(u, list[..i], at).segs[list[i]], from, now);
  }

  class Inflight {
    var segments: Segments
    var rtos: Rtos
    var lostCount: nat
    /** The delivery counter of the bandwidth estimator. */
    var delivered: nat

    constructor ()
      ensures Valid() && State() == Unacked(map[], 0)
    {
      segments, rtos, lostCount, delivered := map[], map[], 0, 0;
    }

    ghost function State(): Unacked
      reads this
    {
      Unacked(segments, delivered)
    }

    /** The redundant structures agree with the segment map. */
    ghost predicate Valid()
      reads this
    {
      && lostCount == |Lost(segments)|
      && Indexes(rtos, segments)
      && (forall s :: s in segments ==> segments[s].seqno == s && segments[s].delivered <= delivered)
    }

    method UnackedCount() returns (n: nat)
      ensures n == |segments|
    {
      n := |segments|;
    }

    /** The subtraction cannot underflow. */
    method InflightCount() returns (n: nat)
      requires Valid()
      ensures n == |Unlost(segments)|
    {
      LostAndUnlostPartition(segments);
      n := |segments| - lostCount;
    }

    method LastMinusFirst() returns (span: nat)
      ensures segments == map[] ==> span == 0
      ensures segments != map[] ==>
        exists first, last :: first in segments && last in segments && span == last - first
          && forall s :: s in segments ==> first <= s <= last
    {
      hide Ascending;
      var keys := Sorted(segments.Keys);
      if |keys| == 0 {
        span := 0;
      } else {
        EndsOfKeys(segments, keys);
        span := keys[|keys| - 1] - keys[0];
      }
    }

    method FirstRto() returns (r: Option<(Seqno, Time)>)
      requires Valid()
      ensures r.None? <==> Unlost(segments) == {}
      ensures r.Some? ==> FirstToExpire(segments, r.value.0) && segments[r.value.0].retransTime == r.value.1
      ensures r.None? <==> rtos == map[]
      ensures r.Some? ==> r.value.1 in rtos && r.value.0 in rtos[r.value.1] && forall t :: t in rtos ==> r.value.1 <= t
    {
      var times := Sorted(rtos.Keys);
      if Unlost(segments) != {} {
        ghost var s :| s in Unlost(segments);
        assert segments[s].retransTime in rtos.Keys;
        assert segments[s].retransTime in times;
      }
      if |times| == 0 {
        r := None;
      } else {
        var t := times[0];
        assert t in times;
        assert forall u :: u in rtos ==> u in times;
        FirstBucketExpiresFirst(rtos, segments, t);
        r := Some((rtos[t][0], t));
        assert r.value.0 in Unlost(segments);
      }
    }

    method RemoveRto(retransTime: Time, seqno: Seqno)
      modifies this`rtos
      ensures rtos == Removed(old(rtos), retransTime, seqno)
    {
      if retransTime in rtos {
        var bucket := Without(rtos[retransTime], seqno);
        if bucket == [] {
          rtos := rtos - {retransTime};
        } else {
          rtos := rtos[retransTime := bucket];
        }
      }
    }

    method PushRto(retransTime: Time, seqno: Seqno)
      modifies this`rtos
      ensures rtos == Added(old(rtos), retransTime, seqno)
    {
      rtos := rtos[retransTime := (if retransTime in rtos then rtos[retransTime] else []) + [seqno]];
    }

    /** The caller must not reuse a seqno that is still unacknowledged. */
    method Insert(seqno: Seqno, msg: Message, now: Time, rto: nat)
      requires Valid() && seqno !in segments
      modifies this
      ensures Valid() && State() == Sent(old(State()), seqno, msg, now, rto)
    {
      hide Indexes;
      var seg := Segment(seqno, now, 0, msg, now + rto, delivered, false);
      LostWithNew(segments, seqno, seg);
      Attach(rtos, segments, seqno, seg);
      segments := segments[seqno := seg];
      PushRto(now + rto, seqno);
    }

    /** Reports whether there was such a segment. Bringing timeouts forward keeps the index
        exact only while every known-lost segment is already past its timeout. The two
        subtractions of the bandwidth estimator cannot underflow. */
    method MarkAcked(seqno: Seqno, at: AckReading) returns (found: bool)
      requires Valid() && LostIsPast(segments, at.now)
      requires seqno in segments ==> segments[seqno].sendTime <= at.now
      modifies this
      ensures Valid() && State() == Acked(old(State()), seqno, at)
      ensures found <==> seqno in old(segments)
    {
      hide Indexes;
      found := seqno in segments;
      if found {
        var seg := segments[seqno];
        LostSizeWithout(segments, seqno);
        Detach(rtos, segments, seqno);
        segments := segments - {seqno};
        delivered := delivered + 1;
        assert delivered - seg.delivered >= 1 && at.now - seg.sendTime >= 0;
        RemoveRto(seg.retransTime, seqno);
        if seg.knownLost {
          lostCount := lostCount - 1;
        }
        BringForwardBelow(seqno, seg, at);
      }
    }

    /** Brings forward the timeout of one older segment, if the acknowledgement warrants it. */
    method BringForward(s: Seqno, acked: Segment, at: AckReading)
      requires Valid() && LostIsPast(segments, at.now) && s in segments
      modifies this`segments, this`rtos
      ensures Valid() && LostIsPast(segments, at.now)
      ensures segments == Retimed(old(segments), {s}, acked, at)
    {
      hide Indexes;
      var seg := segments[s];
      if EarlyRetransmit(seg, acked, at) {
        var later := seg.(retransTime := at.now);
        Refile(rtos, segments, s, later);
        LostSizeAfter(segments, s, later);
        segments := segments[s := later];
        RemoveRto(seg.retransTime, s);
        PushRto(at.now, s);
      }
    }

    method BringForwardBelow(bound: Seqno, acked: Segment, at: AckReading)
      requires Valid() && LostIsPast(segments, at.now)
      modifies this`segments, this`rtos
      ensures Valid() && segments == Retimed(old(segments), Below(old(segments), bound), acked, at)
    {
      hide Indexes;
      ghost var segs := segments;
      var keys := Sorted(Below(segments, bound));
      assert RetimedUpTo(segs, keys, 0, acked, at) == segs;
      for i := 0 to |keys|
        invariant segments == RetimedUpTo(segs, keys, i, acked, at)
        invariant Valid() && LostIsPast(segments, at.now)
      {
        assert keys[i] in keys;
        BringForward(keys[i], acked, at);
        RetimedOneMore(segs, keys, i, acked, at);
      }
      RetimedUpToAll(segs, bound, keys, acked, at);
    }

    /** Acknowledges everything below `bound`, in order, and counts it. */
    method MarkAckedLt(bound: Seqno, at: Seqno -> AckReading, ghost from: Time, ghost now: Time)
      returns (sum: nat)
      requires Valid() && LostIsPast(segments, from) && ReadingsWithin(at, from, now)
      requires forall s :: s in segments ==> segments[s].sendTime <= from
      modifies this
      ensures Valid()
      ensures State() == AckedAll(old(State()), Sorted(Below(old(segments), bound)), at)
      ensures sum == |Below(old(segments), bound)|
    {
      hide Indexes;
      ghost var before := State();
      var toRemove := Sorted(Below(segments, bound));
      sum := 0;
      for i := 0 to |toRemove|
        invariant Valid() && sum == i
        invariant State() == AckedAll(before, toRemove[..i], at)
      {
        var s := toRemove[i];
        assert s in toRemove;
        NextToAck(before, toRemove, i, at, from, now);
        var found := MarkAcked(s, at(s));
        sum := sum + (if found then 1 else 0);
      }
      assert toRemove[..|toRemove|] == toRemove;
    }

    method MarkLost(seqno: Seqno) returns (found: bool)
      requires Valid()
      modifies this
      ensures Valid() && State() == MarkedLost(old(State()), seqno)
      ensures found <==> seqno in old(segments)
    {
      hide Indexes;
      found := seqno in segments;
      if found {
        var seg := segments[seqno];
        var lost := seg.(knownLost := true);
        Refile(rtos, segments, seqno, lost);
        LostSizeAfter(segments, seqno, lost);
        segments := segments[seqno := lost];
        RemoveRto(seg.retransTime, seqno);
        if !seg.knownLost {
          lostCount := lostCount + 1;
        }
      }
    }

    /** The lost counter goes down unconditionally: a segment that is still present must
        be known lost, or the counter and the segments part ways. */
    method Retransmit(seqno: Seqno, now: Time, rto: nat) returns (msg: Option<Message>)
      requires Valid() && (seqno in segments ==> segments[seqno].knownLost)
      modifies this
      ensures Valid() && State() == Resent(old(State()), seqno, now, rto)
      ensures msg == if seqno in old(segments) then Some(old(segments)[seqno].payload) else None
    {
      hide Indexes;
      if seqno !in segments {
        return None;
      }
      var previous := segments[seqno];
      var seg := previous.(retrans := previous.retrans + 1,
                       retransTime := now + rto * Pow2(previous.retrans + 1),
                       knownLost := false);
      Refile(rtos, segments, seqno, seg);
      LostSizeAfter(segments, seqno, seg);
      segments := segments[seqno := seg];
      RemoveRto(previous.retransTime, seqno);
      PushRto(seg.retransTime, seqno);
      lostCount := lostCount - 1;
      msg := Some(previous.payload);
    }
  }
}
