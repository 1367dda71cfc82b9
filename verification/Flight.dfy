/** What the sender knows about its unacknowledged segments, stated without any of
    the indexes the implementation keeps beside them. `Tracking.Inflight` refines it. */
module Flight {
  import opened Common
  import opened Wire

  /** One unacknowledged segment. `delivered` is the delivery counter when it was first sent. */
  datatype Segment = Segment(
    seqno: Seqno, sendTime: Time, retrans: nat, payload: Message,
    retransTime: Time, delivered: nat, knownLost: bool)

  type Segments = map<Seqno, Segment>

  /** The clock and the RTT spread at the moment one segment is acknowledged. */
  datatype AckReading = AckReading(now: Time, rttVar: nat)

  datatype Unacked = Unacked(segs: Segments, delivered: nat)

  function Lost(segs: Segments): set<Seqno> {
    set s | s in segs && segs[s].knownLost
  }

  function Unlost(segs: Segments): set<Seqno> {
    set s | s in segs && !segs[s].knownLost
  }

  lemma LostAndUnlostPartition(segs: Segments)
    ensures |Lost(segs)| + |Unlost(segs)| == |segs|
  {
    assert segs.Keys == Lost(segs) + Unlost(segs);
    assert |segs| == |segs.Keys|;
  }

  lemma AllLost(segs: Segments)
    requires Unlost(segs) == {}
    ensures Lost(segs) == segs.Keys
  {
    forall s | s in segs ensures s in Lost(segs) {
      assert s !in Unlost(segs);
    }
  }

  /** Not acknowledged, not known lost, and with the earliest timeout among those. */
  predicate FirstToExpire(segs: Segments, s: Seqno) {
    && s in segs && !segs[s].knownLost
    && forall x :: x in segs && !segs[x].knownLost ==> segs[s].retransTime <= segs[x].retransTime
  }

  /** No segment is declared lost before its timeout has passed. */
  ghost predicate LostIsPast(segs: Segments, now: Time) {
    forall s :: s in segs && segs[s].knownLost ==> segs[s].retransTime <= now
  }

  // ----- The operations -----

  /** Whether the acknowledgement of `acked` brings the timeout of an older segment forward. */
  predicate EarlyRetransmit(seg: Segment, acked: Segment, at: AckReading) {
    seg.retrans == 0 && seg.retransTime + at.rttVar * 2 <= acked.retransTime && seg.retransTime > at.now
  }

  function Retimed(segs: Segments, below: set<Seqno>, acked: Segment, at: AckReading): Segments {
    map s | s in segs ::
      if s in below && EarlyRetransmit(segs[s], acked, at) then segs[s].(retransTime := at.now) else segs[s]
  }

  function Below(segs: Segments, bound: Seqno): set<Seqno> {
    set s | s in segs && s < bound
  }

  function Acked(u: Unacked, s: Seqno, at: AckReading): Unacked {
    if s !in u.segs then u
    else
      var rest := u.segs - {s};
      Unacked(Retimed(rest, Below(rest, s), u.segs[s], at), u.delivered + 1)
  }

  /** Acknowledges the listed seqnos one after the other. */
  function AckedAll(u: Unacked, list: seq<Seqno>, at: Seqno -> AckReading): Unacked {
    if list == [] then u
    else
      var last := list[|list| - 1];
      Acked(AckedAll(u, list[..|list| - 1], at), last, at(last))
  }

  function Sent(u: Unacked, s: Seqno, msg: Message, now: Time, rto: nat): Unacked {
    u.(segs := u.segs[s := Segment(s, now, 0, msg, now + rto, u.delivered, false)])
  }

  function MarkedLost(u: Unacked, s: Seqno): Unacked {
    if s in u.segs then u.(segs := u.segs[s := u.segs[s].(knownLost := true)]) else u
  }

  /** The next timeout doubles with every retransmission. */
  function Resent(u: Unacked, s: Seqno, now: Time, rto: nat): Unacked {
    if s !in u.segs then u
    else
      var seg := u.segs[s];
      u.(segs := u.segs[s := seg.(retrans := seg.retrans + 1,
                                  retransTime := now + rto * Pow2(seg.retrans + 1),
                                  knownLost := false)])
  }

  // ----- Acknowledgements -----

  /** What acknowledging may change about a segment that stays: its timeout, and only
      by bringing that of a segment not known to be lost forward to the present. */
  ghost predicate SameSegment(before: Segment, after: Segment, from: Time, now: Time) {
    && after == before.(retransTime := after.retransTime)
    && (after.retransTime != before.retransTime ==>
          !before.knownLost && from <= after.retransTime <= now && after.retransTime < before.retransTime)
  }

  ghost predicate ReadingsWithin(at: Seqno -> AckReading, from: Time, now: Time) {
    forall s :: from <= at(s).now <= now
  }

  lemma {:induction false} AckedAllRemovesTheListed(
      u: Unacked, list: seq<Seqno>, at: Seqno -> AckReading, from: Time, now: Time)
    requires LostIsPast(u.segs, from) && ReadingsWithin(at, from, now)
    ensures var after := AckedAll(u, list, at);
      && LostIsPast(after.segs, from)
      && (forall s :: s in after.segs <==> s in u.segs && s !in list)
      && (forall s :: s in after.segs ==> SameSegment(u.segs[s], after.segs[s], from, now))
  {
    if list != [] {
      var front, last := list[..|list| - 1], list[|list| - 1];
      AckedAllRemovesTheListed(u, front, at, from, now);
      assert list == front + [last];
      assert from <= at(last).now <= now;
    }
  }

  lemma {:induction false} AckedAllConcat(u: Unacked, a: seq<Seqno>, b: seq<Seqno>, at: Seqno -> AckReading)
    ensures AckedAll(u, a + b, at) == AckedAll(AckedAll(u, a, at), b, at)
    decreases |b|
  {
    if b == [] {
      assert a + b == a;
    } else {
      var front := b[..|b| - 1];
      AckedAllConcat(u, a, front, at);
      assert (a + b)[..|a + b| - 1] == a + front;
    }
  }

  /** Each acknowledged segment is counted once, however often it is acknowledged. */
  lemma {:induction false} AckedAllConserves(u: Unacked, list: seq<Seqno>, at: Seqno -> AckReading)
    ensures AckedAll(u, list, at).delivered + |AckedAll(u, list, at).segs| == u.delivered + |u.segs|
  {
    if list != [] {
      var front, last := list[..|list| - 1], list[|list| - 1];
      AckedAllConserves(u, front, at);
      var mid := AckedAll(u, front, at);
      if last in mid.segs {
        assert mid.segs.Keys == (mid.segs.Keys - {last}) + {last};
        assert Acked(mid, last, at(last)).segs.Keys == mid.segs.Keys - {last};
        assert |mid.segs| == |mid.segs.Keys| && |Acked(mid, last, at(last)).segs| == |mid.segs.Keys - {last}|;
      }
    }
  }

  /** Early retransmission: a timeout is brought forward only for a segment never retransmitted,
      by the acknowledgement of a newer one that would have timed out at least twice the RTT
      spread after it. */
  lemma {:induction false} OnlyOlderAreBroughtForward(
      u: Unacked, list: seq<Seqno>, at: Seqno -> AckReading, from: Time, now: Time, s: Seqno)
    requires LostIsPast(u.segs, from) && ReadingsWithin(at, from, now)
    requires s in AckedAll(u, list, at).segs && s in u.segs
    requires AckedAll(u, list, at).segs[s].retransTime != u.segs[s].retransTime
    ensures u.segs[s].retrans == 0
    ensures exists x :: x in list && x in u.segs && s < x && u.segs[s].retransTime + at(x).rttVar * 2 <= u.segs[x].retransTime
  {
    var front, last := list[..|list| - 1], list[|list| - 1];
    var mid := AckedAll(u, front, at);
    AckedAllRemovesTheListed(u, front, at, from, now);
    assert list == front + [last];
    assert SameSegment(u.segs[s], mid.segs[s], from, now);
    if mid.segs[s].retransTime != u.segs[s].retransTime {
      OnlyOlderAreBroughtForward(u, front, at, from, now, s);
    } else {
      assert SameSegment(u.segs[last], mid.segs[last], from, now);
    }
  }

  /** Segment x is newer than s and would have timed out at least twice the RTT spread after it. */
  predicate Overtakes(u: Unacked, x: Seqno, s: Seqno, spread: nat) {
    x in u.segs && s in u.segs && s < x && u.segs[s].retransTime + spread * 2 <= u.segs[x].retransTime
  }

  lemma {:induction false} OvertakenIsBroughtForward(
      u: Unacked, list: seq<Seqno>, at: Seqno -> AckReading, from: Time, now: Time, s: Seqno, x: Seqno)
    requires LostIsPast(u.segs, from) && ReadingsWithin(at, from, now)
    requires s in u.segs && s !in list && u.segs[s].retrans == 0
    requires x in list && Overtakes(u, x, s, at(x).rttVar)
    ensures s in AckedAll(u, list, at).segs && AckedAll(u, list, at).segs[s].retransTime <= now
    decreases |list|
  {
    var front, last := list[..|list| - 1], list[|list| - 1];
    assert list == front + [last];
    assert from <= at(last).now <= now;
    AckedAllRemovesTheListed(u, front, at, from, now);
    var mid := AckedAll(u, front, at);
    assert SameSegment(u.segs[s], mid.segs[s], from, now);
    if x in front {
      OvertakenIsBroughtForward(u, front, at, from, now, s, x);
    } else {
      assert SameSegment(u.segs[x], mid.segs[x], from, now);
      if mid.segs[x].retransTime != u.segs[x].retransTime {
        OnlyOlderAreBroughtForward(u, front, at, from, now, x);
        var y :| y in front && y in u.segs && x < y && u.segs[x].retransTime + at(y).rttVar * 2 <= u.segs[y].retransTime;
        OvertakenIsBroughtForward(u, front, at, from, now, s, y);
      }
    }
  }

  /** Early retransmission, exactly: of the segments an acknowledgement leaves, those are due by the
      end of it that were due anyway, and those never retransmitted that an acknowledged one overtakes. */
  lemma DueAfterAcksIff(u: Unacked, list: seq<Seqno>, at: Seqno -> AckReading, from: Time, now: Time, s: Seqno)
    requires LostIsPast(u.segs, from) && ReadingsWithin(at, from, now)
    requires s in u.segs && s !in list
    ensures s in AckedAll(u, list, at).segs
    ensures AckedAll(u, list, at).segs[s].retransTime <= now <==>
      || u.segs[s].retransTime <= now
      || (u.segs[s].retrans == 0 && exists x :: x in list && Overtakes(u, x, s, at(x).rttVar))
  {
    AckedAllRemovesTheListed(u, list, at, from, now);
    var after := AckedAll(u, list, at).segs[s];
    assert SameSegment(u.segs[s], after, from, now);
    if after.retransTime != u.segs[s].retransTime {
      OnlyOlderAreBroughtForward(u, list, at, from, now, s);
      var x :| x in list && x in u.segs && s < x && u.segs[s].retransTime + at(x).rttVar * 2 <= u.segs[x].retransTime;
      assert Overtakes(u, x, s, at(x).rttVar);
    } else if x :| u.segs[s].retrans == 0 && x in list && Overtakes(u, x, s, at(x).rttVar) {
      OvertakenIsBroughtForward(u, list, at, from, now, s, x);
    }
  }

  /** The lost segments left after an acknowledgement are the ones it did not list. */
  lemma LostAfterAcks(u: Unacked, list: seq<Seqno>, at: Seqno -> AckReading, from: Time, now: Time)
    requires LostIsPast(u.segs, from) && ReadingsWithin(at, from, now)
    ensures Lost(AckedAll(u, list, at).segs) == set s | s in Lost(u.segs) && s !in list
  {
    AckedAllRemovesTheListed(u, list, at, from, now);
    var after := AckedAll(u, list, at);
    forall s | s in after.segs
      ensures after.segs[s].knownLost == u.segs[s].knownLost
    {
      assert SameSegment(u.segs[s], after.segs[s], from, now);
    }
  }
}
