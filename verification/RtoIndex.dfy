/** The index from timeouts to segments that lets the sender find the next timeout
    without scanning (the `rtos` map of src/mux/relconn/inflight.rs). */
module RtoIndex {
  import opened Common
  import opened Flight

  type Rtos = map<Time, seq<Seqno>>

  /** The index lists every segment not known lost, once, under its own timeout; it
      lists nothing else and holds no empty bucket. */
  ghost predicate Indexes(rtos: Rtos, segs: Segments) {
    && (forall t :: t in rtos ==> rtos[t] != [] && Distinct(rtos[t]))
    && (forall t, s :: t in rtos && s in rtos[t] ==>
          s in segs && !segs[s].knownLost && segs[s].retransTime == t)
    && (forall s :: s in segs && !segs[s].knownLost ==>
          segs[s].retransTime in rtos && s in rtos[segs[s].retransTime])
  }

  function Without(bucket: seq<Seqno>, s: Seqno): seq<Seqno> {
    if bucket == [] then []
    else if bucket[0] == s then Without(bucket[1..], s)
    else [bucket[0]] + Without(bucket[1..], s)
  }

  lemma {:induction false} WithoutDropsOnly(bucket: seq<Seqno>, s: Seqno)
    ensures forall x :: x in Without(bucket, s) <==> x in bucket && x != s
    ensures Distinct(bucket) ==> Distinct(Without(bucket, s))
  {
    if bucket != [] {
      var rest := bucket[1..];
      assert bucket == [bucket[0]] + rest;
      WithoutDropsOnly(rest, s);
      if Distinct(bucket) {
        assert Distinct(rest);
        assert bucket[0] !in rest;
      }
    }
  }

  function Removed(rtos: Rtos, t: Time, s: Seqno): Rtos {
    if t !in rtos then rtos
    else
      var bucket := Without(rtos[t], s);
      if bucket == [] then rtos - {t} else rtos[t := bucket]
  }

  function Added(rtos: Rtos, t: Time, s: Seqno): Rtos {
    rtos[t := (if t in rtos then rtos[t] else []) + [s]]
  }

  /** Taking a segment out of the index under its own timeout leaves an index of the others. */
  lemma Detach(rtos: Rtos, segs: Segments, s: Seqno)
    requires Indexes(rtos, segs) && s in segs
    ensures Indexes(Removed(rtos, segs[s].retransTime, s), segs - {s})
  {
    var t := segs[s].retransTime;
    if t in rtos {
      WithoutDropsOnly(rtos[t], s);
    }
  }

  lemma Attach(rtos: Rtos, segs: Segments, s: Seqno, seg: Segment)
    requires Indexes(rtos, segs) && s !in segs && !seg.knownLost
    ensures Indexes(Added(rtos, seg.retransTime, s), segs[s := seg])
  {
    var t := seg.retransTime;
    var after := Added(rtos, t, s);
    assert forall u, x :: u in after && x in after[u] ==> (u in rtos && x in rtos[u]) || (u == t && x == s);
    assert t in rtos ==> s !in rtos[t];
    assert Distinct(after[t]);
    forall x | x in segs && !segs[x].knownLost
      ensures segs[x].retransTime in after && x in after[segs[x].retransTime]
    {
      assert segs[x].retransTime in rtos && x in rtos[segs[x].retransTime];
    }
    assert s in after[t];
  }

  lemma AttachLost(rtos: Rtos, segs: Segments, s: Seqno, seg: Segment)
    requires Indexes(rtos, segs) && s !in segs && seg.knownLost
    ensures Indexes(rtos, segs[s := seg])
  {
  }

  /** Changing a segment and filing it anew, unless it is now known lost. */
  lemma Refile(rtos: Rtos, segs: Segments, s: Seqno, seg: Segment)
    requires Indexes(rtos, segs) && s in segs
    ensures var rest := Removed(rtos, segs[s].retransTime, s);
      Indexes(if seg.knownLost then rest else Added(rest, seg.retransTime, s), segs[s := seg])
  {
    var rest := Removed(rtos, segs[s].retransTime, s);
    Detach(rtos, segs, s);
    if seg.knownLost {
      AttachLost(rest, segs - {s}, s, seg);
    } else {
      Attach(rest, segs - {s}, s, seg);
    }
    assert (segs - {s})[s := seg] == segs[s := seg];
  }

  /** The head of the first bucket is a segment with the earliest timeout. */
  lemma FirstBucketExpiresFirst(rtos: Rtos, segs: Segments, t: Time)
    requires Indexes(rtos, segs)
    requires t in rtos && forall u :: u in rtos ==> t <= u
    ensures FirstToExpire(segs, rtos[t][0]) && segs[rtos[t][0]].retransTime == t
  {
    assert rtos[t][0] in rtos[t];
  }
}
