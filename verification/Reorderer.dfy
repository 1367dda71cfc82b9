/** The receive side of a reliable stream: a reassembly buffer that accepts
    segments in any order inside a window and releases them in sequence
    (src/mux/structs.rs). */
module Reordering {
  import opened Common

  /** How far past the next expected segment one is still buffered. */
  const WINDOW: nat := 20000

  /** The buffer as a value: segments held, and the next one to release. */
  datatype Buffered<T> = Buffered(pkts: map<Seqno, T>, min: Seqno) {
    /** Accepted so far: already released, or held. */
    ghost predicate Received(s: Seqno) {
      s < min || s in pkts
    }

    ghost predicate Valid() {
      forall s :: s in pkts ==> min <= s <= min + WINDOW
    }

    /** The next expected segment is never left sitting in the buffer. */
    ghost predicate Drained() {
      min !in pkts
    }
  }

  function Inserted<T>(b: Buffered<T>, seq_: Seqno, item: T): (Buffered<T>, bool) {
    if b.min <= seq_ <= b.min + WINDOW
    then (b.(pkts := b.pkts[seq_ := item]), true)
    else (b, seq_ < b.min)
  }

  /** The consecutive segments that start at `min`. */
  function Ready<T>(b: Buffered<T>): seq<T>
    decreases |b.pkts|
  {
    if b.min in b.pkts
    then [b.pkts[b.min]] + Ready(Buffered(b.pkts - {b.min}, b.min + 1))
    else []
  }

  function Taken<T>(b: Buffered<T>): Buffered<T>
    decreases |b.pkts|
  {
    if b.min in b.pkts then Taken(Buffered(b.pkts - {b.min}, b.min + 1)) else b
  }

  /** `out` is the longest run of held segments from `min` on, in order, and `after`
      has forgotten exactly those. */
  ghost predicate ReleasesTheRun<T>(b: Buffered<T>, after: Buffered<T>, out: seq<T>) {
    && after.Drained()
    && after.min == b.min + |out|
    && (forall s :: b.min <= s < after.min ==> s in b.pkts && out[s - b.min] == b.pkts[s])
    && after.pkts == map s | s in b.pkts && s >= after.min :: b.pkts[s]
  }

  lemma {:induction false} TakenReleasesTheRun<T>(b: Buffered<T>)
    requires b.Valid()
    ensures ReleasesTheRun(b, Taken(b), Ready(b))
    decreases |b.pkts|
  {
    if b.min in b.pkts {
      var next := Buffered(b.pkts - {b.min}, b.min + 1);
      TakenReleasesTheRun(next);
      var after, out, rest := Taken(b), Ready(b), Ready(next);
      assert out == [b.pkts[b.min]] + rest;
      forall s | b.min < s < after.min
        ensures s in b.pkts && out[s - b.min] == b.pkts[s]
      {
        assert s in next.pkts && rest[s - next.min] == next.pkts[s];
      }
    }
  }

  /** Releasing neither accepts nor forgets a segment. */
  lemma TakenKeepsReceived<T>(b: Buffered<T>, s: Seqno)
    requires b.Valid()
    ensures Taken(b).Valid()
    ensures Taken(b).Received(s) <==> b.Received(s)
  {
    TakenReleasesTheRun(b);
  }

  class Reorderer<T> {
    var pkts: map<Seqno, T>
    var min: Seqno

    constructor ()
      ensures State() == Buffered(map[], 0)
    {
      pkts, min := map[], 0;
    }

    ghost function State(): Buffered<T>
      reads this
    {
      Buffered(pkts, min)
    }

    /** Returns whether the item is accepted now or was accepted in the past. */
    method Insert(seq_: Seqno, item: T) returns (accepted: bool)
      modifies this
      ensures (State(), accepted) == Inserted(old(State()), seq_, item)
      ensures accepted <==> seq_ <= old(min) + WINDOW
      ensures accepted ==> State().Received(seq_)
    {
      if seq_ >= min && seq_ <= min + WINDOW {
        pkts := pkts[seq_ := item];
        accepted := true;
      } else {
        accepted := seq_ < min;
      }
    }

    method Take() returns (output: seq<T>)
      modifies this
      ensures State() == Taken(old(State()))
      ensures output == Ready(old(State()))
    {
      output := [];
      while min in pkts
        invariant Taken(State()) == Taken(old(State()))
        invariant output + Ready(State()) == Ready(old(State()))
        decreases |pkts|
      {
        output := output + [pkts[min]];
        pkts := pkts - {min};
        min := min + 1;
      }
    }
  }
}
