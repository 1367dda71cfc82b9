/** The sliding filter that delivers each frame number at most once (src/session/machine.rs). */
module Replay {
  import opened Common

  const SPAN: nat := 10_000

  datatype Filter = Filter(top: Seqno, bottom: Seqno, seen: set<Seqno>)

  const NEW_FILTER: Filter := Filter(0, 0, {})

  /** The filter after offering it a frame number, and whether it accepts. */
  function Offered(f: Filter, s: Seqno): (Filter, bool) {
    if s < f.bottom || s in f.seen then (f, false)
    else
      var top := if s > f.top then s else f.top;
      var bottom := if top - f.bottom > SPAN then top - SPAN else f.bottom;
      (Filter(top, bottom, set x | x in f.seen + {s} && x >= bottom), true)
  }

  /** The largest number accepted so far, or zero. */
  ghost predicate IsTop(accepted: set<Seqno>, top: Seqno) {
    if accepted == {} then top == 0 else top in accepted && forall x :: x in accepted ==> x <= top
  }

  /** The filter remembers exactly the accepted numbers within the span of the largest. */
  ghost predicate Remembers(f: Filter, accepted: set<Seqno>) {
    && IsTop(accepted, f.top)
    && f.bottom == (if f.top > SPAN then f.top - SPAN else 0)
    && f.seen == set x | x in accepted && x >= f.bottom
  }

  /** The window agrees with the full history: a number is accepted exactly when it never
      was before and is no more than the span below the largest one accepted. */
  lemma AgreesWithHistory(f: Filter, accepted: set<Seqno>, s: Seqno)
    requires Remembers(f, accepted)
    ensures var (after, ok) := Offered(f, s);
      && (ok <==> s !in accepted && s + SPAN >= f.top)
      && Remembers(after, if ok then accepted + {s} else accepted)
      && after.bottom <= after.top <= after.bottom + SPAN
      && forall x :: x in after.seen ==> after.bottom <= x <= after.top
  {
    var (after, ok) := Offered(f, s);
    if ok {
      var all := accepted + {s};
      assert after.top in all;
      forall x ensures x in after.seen <==> x in all && x >= after.bottom {
      }
    }
  }

  class ReplayFilter {
    var topSeqno: Seqno
    var bottomSeqno: Seqno
    var seenSeqno: set<Seqno>

    constructor ()
      ensures Valid() && State() == NEW_FILTER
    {
      topSeqno, bottomSeqno, seenSeqno := 0, 0, {};
    }

    ghost function State(): Filter
      reads this
    {
      Filter(topSeqno, bottomSeqno, seenSeqno)
    }

    ghost predicate Valid()
      reads this
    {
      bottomSeqno <= topSeqno && forall x :: x in seenSeqno ==> bottomSeqno <= x <= topSeqno
    }

    method Add(seqno: Seqno) returns (ok: bool)
      requires Valid()
      modifies this
      ensures Valid()
      ensures (State(), ok) == Offered(old(State()), seqno)
    {
      if seqno < bottomSeqno {
        return false;
      }
      if seqno in seenSeqno {
        return false;
      }
      seenSeqno := seenSeqno + {seqno};
      topSeqno := if seqno > topSeqno then seqno else topSeqno;
      ghost var all, start, top := seenSeqno, bottomSeqno, topSeqno;
      assert forall x :: x in all ==> start <= x <= top;
      while topSeqno - bottomSeqno > SPAN
        invariant start <= bottomSeqno <= topSeqno == top
        invariant bottomSeqno > start ==> topSeqno - bottomSeqno >= SPAN
        invariant seenSeqno == set x | x in all && x >= bottomSeqno
        decreases topSeqno - bottomSeqno
      {
        seenSeqno := seenSeqno - {bottomSeqno};
        bottomSeqno := bottomSeqno + 1;
      }
      ok := true;
    }
  }
}
