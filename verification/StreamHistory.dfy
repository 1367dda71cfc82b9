/** What the state of an endpoint owes to its history: every part of it is determined by the
    steps so far, in every run. */
module StreamHistory {
  import opened Common
  import opened Wire
  import opened Flight
  import opened Reordering
  import opened Connection
  import opened Stream
  import opened StreamTheorems
  import opened Recovery

  // ----- Histories -----

  function At(streamId: nat, h: seq<Step>): World {
    After(START, streamId, h)
  }

  /** A run as one of its endpoints sees it, with that endpoint as `a`. */
  function Seen(run: seq<Step>, byA: bool): seq<Step> {
    if byA then run else seq(|run|, i requires 0 <= i < |run| => Swapped(run[i]))
  }

  lemma {:induction false} SeenFrom(w: World, streamId: nat, run: seq<Step>, byA: bool)
    requires CanRun(w, streamId, run)
    ensures CanRun(From(w, byA), streamId, Seen(run, byA))
    ensures After(From(w, byA), streamId, Seen(run, byA)) == From(After(w, streamId, run), byA)
    decreases |run|
  {
    if run != [] {
      var seen := Seen(run, byA);
      SeenFrom(Stepped(w, streamId, run[0]), streamId, run[1..], byA);
      assert seen[1..] == Seen(run[1..], byA);
      assert Stepped(From(w, byA), streamId, seen[0]) == From(Stepped(w, streamId, run[0]), byA);
    }
  }

  lemma LastOf(streamId: nat, h: seq<Step>)
    requires h != [] && CanRun(START, streamId, h)
    ensures var front, l := h[..|h| - 1], h[|h| - 1];
      && CanRun(START, streamId, front) && CanStep(At(streamId, front), l)
      && At(streamId, h) == Stepped(At(streamId, front), streamId, l)
      && Inv(At(streamId, front)) && Inv(At(streamId, h))
  {
    hide Inv, Stepped, CanStep, CanRun, After;
    var front, l := h[..|h| - 1], h[|h| - 1];
    assert h == front + [l];
    RunConcat(START, streamId, front, [l]);
    LastStep(At(streamId, front), streamId, l);
    StartSatisfiesInv();
    RunKeepsInv(START, streamId, front);
    RunKeepsInv(START, streamId, h);
  }

  // ----- The life of a segment -----

  function Writes(h: seq<Step>): seq<Bytes> {
    if h == [] then []
    else
      var l := h[|h| - 1];
      Writes(h[..|h| - 1]) + if l.ActA? && l.e.NewWrite? then [l.e.payload] else []
  }

  /** How often a segment was retransmitted. */
  function Resends(h: seq<Step>, s: Seqno): nat {
    if h == [] then 0
    else
      var l := h[|h| - 1];
      Resends(h[..|h| - 1], s) + if l.ActA? && l.e == Retransmit(s) then 1 else 0
  }

  /** What was read at its latest retransmission. */
  function LastResend(h: seq<Step>, s: Seqno): Option<Readings> {
    if h == [] then None
    else
      var l := h[|h| - 1];
      if l.ActA? && l.e == Retransmit(s) then Some(l.r) else LastResend(h[..|h| - 1], s)
  }

  /** It timed out, and has not been retransmitted since. */
  predicate TimedOut(h: seq<Step>, s: Seqno) {
    if h == [] then false
    else
      var l := h[|h| - 1];
      if l.ActA? && l.e == Rto(s) then true
      else if l.ActA? && l.e == Retransmit(s) then false
      else TimedOut(h[..|h| - 1], s)
  }

  datatype Birth = Birth(now: Time, rto: nat, delivered: nat)

  /** What was read as it was written, and how many segments had been delivered by then. */
  function BirthOf(streamId: nat, h: seq<Step>, s: Seqno): Option<Birth> {
    if h == [] then None
    else
      var front, l := h[..|h| - 1], h[|h| - 1];
      if l.ActA? && l.e.NewWrite? && |Writes(front)| == s
      then Some(Birth(l.r.now, l.r.rto, At(streamId, front).a.conn.flight.delivered))
      else BirthOf(streamId, front, s)
  }

  /** Everything the history says about one segment. */
  datatype Tale = Tale(birth: Option<Birth>, resends: nat, last: Option<Readings>, timedOut: bool)

  function TaleOf(streamId: nat, h: seq<Step>, s: Seqno): Tale {
    Tale(BirthOf(streamId, h, s), Resends(h, s), LastResend(h, s), TimedOut(h, s))
  }

  function Tales(streamId: nat, h: seq<Step>): Seqno -> Tale {
    (s: Seqno) => TaleOf(streamId, h, s)
  }

  /** The timeout of a segment: one RTO after it was written, unless that was brought forward to a
      time now past; or, after n retransmissions, 2^n RTOs after the latest. */
  ghost predicate TimeoutTold(t: Time, tale: Tale, clock: Time)
    requires tale.birth.Some?
  {
    var first := tale.birth.value.now + tale.birth.value.rto;
    if tale.resends == 0 then t == first || (t < first && t <= clock)
    else tale.last.Some? && t == tale.last.value.now + tale.last.value.rto * Pow2(tale.resends)
  }

  ghost predicate Told(seg: Segment, streamId: nat, s: Seqno, body: Bytes, tale: Tale, clock: Time) {
    && tale.birth.Some?
    && seg == Segment(s, tale.birth.value.now, tale.resends, Data(streamId, s, body), seg.retransTime,
                      tale.birth.value.delivered, tale.timedOut)
    && TimeoutTold(seg.retransTime, tale, clock)
  }

  ghost predicate AllTold(segs: Segments, streamId: nat, written: seq<Bytes>, tales: Seqno -> Tale, clock: Time) {
    forall s :: s in segs ==> s < |written| && Told(segs[s], streamId, s, written[s], tales(s), clock)
  }

  // ----- What each event adds to the tale -----

  lemma ToldAfterTimeout(segs: Segments, streamId: nat, written: seq<Bytes>, tales: Seqno -> Tale, tales': Seqno -> Tale,
                         u: Unacked, x: Seqno, clock: Time, now: Time)
    requires AllTold(segs, streamId, written, tales, clock) && clock <= now && u.segs == segs
    requires forall s: Seqno :: tales'(s) == if s == x then tales(s).(timedOut := true) else tales(s)
    ensures AllTold(MarkedLost(u, x).segs, streamId, written, tales', now)
  {
  }

  lemma ToldAfterResend(segs: Segments, streamId: nat, written: seq<Bytes>, tales: Seqno -> Tale, tales': Seqno -> Tale,
                        u: Unacked, x: Seqno, r: Readings, clock: Time)
    requires AllTold(segs, streamId, written, tales, clock) && clock <= r.now && u.segs == segs
    requires forall s: Seqno :: tales'(s) == if s != x then tales(s)
                                      else Tale(tales(s).birth, tales(s).resends + 1, Some(r), false)
    ensures AllTold(Resent(u, x, r.now, r.rto).segs, streamId, written, tales', r.now)
  {
  }

  lemma ToldAfterWrite(segs: Segments, streamId: nat, written: seq<Bytes>, tales: Seqno -> Tale, tales': Seqno -> Tale,
                       u: Unacked, body: Bytes, r: Readings, clock: Time)
    requires AllTold(segs, streamId, written, tales, clock) && clock <= r.now && u.segs == segs
    requires var n := |written|; tales(n).resends == 0 && !tales(n).timedOut
    requires forall s: Seqno :: tales'(s) == if s != |written| then tales(s)
                                      else tales(s).(birth := Some(Birth(r.now, r.rto, u.delivered)))
    ensures AllTold(Sent(u, |written|, Data(streamId, |written|, body), r.now, r.rto).segs,
                    streamId, written + [body], tales', r.now)
  {
  }

  /** Letting go of segments, and bringing the timeouts of unretransmitted ones forward. */
  ghost predicate OnlyHastens(before: Segments, after: Segments, now: Time) {
    forall s :: s in after ==>
      && s in before && after[s] == before[s].(retransTime := after[s].retransTime)
      && (after[s].retransTime != before[s].retransTime ==>
            before[s].retrans == 0 && after[s].retransTime < before[s].retransTime && after[s].retransTime <= now)
  }

  lemma ToldAfterPlain(before: Segments, after: Segments, streamId: nat, written: seq<Bytes>,
                       tales: Seqno -> Tale, tales': Seqno -> Tale, clock: Time, now: Time)
    requires AllTold(before, streamId, written, tales, clock) && clock <= now && OnlyHastens(before, after, now)
    requires forall s: Seqno :: tales'(s) == tales(s)
    ensures AllTold(after, streamId, written, tales', now)
  {
    forall s | s in after ensures s < |written| && Told(after[s], streamId, s, written[s], tales'(s), now) {
      assert Told(before[s], streamId, s, written[s], tales(s), clock);
    }
  }

  lemma AcksOnlyHasten(u: Unacked, order: seq<Seqno>, r: Readings, clock: Time)
    requires LostIsPast(u.segs, clock) && Plausible(r, clock)
    ensures OnlyHastens(u.segs, AckedAll(u, order, r.acks).segs, r.now)
  {
    AckedAllRemovesTheListed(u, order, r.acks, clock, r.now);
    var after := AckedAll(u, order, r.acks).segs;
    forall s | s in after
      ensures SameSegment(u.segs[s], after[s], clock, r.now)
      ensures after[s].retransTime != u.segs[s].retransTime ==> u.segs[s].retrans == 0
    {
      if after[s].retransTime != u.segs[s].retransTime {
        OnlyOlderAreBroughtForward(u, order, r.acks, clock, r.now, s);
      }
    }
  }

  // ----- What each event does to the segments -----

  /** An event that neither writes nor retransmits nor declares anything lost. */
  predicate Plain(l: Step) {
    l.ActA? ==> !l.e.NewWrite? && !l.e.Retransmit? && !l.e.Rto?
  }

  lemma AckFlight(p: Peer, streamId: nat, m: Message, r: Readings)
    requires m.DataAck?
    ensures var q := PeerAfter(p, streamId, NewPkt(m), r);
      q.conn.flight == if m.selective.None? then p.conn.flight
                       else AckedAll(p.conn.flight, AckOrder(p.conn.flight.segs, m.cumulative, m.selective.value), r.acks)
  {
    hide AckedAll, AckOrder;
  }

  lemma OtherFlight(p: Peer, streamId: nat, e: Event, r: Readings)
    requires !e.NewWrite? && !e.Retransmit? && !e.Rto? && !(e.NewPkt? && e.msg.DataAck?)
    ensures PeerAfter(p, streamId, e, r).conn.flight == p.conn.flight
  {
    if e.NewPkt? {
      var _ := OnPkt(p.conn, e.msg, r);
    }
  }

  lemma PlainEffect(w: World, streamId: nat, l: Step)
    requires Inv(w) && CanStep(w, l) && Plain(l)
    ensures OnlyHastens(w.a.conn.flight.segs, Stepped(w, streamId, l).a.conn.flight.segs, Stepped(w, streamId, l).clock)
  {
    hide PeerAfter, Emitted, Enabled, AckedAll, AckOrder;
    if l.ActA? {
      if l.e.NewPkt? && l.e.msg.DataAck? {
        AckFlight(w.a, streamId, l.e.msg, l.r);
        if l.e.msg.selective.Some? {
          AcksOnlyHasten(w.a.conn.flight, AckOrder(w.a.conn.flight.segs, l.e.msg.cumulative, l.e.msg.selective.value), l.r, w.clock);
        }
      } else {
        OtherFlight(w.a, streamId, l.e, l.r);
      }
    }
  }

  lemma EventFlight(p: Peer, streamId: nat, e: Event, r: Readings)
    ensures var q := PeerAfter(p, streamId, e, r);
      && q.written == p.written + (if e.NewWrite? then [e.payload] else [])
      && q.conn.nextFree == p.conn.nextFree + (if e.NewWrite? then 1 else 0)
      && (e.Rto? ==> q.conn.flight == MarkedLost(p.conn.flight, e.seqno))
      && (e.Retransmit? ==> q.conn.flight == Resent(p.conn.flight, e.seqno, r.now, r.rto))
      && (e.NewWrite? ==>
            q.conn.flight == Sent(p.conn.flight, p.conn.nextFree, Data(streamId, p.conn.nextFree, e.payload), r.now, r.rto))
  {
    hide MarkedLost, Resent, Sent, AckedAll, AckOrder;
    if e.NewPkt? {
      var _ := OnPkt(p.conn, e.msg, r);
    }
  }

  // ----- Whole runs -----

  lemma {:induction false} WrittenTold(streamId: nat, h: seq<Step>)
    requires CanRun(START, streamId, h)
    ensures var p := At(streamId, h).a; p.written == Writes(h) && |p.written| == p.conn.nextFree
    decreases |h|
  {
    hide Inv, PeerAfter, CanStep, Emitted;
    if h != [] {
      LastOf(streamId, h);
      var front, l := h[..|h| - 1], h[|h| - 1];
      WrittenTold(streamId, front);
      if l.ActA? {
        EventFlight(At(streamId, front).a, streamId, l.e, l.r);
      }
    }
  }

  /** Nothing has happened yet to the segments that are still to be written. */
  lemma {:induction false} UnwrittenIsUntold(streamId: nat, h: seq<Step>, s: Seqno)
    requires CanRun(START, streamId, h) && s >= |Writes(h)|
    ensures TaleOf(streamId, h, s).resends == 0 && !TaleOf(streamId, h, s).timedOut
    decreases |h|
  {
    hide Inv, CanStep, At, Writes, TaleOf, BirthOf;
    if h != [] {
      LastOf(streamId, h);
      var front, l := h[..|h| - 1], h[|h| - 1];
      WritesOnlyGrow(h);
      UnwrittenIsUntold(streamId, front, s);
      WrittenTold(streamId, front);
      WrittenTold(streamId, h);
      TouchedIsUnacked(At(streamId, front), l, s);
      TaleGoesOn(streamId, h, s);
    } else {
      EmptyTale(streamId, s);
    }
  }

  lemma WritesOnlyGrow(h: seq<Step>)
    requires h != []
    ensures |Writes(h[..|h| - 1])| <= |Writes(h)|
    ensures h[|h| - 1].ActA? && h[|h| - 1].e.NewWrite? ==> |Writes(h)| == |Writes(h[..|h| - 1])| + 1
  {
  }

  lemma EmptyTale(streamId: nat, s: Seqno)
    ensures TaleOf(streamId, [], s) == Tale(None, 0, None, false)
  {
  }

  lemma TouchedIsUnacked(w: World, l: Step, s: Seqno)
    requires Inv(w) && CanStep(w, l)
    ensures l.ActA? && (l.e == Rto(s) || l.e == Retransmit(s)) ==> s < w.a.conn.nextFree
  {
    if l.ActA? && l.e == Retransmit(s) {
      assert s in Lost(w.a.conn.flight.segs);
    }
  }

  lemma ClockMovesOn(w: World, streamId: nat, l: Step)
    requires CanStep(w, l)
    ensures w.clock <= Stepped(w, streamId, l).clock
  {
  }

  function Continued(t: Tale, l: Step, s: Seqno, written: nat, delivered: nat): Tale {
    if !l.ActA? then t
    else if l.e == Retransmit(s) then Tale(t.birth, t.resends + 1, Some(l.r), false)
    else if l.e == Rto(s) then t.(timedOut := true)
    else if l.e.NewWrite? && written == s then t.(birth := Some(Birth(l.r.now, l.r.rto, delivered)))
    else t
  }

  lemma TaleGoesOn(streamId: nat, h: seq<Step>, s: Seqno)
    requires h != []
    ensures var front, l := h[..|h| - 1], h[|h| - 1];
      TaleOf(streamId, h, s)
        == Continued(TaleOf(streamId, front, s), l, s, |Writes(front)|, At(streamId, front).a.conn.flight.delivered)
  {
  }

  lemma TalesGoOn(streamId: nat, h: seq<Step>, written: nat, delivered: nat)
    requires h != [] && written == |Writes(h[..|h| - 1])| && delivered == At(streamId, h[..|h| - 1]).a.conn.flight.delivered
    ensures forall s: Seqno :: Tales(streamId, h)(s) == Continued(Tales(streamId, h[..|h| - 1])(s), h[|h| - 1], s, written, delivered)
  {
    hide TaleOf, Continued;
    forall s: Seqno
      ensures Tales(streamId, h)(s) == Continued(Tales(streamId, h[..|h| - 1])(s), h[|h| - 1], s, written, delivered)
    {
      TaleGoesOn(streamId, h, s);
    }
  }

  /** In every run, each unacknowledged segment is told by the history: it carries what was written
      at its seqno, has been retransmitted as often as `retrans` says, is known lost exactly when it
      has timed out since, and its timeout doubles with every retransmission. */
  lemma {:induction false} SegmentLife(streamId: nat, h: seq<Step>)
    requires CanRun(START, streamId, h)
    ensures var w := At(streamId, h);
      AllTold(w.a.conn.flight.segs, streamId, Writes(h), Tales(streamId, h), w.clock)
    decreases |h|
  {
    hide Inv, PeerAfter, CanStep, Emitted, At, AllTold, Writes, TaleOf;
    if h == [] {
      NothingToTell(streamId);
    } else {
      LastOf(streamId, h);
      var front, l := h[..|h| - 1], h[|h| - 1];
      SegmentLife(streamId, front);
      WrittenTold(streamId, front);
      StepTold(streamId, h);
    }
  }

  lemma NothingToTell(streamId: nat)
    ensures AllTold(At(streamId, []).a.conn.flight.segs, streamId, Writes([]), Tales(streamId, []), 0)
    ensures At(streamId, []).clock == 0
  {
  }

  lemma StepTold(streamId: nat, h: seq<Step>)
    requires h != [] && CanRun(START, streamId, h)
    requires var front := h[..|h| - 1]; var w := At(streamId, front);
      AllTold(w.a.conn.flight.segs, streamId, Writes(front), Tales(streamId, front), w.clock)
    ensures var v := At(streamId, h);
      AllTold(v.a.conn.flight.segs, streamId, Writes(h), Tales(streamId, h), v.clock)
  {
    hide Inv, PeerAfter, CanStep, Emitted, At, AllTold, Tales, TaleOf, MarkedLost, Resent, Sent;
    LastOf(streamId, h);
    var front, l := h[..|h| - 1], h[|h| - 1];
    var w, v := At(streamId, front), At(streamId, h);
    WrittenTold(streamId, front);
    WrittenTold(streamId, h);
    ClockMovesOn(w, streamId, l);
    TalesGoOn(streamId, h, |Writes(front)|, w.a.conn.flight.delivered);
    UnwrittenIsUntold(streamId, front, |Writes(front)|);
    TalesAreTales(streamId, front, |Writes(front)|);
    if Plain(l) {
      PlainEffect(w, streamId, l);
    } else {
      EventFlight(w.a, streamId, l.e, l.r);
    }
    FlightTold(w.a.conn.flight, v.a.conn.flight, streamId, Writes(front), Writes(h), Tales(streamId, front), Tales(streamId, h),
               l, w.clock, v.clock);
  }

  lemma TalesAreTales(streamId: nat, h: seq<Step>, s: Seqno)
    ensures Tales(streamId, h)(s) == TaleOf(streamId, h, s)
  {
  }

  /** The segments after an event, given what it does to them and to the tales. */
  lemma FlightTold(u: Unacked, after: Unacked, streamId: nat, written: seq<Bytes>, written': seq<Bytes>,
                   tales: Seqno -> Tale, tales': Seqno -> Tale, l: Step, clock: Time, now: Time)
    requires AllTold(u.segs, streamId, written, tales, clock) && clock <= now && (l.ActA? ==> now == l.r.now)
    requires forall s: Seqno :: tales'(s) == Continued(tales(s), l, s, |written|, u.delivered)
    requires tales(|written|).resends == 0 && !tales(|written|).timedOut
    requires written' == written + (if l.ActA? && l.e.NewWrite? then [l.e.payload] else [])
    requires
      if Plain(l) then OnlyHastens(u.segs, after.segs, now)
      else if l.e.Rto? then after == MarkedLost(u, l.e.seqno)
      else if l.e.Retransmit? then after == Resent(u, l.e.seqno, l.r.now, l.r.rto)
      else after == Sent(u, |written|, Data(streamId, |written|, l.e.payload), l.r.now, l.r.rto)
    ensures AllTold(after.segs, streamId, written', tales', now)
  {
    hide AllTold, MarkedLost, Resent, Sent, OnlyHastens;
    assert written + [] == written;
    if Plain(l) {
      ToldAfterPlain(u.segs, after.segs, streamId, written, tales, tales', clock, now);
    } else if l.e.Rto? {
      ToldAfterTimeout(u.segs, streamId, written, tales, tales', u, l.e.seqno, clock, now);
    } else if l.e.Retransmit? {
      ToldAfterResend(u.segs, streamId, written, tales, tales', u, l.e.seqno, l.r, clock);
    } else {
      ToldAfterWrite(u.segs, streamId, written, tales, tales', u, l.e.payload, l.r, clock);
    }
  }

  // ----- The end of an endpoint -----

  /** The application ended its writes, and the endpoint has taken notice. */
  predicate Closed(h: seq<Step>) {
    if h == [] then false
    else
      var l := h[|h| - 1];
      Closed(h[..|h| - 1]) || (l.ActA? && l.e.Closing?)
  }

  /** A failure, or a reset by the peer. */
  predicate Fatal(l: Step) {
    l.ActA? && (l.e.Failure? || (l.e.NewPkt? && l.e.msg.Control? && l.e.msg.kind.Rst?))
  }

  predicate BrokenOff(h: seq<Step>) {
    if h == [] then false else BrokenOff(h[..|h| - 1]) || Fatal(h[|h| - 1])
  }

  /** An endpoint is alive unless it broke off or has been closed and has nothing unacknowledged. */
  ghost predicate LivesOn(p: Peer, closed: bool, broken: bool) {
    && p.conn.closing == closed
    && (p.alive <==> !broken && !(closed && p.conn.flight.segs == map[]))
  }

  lemma KeysMatter(a: Segments, b: Segments)
    requires a.Keys == b.Keys
    ensures a == map[] <==> b == map[]
  {
    assert a == map[] <==> a.Keys == {};
    assert b == map[] <==> b.Keys == {};
  }

  lemma PktLivesOn(p: Peer, streamId: nat, m: Message, r: Readings, closed: bool)
    requires p.alive && LivesOn(p, closed, false) && (m.DataAck? ==> m.selective.Some?)
    ensures LivesOn(PeerAfter(p, streamId, NewPkt(m), r), closed, m.Control? && m.kind.Rst?)
  {
    hide AckedAll, AckOrder;
  }

  lemma EventLivesOn(p: Peer, streamId: nat, e: Event, r: Readings, closed: bool)
    requires p.alive && LivesOn(p, closed, false)
    requires e.NewPkt? && e.msg.DataAck? ==> e.msg.selective.Some?
    requires e.NewWrite? ==> !p.conn.closing
    requires e.Rto? || e.Retransmit? ==> e.seqno in p.conn.flight.segs
    ensures LivesOn(PeerAfter(p, streamId, e, r), closed || e.Closing?,
                    e.Failure? || (e.NewPkt? && e.msg.Control? && e.msg.kind.Rst?))
  {
    match e
    case NewPkt(m) => PktLivesOn(p, streamId, m, r, closed);
    case Rto(s) => KeysMatter(p.conn.flight.segs, MarkedLost(p.conn.flight, s).segs);
    case Retransmit(s) => KeysMatter(p.conn.flight.segs, Resent(p.conn.flight, s, r.now, r.rto).segs);
    case _ =>
  }

  /** What an enabled event of a live endpoint can be. */
  lemma EnabledEvents(w: World, e: Event, r: Readings, cwnd: nat)
    requires Inv(w) && CanStep(w, ActA(e, r, cwnd))
    ensures w.a.alive
    ensures e.NewPkt? && e.msg.DataAck? ==> e.msg.selective.Some?
    ensures e.NewWrite? || e.Closing? ==> !w.a.conn.closing
    ensures e.Rto? || e.Retransmit? ==> e.seqno in w.a.conn.flight.segs
  {
    if e.Retransmit? {
      assert e.seqno in Lost(w.a.conn.flight.segs);
    }
  }

  /** In every run an endpoint is closing exactly when its application has ended its writes, and
      alive exactly unless a failure or a reset broke it off, or it is closed and has nothing
      unacknowledged left. In particular a live endpoint that is closing has something to wait for. */
  lemma {:induction false} AliveExactly(streamId: nat, h: seq<Step>)
    requires CanRun(START, streamId, h)
    ensures LivesOn(At(streamId, h).a, Closed(h), BrokenOff(h))
    decreases |h|
  {
    hide Inv, PeerAfter, CanStep, Emitted, LivesOn;
    if h == [] {
      NewLivesOn();
    } else {
      LastOf(streamId, h);
      var front, l := h[..|h| - 1], h[|h| - 1];
      AliveExactly(streamId, front);
      if l.ActA? {
        EnabledEvents(At(streamId, front), l.e, l.r, l.cwnd);
        LivingIsUnbroken(At(streamId, front).a, Closed(front), BrokenOff(front));
        EventLivesOn(At(streamId, front).a, streamId, l.e, l.r, Closed(front));
      }
    }
  }

  /** An endpoint that dies says so, and can say it again. */
  lemma DeathIsAnnounced(w: World, streamId: nat, l: Step)
    requires CanStep(w, l) && (l.ActA? || l == ResendRst(true)) && !Stepped(w, streamId, l).a.alive
    ensures Control(Rst, streamId) in Stepped(w, streamId, l).toB
  {
    hide Process;
  }

  lemma NewLivesOn()
    ensures LivesOn(START.a, false, false)
  {
  }

  lemma LivingIsUnbroken(p: Peer, closed: bool, broken: bool)
    requires p.alive && LivesOn(p, closed, broken)
    ensures !broken
  {
  }

  /** A live closing endpoint waits for something, whichever of the two it is. */
  lemma ClosingWaits(streamId: nat, run: seq<Step>, byA: bool)
    requires CanRun(START, streamId, run)
    ensures var p := From(After(START, streamId, run), byA).a;
      p.alive && p.conn.closing ==> p.conn.flight.segs != map[]
  {
    SeenFrom(START, streamId, run, byA);
    AliveExactly(streamId, Seen(run, byA));
  }

  /** Once closed, an endpoint stays closed and writes nothing more. */
  lemma {:induction false} ClosedForGood(streamId: nat, h: seq<Step>, rest: seq<Step>)
    requires CanRun(START, streamId, h + rest) && Closed(h)
    ensures Closed(h + rest) && Writes(h + rest) == Writes(h)
    decreases |rest|
  {
    hide Inv, CanStep, At;
    if rest == [] {
      assert h + rest == h;
    } else {
      var all, before := h + rest, h + rest[..|rest| - 1];
      assert all[..|all| - 1] == before;
      LastOf(streamId, all);
      ClosedForGood(streamId, h, rest[..|rest| - 1]);
      AliveExactly(streamId, before);
      var l := all[|all| - 1];
      if l.ActA? {
        EnabledEvents(At(streamId, before), l.e, l.r, l.cwnd);
      }
    }
  }

  /** A closing endpoint gets to its end: from every reachable state in which both are alive, even
      after all messages under way are lost, and without any failure, the endpoints can go on until
      its peer has read everything it wrote and it is gone. */
  lemma CloseComesThrough(run: seq<Step>, byA: bool, k: Setting)
    requires CanRun(START, k.streamId, run) && k.rto > 0
    requires After(START, k.streamId, run).a.alive && After(START, k.streamId, run).b.alive
    requires From(After(START, k.streamId, run), byA).a.conn.closing
    ensures var w := From(After(START, k.streamId, run), byA);
      exists v :: Reaches(w.(toA := {}, toB := {}), v, k) && !v.a.alive && v.b.output == Concat(w.a.written)
  {
    var h := Seen(run, byA);
    SeenFrom(START, k.streamId, run, byA);
    var w := At(k.streamId, h);
    ReachableSatisfiesInv(k.streamId, run, byA);
    AliveExactly(k.streamId, h);
    StepKeepsInv(w, k.streamId, Lose({}, {}));
    var v := DrainSender(w.(toA := {}, toB := {}), k);
    AllAckedMeansAllDelivered(v.a, v.b, v.toB, v.toA);
    DrainedIsGone(h, w.(toA := {}, toB := {}), v, k);
  }

  lemma DrainedIsGone(h: seq<Step>, cut: World, v: World, k: Setting)
    requires CanRun(START, k.streamId, h) && Closed(h)
    requires cut == At(k.streamId, h).(toA := {}, toB := {}) && Reaches(cut, v, k) && v.a.conn.flight.segs == map[]
    ensures !v.a.alive
  {
    hide Inv, Stepped, CanStep;
    var rest :| CanRun(cut, k.streamId, rest) && After(cut, k.streamId, rest) == v && forall l :: l in rest ==> Uses(l, k);
    CutRun(h, cut, k.streamId);
    RunConcat(START, k.streamId, h + [Lose({}, {})], rest);
    assert h + ([Lose({}, {})] + rest) == (h + [Lose({}, {})]) + rest;
    ClosedForGood(k.streamId, h, [Lose({}, {})] + rest);
    AliveExactly(k.streamId, (h + [Lose({}, {})]) + rest);
  }

  lemma CutRun(h: seq<Step>, cut: World, streamId: nat)
    requires CanRun(START, streamId, h) && cut == At(streamId, h).(toA := {}, toB := {})
    ensures CanRun(START, streamId, h + [Lose({}, {})]) && At(streamId, h + [Lose({}, {})]) == cut
  {
    RunConcat(START, streamId, h, [Lose({}, {})]);
    LastStep(At(streamId, h), streamId, Lose({}, {}));
  }

  // ----- What is owed to the peer -----

  /** The segments that arrived since the last acknowledgement, other than those too far ahead. */
  function Owed(streamId: nat, h: seq<Step>): set<Seqno> {
    if h == [] then {}
    else
      var front, l := h[..|h| - 1], h[|h| - 1];
      if l.ActA? && l.e.AckTimer? then {}
      else if l.ActA? && l.e.NewPkt? && l.e.msg.Data? && l.e.msg.seqno <= At(streamId, front).a.conn.buf.min + WINDOW
      then Owed(streamId, front) + {l.e.msg.seqno}
      else Owed(streamId, front)
  }

  /** When the first segment arrived since the last acknowledgement. */
  function FirstSince(h: seq<Step>): Option<Time> {
    if h == [] then None
    else
      var before, l := FirstSince(h[..|h| - 1]), h[|h| - 1];
      if l.ActA? && l.e.AckTimer? then None
      else if before.None? && l.ActA? && l.e.NewPkt? && l.e.msg.Data? then Some(l.r.now)
      else before
  }

  lemma EventOwes(p: Peer, streamId: nat, e: Event, r: Readings)
    ensures var q := PeerAfter(p, streamId, e, r); var data := e.NewPkt? && e.msg.Data?;
      && q.conn.ackSeqnos ==
           (if e.AckTimer? then {}
            else if data && e.msg.seqno <= p.conn.buf.min + WINDOW then p.conn.ackSeqnos + {e.msg.seqno}
            else p.conn.ackSeqnos)
      && q.conn.ackTimer ==
           (if e.AckTimer? then None
            else if p.conn.ackTimer.None? && data then Some(r.now + ACK_DELAY)
            else p.conn.ackTimer)
  {
    hide AckedAll, AckOrder;
    if e.NewPkt? {
      var _ := OnPkt(p.conn, e.msg, r);
    }
  }

  /** In every run the pending acknowledgements are exactly the segments that arrived since the last
      acknowledgement, and the timer runs out a millisecond after the first of them, however many
      follow. */
  lemma {:induction false} AcksFollowArrivals(streamId: nat, h: seq<Step>)
    requires CanRun(START, streamId, h)
    ensures var c := At(streamId, h).a.conn;
      && c.ackSeqnos == Owed(streamId, h)
      && c.ackTimer == (if FirstSince(h).Some? then Some(FirstSince(h).value + ACK_DELAY) else None)
    decreases |h|
  {
    hide Inv, PeerAfter, CanStep, Emitted;
    if h != [] {
      LastOf(streamId, h);
      var front, l := h[..|h| - 1], h[|h| - 1];
      AcksFollowArrivals(streamId, front);
      if l.ActA? {
        EventOwes(At(streamId, front).a, streamId, l.e, l.r);
      }
    }
  }

  ghost predicate AckOf(m: Message, cumulative: Seqno, owed: set<Seqno>) {
    m.DataAck? && m.cumulative == cumulative && m.selective.Some?
    && Ascending(m.selective.value) && Elements(m.selective.value) == owed
  }

  /** An acknowledgement names all of them, in order, and how far the stream has been released. */
  lemma AcksTellAll(streamId: nat, h: seq<Step>)
    requires CanRun(START, streamId, h) && h != [] && h[|h| - 1].ActA? && h[|h| - 1].e.AckTimer?
    ensures exists m :: m in At(streamId, h).toB && AckOf(m, At(streamId, h).a.conn.buf.min, Owed(streamId, h[..|h| - 1]))
  {
    hide Inv, CanStep, PeerAfter, Emitted, Sorted;
    LastOf(streamId, h);
    var front, l := h[..|h| - 1], h[|h| - 1];
    AcksFollowArrivals(streamId, front);
    ReleasedToMin(At(streamId, front));
    var m := AckTimerSends(At(streamId, front).a, streamId, l.r);
    assert m in At(streamId, h).toB;
  }

  lemma ReleasedToMin(w: World)
    requires Inv(w)
    ensures w.a.conn.lowestUnseen == w.a.conn.buf.min
  {
  }

  lemma AckTimerSends(p: Peer, streamId: nat, r: Readings) returns (m: Message)
    ensures m in Emitted(p, streamId, AckTimer, r) && AckOf(m, p.conn.lowestUnseen, p.conn.ackSeqnos)
    ensures PeerAfter(p, streamId, AckTimer, r).conn.buf == p.conn.buf
  {
    m := DataAck(streamId, p.conn.lowestUnseen, Some(Sorted(p.conn.ackSeqnos)));
    assert Elements(m.selective.value) == p.conn.ackSeqnos;
  }
}
