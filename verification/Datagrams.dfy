/** A session in one direction: the sender, a network that loses, duplicates, delays and
    reorders frames, and the receiver. What comes out is what went in, at most once. */
module Datagrams {
  import opened Common
  import opened ErasureCode
  import opened FecFraming
  import opened FecEncoding
  import opened OutOfBand
  import opened FecTheorems
  import opened Replay
  import opened Sending
  import opened Receiving

  /** `runs` are the runs that were given parity; `wire` holds the frames that may still
      arrive, any number of times; `out` is what the receiver has delivered so far. */
  datatype Session = Session(sender: Sender, sent: seq<Bytes>, runs: set<RunKey>, wire: set<Frame>,
                             recv: Receiver, out: seq<(Bytes, Seqno)>, panicked: bool)

  const START: Session := Session(NEW_SENDER, [], {}, {}, NEW_RECEIVER, [], false)

  datatype Step =
    | Payload(body: Bytes)
    | FecTimer(lossy: bool, wanted: nat)
    | Lose(kept: set<Frame>)
    | Arrive(frame: Frame, choice: Choice)

  /** The code recovers every run the sender can close when it asks for at most `cap`
      parity frames. */
  ghost predicate CodeCovers(rs: Codec, cap: nat) {
    forall k: nat, m: nat :: 0 < k <= BURST_SIZE && 0 < m <= cap && m <= 2 * k ==> AnyKRecover(rs, k, m)
  }

  /** The assumption is satisfiable. */
  lemma XorCoversSingleParity()
    ensures CodeCovers(XOR, 1)
  {
    forall k: nat, m: nat | 0 < k <= BURST_SIZE && 0 < m <= 1 && m <= 2 * k ensures AnyKRecover(XOR, k, m) {
      XorRecoversAnyK(k);
    }
  }

  ghost predicate CanStep(w: Session, cap: nat, l: Step) {
    match l
    case Payload(body) => |w.sender.unfecked| < BURST_SIZE && |body| <= MAX_PACKET
    case FecTimer(_, wanted) => w.sender.unfecked != [] && wanted <= cap
    case Lose(kept) => kept <= w.wire
    case Arrive(frame, choice) => frame in w.wire && ChoiceFits(w.recv, frame, choice)
  }

  /** Both ends are in the shape that their operations need. */
  ghost predicate Ready(w: Session, l: Step) {
    && |w.sender.unfecked| <= BURST_SIZE && Sendable(w.sender.unfecked) && Cacheable(w.recv)
    && (l.Arrive? ==> ChoiceFits(w.recv, l.frame, l.choice))
  }

  function KeysOf(fs: seq<Frame>): set<RunKey> {
    set f | f in fs && f.ParityFrame? :: KeyOf(f)
  }

  ghost function Stepped(rs: Codec, w: Session, l: Step): Session
    requires Ready(w, l)
  {
    match l
    case Payload(body) =>
      var (s, f) := PayloadSent(w.sender, body);
      w.(sender := s, sent := w.sent + [body], wire := w.wire + {f})
    case FecTimer(lossy, wanted) =>
      var (s, fs) := RunClosed(rs, w.sender, lossy, wanted);
      w.(sender := s, runs := w.runs + KeysOf(fs), wire := w.wire + set f | f in fs)
    case Lose(kept) => w.(wire := kept)
    case Arrive(frame, choice) =>
      var (r, o) := Received(rs, w.recv, frame, choice);
      match o
      case Panicked => w.(recv := r, panicked := true)
      case Delivered(list) => w.(recv := r, out := w.out + list)
  }

  // ----- The invariant -----

  function Numbers(out: seq<(Bytes, Seqno)>): set<Seqno> {
    set i | 0 <= i < |out| :: out[i].1
  }

  ghost predicate HonestFrame(rs: Codec, sent: seq<Bytes>, f: Frame) {
    match f
    case DataFrame(n, body) => n < |sent| && body == sent[n]
    case ParityFrame(_, _, _, idx, _, body) => HonestKey(rs, sent, KeyOf(f)) && HonestShard(rs, sent, KeyOf(f), idx, body)
  }

  /** Each output is a frame that was sent, and no frame number occurs twice. */
  ghost predicate Authentic(sent: seq<Bytes>, out: seq<(Bytes, Seqno)>) {
    && (forall i :: 0 <= i < |out| ==> out[i].1 < |sent| && out[i].0 == sent[out[i].1])
    && (forall i, j :: 0 <= i < j < |out| ==> out[i].1 != out[j].1)
  }

  ghost predicate Inv(rs: Codec, w: Session) {
    && !w.panicked
    && Packets(w.sent)
    && WellFormed(w.sender, w.sent)
    && (forall f :: f in w.wire ==> HonestFrame(rs, w.sent, f))
    && HonestCaches(rs, w.sent, w.recv.caches)
    && (forall s :: s in w.recv.caches.data ==> s in Numbers(w.out))
    && Authentic(w.sent, w.out)
    && Remembers(w.recv.filter, Numbers(w.out))
  }

  // ----- Sending -----

  lemma RunStaysHonest(rs: Codec, sent: seq<Bytes>, body: Bytes, key: RunKey)
    requires HonestKey(rs, sent, key) && |body| <= MAX_PACKET
    ensures HonestKey(rs, sent + [body], key)
    ensures CodeOf(rs, sent + [body], key) == CodeOf(rs, sent, key)
  {
    assert BodiesOf(sent + [body], key) == BodiesOf(sent, key);
  }

  lemma CachesStillHonest(rs: Codec, sent: seq<Bytes>, body: Bytes, c: Caches)
    requires HonestCaches(rs, sent, c) && |body| <= MAX_PACKET
    ensures HonestCaches(rs, sent + [body], c)
  {
    forall key | key in c.parity
      ensures HonestKey(rs, sent + [body], key) && HonestSlot(rs, sent + [body], key, c.parity[key])
    {
      RunStaysHonest(rs, sent, body, key);
    }
  }

  lemma FrameStillHonest(rs: Codec, sent: seq<Bytes>, body: Bytes, f: Frame)
    requires HonestFrame(rs, sent, f) && |body| <= MAX_PACKET
    ensures HonestFrame(rs, sent + [body], f)
  {
    if f.ParityFrame? {
      RunStaysHonest(rs, sent, body, KeyOf(f));
    }
  }

  lemma PayloadKeepsInv(rs: Codec, w: Session, cap: nat, body: Bytes)
    requires Inv(rs, w) && CanStep(w, cap, Payload(body)) && Cacheable(w.recv)
    ensures Inv(rs, Stepped(rs, w, Payload(body)))
  {
    hide HonestCaches, HonestFrame, Remembers;
    var v := Stepped(rs, w, Payload(body));
    CachesStillHonest(rs, w.sent, body, w.recv.caches);
    forall f | f in v.wire ensures HonestFrame(rs, v.sent, f) {
      if f in w.wire {
        FrameStillHonest(rs, w.sent, body, f);
      } else {
        NewFrameHonest(rs, w.sent, body);
      }
    }
  }

  lemma NewFrameHonest(rs: Codec, sent: seq<Bytes>, body: Bytes)
    ensures HonestFrame(rs, sent + [body], DataFrame(|sent|, body))
  {
  }

  /** Every parity frame of a closed run is an honest shard of the frames it names. The
      frames of a run are contiguous and at most 16, its shards at most 255, and its shard
      length is that of its data shards. */
  lemma ClosedRunIsHonest(rs: Codec, s: Sender, sent: seq<Bytes>, cap: nat, lossy: bool, wanted: nat, f: Frame)
    requires CodeCovers(rs, cap) && wanted <= cap && WellFormed(s, sent) && Packets(sent)
    requires f in RunClosed(rs, s, lossy, wanted).1
    ensures f.ParityFrame? && HonestFrame(rs, sent, f)
    ensures 0 < f.dataCount <= BURST_SIZE && f.first + f.dataCount == |sent|
    ensures f.dataCount + f.parityCount <= 255 && f.index < f.parityCount
    ensures f.padSize == |f.body|
  {
    hide HonestFrame, AnyKRecover;
    SendableBodies(s.unfecked);
    var bodies := Bodies(s.unfecked);
    var k, m, first := |bodies|, RepairLen(wanted, |bodies|), |sent| - |bodies|;
    RunIsSlice(s, sent);
    assert f in ParityFrames(first, k, MaxLen(bodies) + 2, ParityOf(rs, bodies, m));
    assert m > 0 && AnyKRecover(rs, k, m);
    ParityIsHonest(rs, sent, first, bodies, m, f);
  }

  /** A run closed under loss goes out with every parity shard its encoder asked for, under
      indices 0, 1, 2 and so on. */
  lemma ClosedRunSendsAllParity(rs: Codec, s: Sender, sent: seq<Bytes>, cap: nat, wanted: nat)
    requires CodeCovers(rs, cap) && wanted <= cap && WellFormed(s, sent) && Packets(sent) && s.unfecked != []
    ensures var fs := RunClosed(rs, s, true, wanted).1;
      && |fs| == RepairLen(wanted, |s.unfecked|)
      && forall i :: 0 <= i < |fs| ==> fs[i].ParityFrame? && fs[i].index == i && fs[i].parityCount == |fs|
  {
    SendableBodies(s.unfecked);
    var bodies := Bodies(s.unfecked);
    var m := RepairLen(wanted, |bodies|);
    if m > 0 {
      assert AnyKRecover(rs, |bodies|, m);
      ParityIsStripe(rs, bodies, m);
    }
  }

  lemma RunIsSlice(s: Sender, sent: seq<Bytes>)
    requires WellFormed(s, sent)
    ensures var first := |sent| - |s.unfecked|;
      && Bodies(s.unfecked) == sent[first..first + |s.unfecked|]
      && (s.unfecked != [] ==> s.unfecked[0].0 == first)
  {
  }

  lemma ParityIsHonest(rs: Codec, sent: seq<Bytes>, first: Seqno, bodies: seq<Bytes>, m: nat, f: Frame)
    requires Packets(sent) && Packets(bodies) && |bodies| > 0 && m > 0 && |bodies| + m <= 255
    requires first + |bodies| <= |sent| && bodies == sent[first..first + |bodies|]
    requires AnyKRecover(rs, |bodies|, m)
    requires f in ParityFrames(first, |bodies|, MaxLen(bodies) + 2, ParityOf(rs, bodies, m))
    ensures f.ParityFrame? && HonestFrame(rs, sent, f)
    ensures f.first == first && f.dataCount == |bodies| && f.parityCount == m && f.index < m && f.padSize == |f.body|
  {
    hide Padded, ParityOf, CodeOf, HonestKey, HonestShard, AnyKRecover, ParityFrames;
    var key, parity := RunKey(first, |bodies|, m, MaxLen(bodies) + 2), ParityOf(rs, bodies, m);
    ParityIsStripe(rs, bodies, m);
    ListedShard(first, |bodies|, key.padSize, parity, f);
    RunIsHonest(rs, sent, key, bodies, f.index);
    assert KeyOf(f) == key && f.body == parity[f.index];
  }

  lemma ListedShard(first: Seqno, k: nat, padSize: nat, parity: seq<Bytes>, f: Frame)
    requires f in ParityFrames(first, k, padSize, parity)
    ensures f.ParityFrame? && f.index < |parity|
    ensures f == ParityFrame(first, k, |parity|, f.index, padSize, parity[f.index])
  {
  }

  lemma ParityIsStripe(rs: Codec, bodies: seq<Bytes>, m: nat)
    requires Packets(bodies) && m > 0 && AnyKRecover(rs, |bodies|, m)
    ensures Stripe(ParityOf(rs, bodies, m), m, MaxLen(bodies) + 2)
  {
    PaddedIsStripe(bodies);
    assert RecoversStripe(rs, |bodies|, m, Padded(bodies), MaxLen(bodies) + 2);
  }

  lemma RunIsHonest(rs: Codec, sent: seq<Bytes>, key: RunKey, bodies: seq<Bytes>, i: nat)
    requires Packets(sent) && Packets(bodies) && key.dataLen == |bodies| > 0 && key.parityLen > 0
    requires key.dataLen + key.parityLen <= 255 && key.padSize == MaxLen(bodies) + 2
    requires key.first + |bodies| <= |sent| && bodies == sent[key.first..key.first + |bodies|]
    requires AnyKRecover(rs, key.dataLen, key.parityLen)
    requires i < key.parityLen && i < |ParityOf(rs, bodies, key.parityLen)|
    ensures HonestKey(rs, sent, key)
    ensures HonestShard(rs, sent, key, i, ParityOf(rs, bodies, key.parityLen)[i])
  {
    assert BodiesOf(sent, key) == bodies;
    assert CodeOf(rs, sent, key) == Padded(bodies) + ParityOf(rs, bodies, key.parityLen);
  }

  // ----- Receiving -----

  lemma NumbersGrow(out: seq<(Bytes, Seqno)>, more: seq<(Bytes, Seqno)>)
    ensures Numbers(out + more) == Numbers(out) + Numbers(more)
  {
    forall s | s in Numbers(out) ensures s in Numbers(out + more) {
      var i :| 0 <= i < |out| && out[i].1 == s;
      assert (out + more)[i].1 == s;
    }
    forall s | s in Numbers(more) ensures s in Numbers(out + more) {
      var i :| 0 <= i < |more| && more[i].1 == s;
      assert (out + more)[|out| + i].1 == s;
    }
  }

  /** Frame n has been delivered, or is older than the filter's span. */
  ghost predicate Settled(out: seq<(Bytes, Seqno)>, f: Filter, n: Seqno) {
    n in Numbers(out) || n + SPAN < f.top
  }

  /** The deliveries and the filter, before and after some offers. */
  ghost predicate Extends(out: seq<(Bytes, Seqno)>, f: Filter, now: seq<(Bytes, Seqno)>, g: Filter) {
    Numbers(out) <= Numbers(now) && f.top <= g.top
  }

  ghost predicate InStep(sent: seq<Bytes>, out: seq<(Bytes, Seqno)>, f: Filter) {
    Authentic(sent, out) && Remembers(f, Numbers(out))
  }

  lemma OneMore(sent: seq<Bytes>, out: seq<(Bytes, Seqno)>, f: Filter, body: Bytes, n: Seqno)
    requires InStep(sent, out, f) && n < |sent| && body == sent[n]
    ensures var (after, ok) := Offered(f, n); var now := if ok then out + [(body, n)] else out;
      InStep(sent, now, after) && Settled(now, after, n) && Extends(out, f, now, after)
      && (ok ==> Numbers(now) == Numbers(out) + {n})
  {
    hide Authentic, Remembers, Offered;
    AgreesWithHistory(f, Numbers(out), n);
    if Offered(f, n).1 {
      AuthenticGrows(sent, out, body, n);
    }
    TopOnlyGrows(f, n);
  }

  lemma TopOnlyGrows(f: Filter, n: Seqno)
    ensures f.top <= Offered(f, n).0.top
    ensures !Offered(f, n).1 ==> Offered(f, n).0 == f
  {
  }

  lemma AuthenticGrows(sent: seq<Bytes>, out: seq<(Bytes, Seqno)>, body: Bytes, n: Seqno)
    requires Authentic(sent, out) && n !in Numbers(out) && n < |sent| && body == sent[n]
    ensures Authentic(sent, out + [(body, n)])
    ensures Numbers(out + [(body, n)]) == Numbers(out) + {n}
  {
    NumbersGrow(out, [(body, n)]);
    assert Numbers([(body, n)]) == {n} by {
      assert [(body, n)][0].1 == n;
    }
    forall i | 0 <= i < |out| ensures out[i].1 != n {
      assert out[i].1 in Numbers(out);
    }
  }

  ghost predicate AllSent(sent: seq<Bytes>, list: seq<(Seqno, Bytes)>) {
    forall i :: 0 <= i < |list| ==> list[i].0 < |sent| && list[i].1 == sent[list[i].0]
  }

  ghost predicate AllSettled(out: seq<(Bytes, Seqno)>, f: Filter, list: seq<(Seqno, Bytes)>) {
    forall i :: 0 <= i < |list| ==> Settled(out, f, list[i].0)
  }

  lemma {:induction false} ManyMore(sent: seq<Bytes>, out: seq<(Bytes, Seqno)>, f: Filter, list: seq<(Seqno, Bytes)>)
    requires InStep(sent, out, f) && AllSent(sent, list)
    ensures var (after, kept) := OfferedAll(f, list);
      InStep(sent, out + kept, after) && AllSettled(out + kept, after, list) && Extends(out, f, out + kept, after)
  {
    hide InStep, Offered;
    if list == [] {
      assert out + [] == out;
    } else {
      var front, last := list[..|list| - 1], list[|list| - 1];
      ManyMore(sent, out, f, front);
      var (g, kept) := OfferedAll(f, front);
      OneMore(sent, out + kept, g, last.1, last.0);
      assert out + (kept + [(last.1, last.0)]) == (out + kept) + [(last.1, last.0)];
      forall i | 0 <= i < |list| ensures Settled(out + OfferedAll(f, list).1, OfferedAll(f, list).0, list[i].0) {
        if i < |front| {
          assert front[i] == list[i];
          assert Settled(out + kept, g, front[i].0);
        }
      }
    }
  }

  lemma DataCachedHonestly(rs: Codec, sent: seq<Bytes>, c: Caches, n: Seqno, body: Bytes, evicted: set<Seqno>)
    requires HonestCaches(rs, sent, c) && n < |sent| && body == sent[n]
    ensures HonestCaches(rs, sent, DataInserted(c, n, body, evicted))
  {
    hide HonestKey, HonestSlot;
  }

  lemma DataKeepsInv(rs: Codec, w: Session, f: Frame, c: Choice)
    requires Inv(rs, w) && f.DataFrame? && f in w.wire && Cacheable(w.recv)
    ensures Inv(rs, Stepped(rs, w, Arrive(f, c)))
  {
    hide HonestCaches, Offered, WellFormed, Authentic, Remembers, Numbers;
    assert HonestFrame(rs, w.sent, f);
    hide HonestFrame;
    assert InStep(w.sent, w.out, w.recv.filter);
    OneMore(w.sent, w.out, w.recv.filter, f.body, f.frameNo);
    DataCachedHonestly(rs, w.sent, w.recv.caches, f.frameNo, f.body, c.dropData);
    assert w.out + [] == w.out;
  }

  /** What the decoder gives back for a parity frame: frames that were sent, and all the
      missing ones if the attempt is not spoilt. */
  lemma RebuiltAreSent(rs: Codec, sent: seq<Bytes>, c: Caches, key: RunKey, idx: nat, body: Bytes,
                       evicted: set<RunKey>, order: seq<nat>) returns (list: seq<(Seqno, Bytes)>)
    requires HonestCaches(rs, sent, c) && HonestKey(rs, sent, key) && HonestShard(rs, sent, key, idx, body)
    requires Triggers(c, key, idx, body) ==> Lists(order, FullSlot(c, key, idx, body))
    ensures ParityInserted(rs, c, key, idx, body, evicted, order).1 == Frames(list)
    ensures HonestCaches(rs, sent, ParityInserted(rs, c, key, idx, body, evicted, order).0)
    ensures AllSent(sent, list)
    ensures Triggers(c, key, idx, body) && !MarkerComesFirst(c.data, key, order) ==> GivesBackAll(sent, c.data, key, list)
  {
    hide ParityInserted, HonestShard, HonestCaches, GivesBackAll, MarkerComesFirst, Originals;
    HonestCachesArePackets(rs, sent, c);
    RebuildIsExact(rs, sent, c, key, idx, body, evicted, order);
    list := ParityInserted(rs, c, key, idx, body, evicted, order).1.list;
    OriginalsGiveBackAll(sent, c.data, key);
    OriginalsAreSent(sent, MissingOf(c.data, key.first, key.dataLen));
  }

  lemma HonestCachesArePackets(rs: Codec, sent: seq<Bytes>, c: Caches)
    requires HonestCaches(rs, sent, c)
    ensures Packets(sent) && forall s :: s in c.data ==> |c.data[s]| <= MAX_PACKET
  {
    hide HonestKey, HonestSlot;
  }

  lemma OriginalsAreSent(sent: seq<Bytes>, missing: seq<Seqno>)
    requires forall i :: 0 <= i < |missing| ==> missing[i] < |sent|
    ensures AllSent(sent, Originals(sent, missing))
  {
  }

  lemma FrameNamesRun(rs: Codec, sent: seq<Bytes>, f: Frame)
    requires HonestFrame(rs, sent, f) && f.ParityFrame?
    ensures HonestKey(rs, sent, KeyOf(f)) && HonestShard(rs, sent, KeyOf(f), f.index, f.body)
    ensures f.first + f.dataCount <= |sent|
  {
  }

  /** What a parity frame adds to a session. */
  lemma ParityArrives(rs: Codec, w: Session, f: Frame, c: Choice) returns (list: seq<(Seqno, Bytes)>)
    requires Inv(rs, w) && f.ParityFrame? && f in w.wire && Cacheable(w.recv) && ChoiceFits(w.recv, f, c)
    ensures var v := Stepped(rs, w, Arrive(f, c));
      && v == w.(recv := v.recv, out := v.out) && v.recv.caches.data == w.recv.caches.data
      && HonestCaches(rs, w.sent, v.recv.caches) && InStep(w.sent, v.out, v.recv.filter)
      && AllSettled(v.out, v.recv.filter, list) && Extends(w.out, w.recv.filter, v.out, v.recv.filter)
    ensures f.first + f.dataCount <= |w.sent|
    ensures Triggers(w.recv.caches, KeyOf(f), f.index, f.body) && !MarkerComesFirst(w.recv.caches.data, KeyOf(f), c.order)
      ==> GivesBackAll(w.sent, w.recv.caches.data, KeyOf(f), list)
  {
    hide HonestCaches, Authentic, Remembers, WellFormed, HonestFrame, GivesBackAll;
    FrameNamesRun(rs, w.sent, f);
    list := RebuiltAreSent(rs, w.sent, w.recv.caches, KeyOf(f), f.index, f.body, c.dropRuns, c.order);
    ManyMore(w.sent, w.out, w.recv.filter, list);
  }

  lemma ParityKeepsInv(rs: Codec, w: Session, f: Frame, c: Choice)
    requires Inv(rs, w) && f.ParityFrame? && f in w.wire && Cacheable(w.recv) && ChoiceFits(w.recv, f, c)
    ensures Inv(rs, Stepped(rs, w, Arrive(f, c)))
  {
    hide HonestCaches, WellFormed, HonestFrame, Stepped;
    var _ := ParityArrives(rs, w, f, c);
  }

  lemma StepKeepsInv(rs: Codec, cap: nat, w: Session, l: Step)
    requires CodeCovers(rs, cap) && Inv(rs, w) && CanStep(w, cap, l)
    ensures Cacheable(w.recv) && Inv(rs, Stepped(rs, w, l))
  {
    CachedIsPacket(rs, w);
    match l
    case Payload(body) => PayloadKeepsInv(rs, w, cap, body);
    case FecTimer(lossy, wanted) => FecTimerKeepsInv(rs, cap, w, lossy, wanted);
    case Lose(_) =>
    case Arrive(f, c) =>
      if f.DataFrame? {
        DataKeepsInv(rs, w, f, c);
      } else {
        ParityKeepsInv(rs, w, f, c);
      }
  }

  lemma CachedIsPacket(rs: Codec, w: Session)
    requires Inv(rs, w)
    ensures Cacheable(w.recv)
  {
  }

  lemma FecTimerKeepsInv(rs: Codec, cap: nat, w: Session, lossy: bool, wanted: nat)
    requires CodeCovers(rs, cap) && Inv(rs, w) && wanted <= cap && Cacheable(w.recv)
    ensures Inv(rs, Stepped(rs, w, FecTimer(lossy, wanted)))
  {
    hide HonestFrame, HonestCaches, Remembers;
    var fs := RunClosed(rs, w.sender, lossy, wanted).1;
    forall f | f in fs ensures HonestFrame(rs, w.sent, f) {
      ClosedRunIsHonest(rs, w.sender, w.sent, cap, lossy, wanted, f);
    }
  }

  // ----- Whole runs -----

  ghost function After(rs: Codec, run: seq<Step>): Session {
    if run == [] then START
    else
      var before, l := After(rs, run[..|run| - 1]), run[|run| - 1];
      if Ready(before, l) then Stepped(rs, before, l) else before
  }

  ghost predicate CanRun(rs: Codec, cap: nat, run: seq<Step>) {
    run == [] || (CanRun(rs, cap, run[..|run| - 1]) && CanStep(After(rs, run[..|run| - 1]), cap, run[|run| - 1]))
  }

  lemma InvIsReady(rs: Codec, cap: nat, w: Session, l: Step)
    requires Inv(rs, w) && CanStep(w, cap, l)
    ensures Ready(w, l)
  {
    CachedIsPacket(rs, w);
  }

  lemma {:induction false} RunKeepsInv(rs: Codec, cap: nat, run: seq<Step>)
    requires CodeCovers(rs, cap) && CanRun(rs, cap, run)
    ensures Inv(rs, After(rs, run))
    ensures run != [] ==> Ready(After(rs, run[..|run| - 1]), run[|run| - 1])
    decreases |run|
  {
    if run == [] {
      StartSatisfiesInv(rs);
    } else {
      var before, l := After(rs, run[..|run| - 1]), run[|run| - 1];
      RunKeepsInv(rs, cap, run[..|run| - 1]);
      InvIsReady(rs, cap, before, l);
      StepKeepsInv(rs, cap, before, l);
    }
  }

  lemma StartSatisfiesInv(rs: Codec)
    ensures Inv(rs, START)
  {
  }

  /** In every run, everything delivered, directly or rebuilt, is a payload under the frame
      number it was sent with; no frame number is delivered twice; and the length assertion
      of the decoder never fails. */
  lemma DeliveredIsAuthenticAtMostOnce(rs: Codec, cap: nat, run: seq<Step>)
    requires CodeCovers(rs, cap) && CanRun(rs, cap, run)
    ensures var w := After(rs, run); Authentic(w.sent, w.out) && !w.panicked
  {
    RunKeepsInv(rs, cap, run);
  }

  /** In every run, a parity frame that triggers an attempt not spoilt by the marker leaves
      every frame of its run delivered, unless it is older than the replay filter's span.
      `RunCompleteness.ComesBackIff` says which arrivals lead to an attempt. */
  lemma EnoughShardsFillTheRun(rs: Codec, cap: nat, run: seq<Step>, f: Frame, c: Choice, n: Seqno)
    requires CodeCovers(rs, cap) && CanRun(rs, cap, run)
    requires var w := After(rs, run);
      && f.ParityFrame? && f in w.wire && Triggers(w.recv.caches, KeyOf(f), f.index, f.body)
      && ChoiceFits(w.recv, f, c) && !MarkerComesFirst(w.recv.caches.data, KeyOf(f), c.order)
      && f.first <= n < f.first + f.dataCount
    ensures Ready(After(rs, run), Arrive(f, c))
    ensures var v := Stepped(rs, After(rs, run), Arrive(f, c));
      n < |v.sent| && ((v.sent[n], n) in v.out || n + SPAN < v.recv.filter.top)
  {
    var w := After(rs, run);
    RunKeepsInv(rs, cap, run);
    InvIsReady(rs, cap, w, Arrive(f, c));
    var v := Stepped(rs, w, Arrive(f, c));
    TriggerSettles(rs, w, f, c, n);
    if n in Numbers(v.out) {
      StepKeepsInv(rs, cap, w, Arrive(f, c));
      DeliveredUnderNumber(v.sent, v.out, n);
    }
  }

  lemma DeliveredUnderNumber(sent: seq<Bytes>, out: seq<(Bytes, Seqno)>, n: Seqno)
    requires Authentic(sent, out) && n in Numbers(out)
    ensures n < |sent| && (sent[n], n) in out
  {
    var i :| 0 <= i < |out| && out[i].1 == n;
    assert out[i] == (sent[n], n);
  }

  lemma TriggerSettles(rs: Codec, w: Session, f: Frame, c: Choice, n: Seqno)
    requires Inv(rs, w) && Cacheable(w.recv)
    requires f.ParityFrame? && f in w.wire && Triggers(w.recv.caches, KeyOf(f), f.index, f.body)
    requires ChoiceFits(w.recv, f, c) && !MarkerComesFirst(w.recv.caches.data, KeyOf(f), c.order)
    requires f.first <= n < f.first + f.dataCount
    ensures var v := Stepped(rs, w, Arrive(f, c)); n < |v.sent| && Settled(v.out, v.recv.filter, n)
  {
    hide HonestCaches, HonestFrame, WellFormed, Remembers, Authentic, Stepped, Triggers, MarkerComesFirst;
    var list := ParityArrives(rs, w, f, c);
    if n !in w.recv.caches.data {
      assert (n, w.sent[n]) in list;
    }
  }
}
