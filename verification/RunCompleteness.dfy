/** Exactly which arrivals bring the missing frames of a run back. */
module RunCompleteness {
  import opened Common
  import opened ErasureCode
  import opened FecFraming
  import opened FecEncoding
  import opened OutOfBand
  import opened FecTheorems
  import opened Replay
  import opened Sending
  import opened Receiving
  import opened Datagrams

  // ----- The runs of a sender do not overlap -----

  predicate InRun(key: RunKey, n: Seqno) {
    key.first <= n < key.first + key.dataLen
  }

  predicate Apart(k: RunKey, j: RunKey) {
    k.first + k.dataLen <= j.first || j.first + j.dataLen <= k.first
  }

  ghost predicate RunsApart(w: Session) {
    && (forall f :: f in w.wire && f.ParityFrame? ==> KeyOf(f) in w.runs)
    && (forall k, j :: k in w.runs && j in w.runs && k != j ==> Apart(k, j))
    && (forall k :: k in w.runs ==> k.first + k.dataLen + |w.sender.unfecked| <= |w.sent|)
  }

  /** All parity frames of a closed run name the same run: the frames that were unprotected. */
  lemma ClosedRunKey(rs: Codec, s: Sender, sent: seq<Bytes>, lossy: bool, wanted: nat) returns (key: RunKey)
    requires WellFormed(s, sent)
    ensures key.first == |sent| - |s.unfecked| && key.dataLen == |s.unfecked|
    ensures KeysOf(RunClosed(rs, s, lossy, wanted).1) <= {key}
    ensures forall f :: f in RunClosed(rs, s, lossy, wanted).1 ==> f.ParityFrame? && KeyOf(f) == key
  {
    SendableBodies(s.unfecked);
    RunIsSlice(s, sent);
    var bodies := Bodies(s.unfecked);
    var parity := ParityOf(rs, bodies, RepairLen(wanted, |bodies|));
    key := RunKey(|sent| - |bodies|, |bodies|, |parity|, MaxLen(bodies) + 2);
    forall f | f in RunClosed(rs, s, lossy, wanted).1 ensures f.ParityFrame? && KeyOf(f) == key {
      ListedShard(key.first, |bodies|, key.padSize, parity, f);
    }
  }

  lemma StepKeepsRunsApart(rs: Codec, cap: nat, w: Session, l: Step)
    requires Inv(rs, w) && RunsApart(w) && CanStep(w, cap, l) && Ready(w, l)
    ensures RunsApart(Stepped(rs, w, l)) && w.runs <= Stepped(rs, w, l).runs
  {
    if l.FecTimer? {
      var _ := ClosedRunKey(rs, w.sender, w.sent, l.lossy, l.wanted);
    }
  }

  lemma {:induction false} RunsStayApart(rs: Codec, cap: nat, run: seq<Step>)
    requires CodeCovers(rs, cap) && CanRun(rs, cap, run)
    ensures RunsApart(After(rs, run))
    ensures run != [] ==> After(rs, run[..|run| - 1]).runs <= After(rs, run).runs
    decreases |run|
  {
    if run != [] {
      var front := run[..|run| - 1];
      RunsStayApart(rs, cap, front);
      RunKeepsInv(rs, cap, front);
      RunKeepsInv(rs, cap, run);
      StepKeepsRunsApart(rs, cap, After(rs, front), run[|run| - 1]);
    }
  }

  // ----- What arrived of a run -----

  /** A data frame of the run arrives before the replay filter has moved past it. */
  ghost predicate InTime(rs: Codec, before: seq<Step>, l: Step, key: RunKey) {
    && l.Arrive? && l.frame.DataFrame? && InRun(key, l.frame.frameNo)
    && l.frame.frameNo + SPAN >= After(rs, before).recv.filter.top
  }

  /** The data frames of a run that arrived in time. */
  ghost function FramesOf(rs: Codec, run: seq<Step>, key: RunKey): set<Seqno> {
    if run == [] then {}
    else
      var front, l := run[..|run| - 1], run[|run| - 1];
      FramesOf(rs, front, key) + if InTime(rs, front, l, key) then {l.frame.frameNo} else {}
  }

  predicate IsShard(l: Step, key: RunKey) {
    l.Arrive? && l.frame.ParityFrame? && KeyOf(l.frame) == key
  }

  /** The parity frames of a run that arrived, by index. */
  function ShardsOf(run: seq<Step>, key: RunKey): set<nat> {
    if run == [] then {}
    else
      var l := run[|run| - 1];
      ShardsOf(run[..|run| - 1], key) + if IsShard(l, key) then {l.frame.index} else {}
  }

  /** The last arrival is a parity frame with which as many different frames of the run have
      arrived as it has data frames. */
  ghost predicate Completes(rs: Codec, run: seq<Step>, key: RunKey) {
    && run != [] && IsShard(run[|run| - 1], key)
    && |FramesOf(rs, run[..|run| - 1], key)| + |ShardsOf(run, key)| >= key.dataLen
  }

  /** No data frame of the run had arrived, and the marker is listed first. */
  ghost predicate Spoilt(rs: Codec, run: seq<Step>, key: RunKey) {
    && run != [] && FramesOf(rs, run[..|run| - 1], key) == {}
    && var l := run[|run| - 1]; l.Arrive? && l.choice.order != [] && l.choice.order[0] == ATTEMPTED
  }

  /** The caches never drop anything of the run. */
  ghost predicate Keeps(run: seq<Step>, key: RunKey) {
    forall i :: 0 <= i < |run| ==> KeptBy(run[i], key)
  }

  ghost predicate KeptBy(l: Step, key: RunKey) {
    l.Arrive? ==> key !in l.choice.dropRuns && forall n :: InRun(key, n) ==> n !in l.choice.dropData
  }

  /** The first i steps of the run end with its one attempt, which gives back frame n. */
  ghost predicate ComesBackAt(rs: Codec, run: seq<Step>, key: RunKey, n: Seqno, i: nat) {
    && 0 < i <= |run|
    && Completes(rs, run[..i], key) && (forall j :: 0 < j < i ==> !Completes(rs, run[..j], key))
    && !Spoilt(rs, run[..i], key)
    && n + SPAN >= After(rs, run[..i - 1]).recv.filter.top
  }

  // ----- The same, step by step -----

  ghost predicate Tried(rs: Codec, run: seq<Step>, key: RunKey) {
    run != [] && (Tried(rs, run[..|run| - 1], key) || Completes(rs, run, key))
  }

  /** The frames of the run that the replay filter would still take and that have not come yet. */
  ghost function Wanted(key: RunKey, frames: set<Seqno>, top: Seqno): set<Seqno> {
    set n | key.first <= n < key.first + key.dataLen && n !in frames && n + SPAN >= top
  }

  ghost function Given(rs: Codec, run: seq<Step>, key: RunKey): set<Seqno> {
    if run == [] then {}
    else
      var front := run[..|run| - 1];
      if Tried(rs, front, key) then Given(rs, front, key)
      else if Completes(rs, run, key) && !Spoilt(rs, run, key)
      then Wanted(key, FramesOf(rs, front, key), After(rs, front).recv.filter.top)
      else {}
  }

  lemma {:induction false} TriedIff(rs: Codec, run: seq<Step>, key: RunKey)
    ensures Tried(rs, run, key) <==> exists j :: 0 < j <= |run| && Completes(rs, run[..j], key)
    decreases |run|
  {
    if run != [] {
      var front := run[..|run| - 1];
      TriedIff(rs, front, key);
      assert run[..|run|] == run;
      assert forall j :: 0 <= j < |run| ==> front[..j] == run[..j];
    }
  }

  /** One more step adds at most one attempt. */
  lemma ComesBackSnoc(rs: Codec, run: seq<Step>, key: RunKey, n: Seqno, i: nat)
    requires run != []
    ensures ComesBackAt(rs, run, key, n, i) <==>
      if i == |run|
      then !Tried(rs, run[..i - 1], key) && Completes(rs, run, key) && !Spoilt(rs, run, key)
           && n + SPAN >= After(rs, run[..i - 1]).recv.filter.top
      else ComesBackAt(rs, run[..|run| - 1], key, n, i)
  {
    hide Completes, Spoilt, After, Tried;
    var front := run[..|run| - 1];
    TriedIff(rs, front, key);
    assert run[..|run|] == run;
    assert forall j :: 0 <= j < |run| ==> front[..j] == run[..j];
  }

  lemma {:induction false} GivenIff(rs: Codec, run: seq<Step>, key: RunKey, n: Seqno)
    requires InRun(key, n) && n !in FramesOf(rs, run, key)
    ensures n in Given(rs, run, key) <==> exists i :: ComesBackAt(rs, run, key, n, i)
    decreases |run|
  {
    hide Completes, Spoilt, After;
    if run != [] {
      var front := run[..|run| - 1];
      GivenIff(rs, front, key, n);
      ComesBackSnoc(rs, run, key, n, |run|);
      forall i | i != |run| ensures ComesBackAt(rs, run, key, n, i) <==> ComesBackAt(rs, front, key, n, i) {
        ComesBackSnoc(rs, run, key, n, i);
      }
      UntriedGivesNothing(rs, front, key);
    }
  }

  lemma UntriedGivesNothing(rs: Codec, run: seq<Step>, key: RunKey)
    ensures !Tried(rs, run, key) ==> Given(rs, run, key) == {}
  {
    hide Completes, Spoilt, After;
  }

  // ----- The receiver follows -----

  /** What the receiver holds and has delivered of a run. */
  ghost predicate Follows(w: Session, key: RunKey, frames: set<Seqno>, shards: set<nat>, tried: bool, given: set<Seqno>) {
    && (if tried then ATTEMPTED in SlotOf(w.recv.caches, key)
        else && given == {} && SlotOf(w.recv.caches, key).Keys == shards
             && forall n :: InRun(key, n) ==> (n in w.recv.caches.data <==> n in frames))
    && (forall n :: n in frames ==> InRun(key, n))
    && (forall n :: InRun(key, n) && n !in frames ==> (n in Numbers(w.out) <==> n in given))
  }

  /** The filter takes a frame that is new and not too old. */
  lemma DataDelivered(rs: Codec, w: Session, f: Frame, c: Choice)
    requires Inv(rs, w) && f.DataFrame? && Ready(w, Arrive(f, c))
    ensures var v := Stepped(rs, w, Arrive(f, c));
      if f.frameNo !in Numbers(w.out) && f.frameNo + SPAN >= w.recv.filter.top
      then && v.recv.caches == DataInserted(w.recv.caches, f.frameNo, f.body, c.dropData)
           && Numbers(v.out) == Numbers(w.out) + {f.frameNo}
      else v.recv.caches == w.recv.caches && Numbers(v.out) == Numbers(w.out)
  {
    AgreesWithHistory(w.recv.filter, Numbers(w.out), f.frameNo);
    NumbersGrow(w.out, [(f.body, f.frameNo)]);
    assert Numbers([(f.body, f.frameNo)]) == {f.frameNo} by {
      assert [(f.body, f.frameNo)][0].1 == f.frameNo;
    }
    assert w.out + [] == w.out;
  }

  lemma DataFollows(rs: Codec, w: Session, f: Frame, c: Choice, key: RunKey,
                    frames: set<Seqno>, shards: set<nat>, tried: bool, given: set<Seqno>)
    requires Inv(rs, w) && f.DataFrame? && Ready(w, Arrive(f, c)) && KeptBy(Arrive(f, c), key)
    requires Follows(w, key, frames, shards, tried, given)
    ensures var inTime := InRun(key, f.frameNo) && f.frameNo + SPAN >= w.recv.filter.top;
      Follows(Stepped(rs, w, Arrive(f, c)), key, frames + (if inTime then {f.frameNo} else {}), shards, tried, given)
  {
    hide Stepped, Numbers, HonestCaches, HonestFrame, WellFormed, Authentic, Remembers;
    DataDelivered(rs, w, f, c);
    assert forall n :: n in w.recv.caches.data ==> n in Numbers(w.out);
  }

  lemma {:induction false} MissingAscends(data: map<Seqno, Bytes>, first: Seqno, n: nat)
    ensures Ascending(MissingOf(data, first, n))
    ensures forall s :: s in MissingOf(data, first, n) <==> first <= s < first + n && s !in data
  {
    if n > 0 {
      MissingAscends(data, first, n - 1);
      var front := MissingOf(data, first, n - 1);
      assert forall i :: 0 <= i < |front| ==> front[i] in front;
    }
  }

  function Listed(list: seq<(Seqno, Bytes)>): set<Seqno> {
    set i | 0 <= i < |list| :: list[i].0
  }

  ghost predicate Ascends(list: seq<(Seqno, Bytes)>) {
    forall i, j :: 0 <= i < j < |list| ==> list[i].0 < list[j].0
  }

  function Takeable(some: set<Seqno>, top: Seqno): set<Seqno> {
    set n | n in some && n + SPAN >= top
  }

  /** Of frames offered in order, none delivered before, the filter takes exactly those that
      were not too old to begin with: none of them makes a later one too old. */
  lemma {:induction false} OfferedExactly(f: Filter, accepted: set<Seqno>, list: seq<(Seqno, Bytes)>)
    requires Remembers(f, accepted) && Ascends(list) && Listed(list) !! accepted
    ensures var (g, kept) := OfferedAll(f, list);
      && Numbers(kept) == Takeable(Listed(list), f.top)
      && Remembers(g, accepted + Numbers(kept))
      && f.top <= g.top && (g.top == f.top || g.top in Listed(list))
    decreases |list|
  {
    if list != [] {
      var front, last := list[..|list| - 1], list[|list| - 1];
      ListedGrows(front, last);
      assert list == front + [last];
      OfferedExactly(f, accepted, front);
      OfferLast(f, accepted, front, last);
    } else {
      assert Numbers([]) == {};
      assert accepted + {} == accepted;
    }
  }

  lemma ListedGrows(front: seq<(Seqno, Bytes)>, last: (Seqno, Bytes))
    ensures Listed(front + [last]) == Listed(front) + {last.0}
  {
    var list := front + [last];
    forall s | s in Listed(front) ensures s in Listed(list) {
      var i :| 0 <= i < |front| && front[i].0 == s;
      assert list[i].0 == s;
    }
    assert list[|front|].0 == last.0;
  }

  lemma OfferVerdict(f: Filter, accepted: set<Seqno>, n: Seqno)
    requires Remembers(f, accepted)
    ensures var (g, ok) := Offered(f, n);
      && (ok <==> n !in accepted && n + SPAN >= f.top)
      && Remembers(g, if ok then accepted + {n} else accepted)
      && g.top == if ok && n > f.top then n else f.top
  {
    AgreesWithHistory(f, accepted, n);
  }

  lemma OfferLast(f: Filter, accepted: set<Seqno>, front: seq<(Seqno, Bytes)>, last: (Seqno, Bytes))
    requires var (g, kept) := OfferedAll(f, front);
      && Numbers(kept) == Takeable(Listed(front), f.top)
      && Remembers(g, accepted + Numbers(kept))
      && f.top <= g.top && (g.top == f.top || g.top in Listed(front))
    requires last.0 !in accepted && forall n :: n in Listed(front) ==> n < last.0
    ensures var (g, kept) := OfferedAll(f, front + [last]);
      && Numbers(kept) == Takeable(Listed(front) + {last.0}, f.top)
      && Remembers(g, accepted + Numbers(kept))
      && f.top <= g.top && (g.top == f.top || g.top in Listed(front) + {last.0})
  {
    hide Remembers, Numbers, Listed, Offered;
    var (g, kept) := OfferedAll(f, front);
    OfferedSnoc(f, front, last);
    OfferVerdict(g, accepted + Numbers(kept), last.0);
    OneNumber(last.1, last.0);
    NumbersGrow(kept, [(last.1, last.0)]);
    assert accepted + (Numbers(kept) + {last.0}) == (accepted + Numbers(kept)) + {last.0};
    OneMoreTakeable(Listed(front), last.0, f.top);
  }

  lemma OfferedSnoc(f: Filter, front: seq<(Seqno, Bytes)>, last: (Seqno, Bytes))
    ensures var (g, kept) := OfferedAll(f, front); var (h, ok) := Offered(g, last.0);
      OfferedAll(f, front + [last]) == (h, if ok then kept + [(last.1, last.0)] else kept)
  {
    hide Offered;
    assert (front + [last])[..|front|] == front;
  }

  lemma OneMoreTakeable(some: set<Seqno>, n: Seqno, top: Seqno)
    ensures Takeable(some + {n}, top) == if n + SPAN >= top then Takeable(some, top) + {n} else Takeable(some, top)
  {
  }

  lemma OneNumber(body: Bytes, n: Seqno)
    ensures Numbers([(body, n)]) == {n}
  {
    assert [(body, n)][0].1 == n;
  }

  /** The decoder's listing of the cached frames is as long as there are such frames. */
  lemma HeldCounts(data: map<Seqno, Bytes>, key: RunKey, frames: set<Seqno>)
    requires forall n :: InRun(key, n) ==> (n in data <==> n in frames)
    requires forall n :: n in frames ==> InRun(key, n)
    ensures |HeldOf(data, key.first, key.dataLen)| == |frames|
    ensures HeldOf(data, key.first, key.dataLen) == [] <==> frames == {}
  {
    var held := HeldOf(data, key.first, key.dataLen);
    HeldIsCached(data, key.first, key.dataLen);
    DistinctCounts(held);
    assert Elements(held) == frames;
  }

  lemma OriginalsListed(sent: seq<Bytes>, missing: seq<Seqno>)
    requires Ascending(missing) && forall i :: 0 <= i < |missing| ==> missing[i] < |sent|
    ensures Ascends(Originals(sent, missing)) && Listed(Originals(sent, missing)) == Elements(missing)
  {
    var list := Originals(sent, missing);
    forall s | s in missing ensures s in Listed(list) {
      var i :| 0 <= i < |missing| && missing[i] == s;
      assert list[i].0 == s;
    }
  }

  ghost predicate Tries(w: Session, f: Frame, c: Choice)
    requires f.ParityFrame?
  {
    Triggers(w.recv.caches, KeyOf(f), f.index, f.body) && !MarkerComesFirst(w.recv.caches.data, KeyOf(f), c.order)
  }

  /** The frames of a run that are not cached. */
  function Uncached(w: Session, key: RunKey): set<Seqno> {
    set n | key.first <= n < key.first + key.dataLen && n !in w.recv.caches.data
  }

  lemma ParityCaches(rs: Codec, w: Session, f: Frame, c: Choice)
    requires Inv(rs, w) && f.ParityFrame? && f in w.wire && Ready(w, Arrive(f, c))
    ensures Stepped(rs, w, Arrive(f, c)).recv.caches
      == ParityInserted(rs, w.recv.caches, KeyOf(f), f.index, f.body, c.dropRuns, c.order).0
  {
    hide ParityInserted;
    var _ := ParityArrives(rs, w, f, c);
  }

  /** The frames that the decoder offers to the filter on a parity frame. */
  lemma ParityOffers(rs: Codec, w: Session, f: Frame, c: Choice) returns (list: seq<(Seqno, Bytes)>)
    requires Inv(rs, w) && f.ParityFrame? && f in w.wire && Ready(w, Arrive(f, c))
    ensures Ascends(list) && Listed(list) == if Tries(w, f, c) then Uncached(w, KeyOf(f)) else {}
    ensures Stepped(rs, w, Arrive(f, c)).out == w.out + OfferedAll(w.recv.filter, list).1
  {
    hide ParityInserted, HonestShard, HonestKey, MarkerComesFirst, Triggers, Authentic, Remembers, WellFormed, OfferedAll;
    var key := KeyOf(f);
    FrameNamesRun(rs, w.sent, f);
    RebuildIsExact(rs, w.sent, w.recv.caches, key, f.index, f.body, c.dropRuns, c.order);
    list := ParityInserted(rs, w.recv.caches, key, f.index, f.body, c.dropRuns, c.order).1.list;
    MissingAscends(w.recv.caches.data, key.first, key.dataLen);
    var missing := MissingOf(w.recv.caches.data, key.first, key.dataLen);
    assert forall i :: 0 <= i < |missing| ==> missing[i] in missing;
    OriginalsListed(w.sent, missing);
    assert Elements(missing) == Uncached(w, key);
  }

  /** What a parity frame adds to the deliveries: nothing, or the uncached frames of its run
      that are not too old, if none was delivered before. */
  lemma ParityDelivers(rs: Codec, w: Session, f: Frame, c: Choice) returns (more: set<Seqno>)
    requires Inv(rs, w) && f.ParityFrame? && f in w.wire && Ready(w, Arrive(f, c))
    ensures Numbers(Stepped(rs, w, Arrive(f, c)).out) == Numbers(w.out) + more
    ensures more <= if Tries(w, f, c) then Uncached(w, KeyOf(f)) else {}
    ensures Tries(w, f, c) && Uncached(w, KeyOf(f)) !! Numbers(w.out) ==>
      more == Takeable(Uncached(w, KeyOf(f)), w.recv.filter.top)
  {
    hide Stepped, Tries, Uncached, Numbers, OfferedAll, Remembers;
    var list := ParityOffers(rs, w, f, c);
    OfferedOnlyListed(w.recv.filter, list);
    more := Numbers(OfferedAll(w.recv.filter, list).1);
    NumbersGrow(w.out, OfferedAll(w.recv.filter, list).1);
    if Listed(list) !! Numbers(w.out) {
      OfferedExactly(w.recv.filter, Numbers(w.out), list);
    }
  }

  lemma {:induction false} OfferedOnlyListed(f: Filter, list: seq<(Seqno, Bytes)>)
    ensures Numbers(OfferedAll(f, list).1) <= Listed(list)
    decreases |list|
  {
    if list != [] {
      var front, last := list[..|list| - 1], list[|list| - 1];
      OfferedOnlyListed(f, front);
      ListedGrows(front, last);
      assert list == front + [last];
      OneNumber(last.1, last.0);
      NumbersGrow(OfferedAll(f, front).1, [(last.1, last.0)]);
    }
  }

  /** A parity frame of another run does not touch this one. */
  lemma OtherParityFollows(rs: Codec, w: Session, f: Frame, c: Choice, key: RunKey,
                           frames: set<Seqno>, shards: set<nat>, tried: bool, given: set<Seqno>)
    requires Inv(rs, w) && f.ParityFrame? && f in w.wire && Ready(w, Arrive(f, c)) && KeptBy(Arrive(f, c), key)
    requires KeyOf(f) != key && Apart(KeyOf(f), key)
    requires Follows(w, key, frames, shards, tried, given)
    ensures Follows(Stepped(rs, w, Arrive(f, c)), key, frames, shards, tried, given)
  {
    hide Stepped, Numbers, Inv, Triggers, MarkerComesFirst, Attempt;
    CachedIsPacket(rs, w);
    ParityCaches(rs, w, f, c);
    var _ := ParityDelivers(rs, w, f, c);
  }

  /** A parity frame of this run: the attempt, unless there was one. */
  lemma OwnParityFollows(rs: Codec, w: Session, f: Frame, c: Choice, key: RunKey,
                         frames: set<Seqno>, shards: set<nat>, tried: bool, given: set<Seqno>)
    requires Inv(rs, w) && f.ParityFrame? && f in w.wire && Ready(w, Arrive(f, c)) && KeptBy(Arrive(f, c), key)
    requires KeyOf(f) == key && Follows(w, key, frames, shards, tried, given)
    requires ATTEMPTED !in shards
    ensures var completes := |frames| + |shards + {f.index}| >= key.dataLen;
      var spoilt := frames == {} && c.order != [] && c.order[0] == ATTEMPTED;
      var now := if tried then given
                 else if completes && !spoilt then Wanted(key, frames, w.recv.filter.top) else {};
      Follows(Stepped(rs, w, Arrive(f, c)), key, frames, shards + {f.index}, tried || completes, now)
  {
    hide Stepped, Numbers, Inv, Attempt;
    ParityCaches(rs, w, f, c);
    var more := ParityDelivers(rs, w, f, c);
    if !tried {
      HeldCounts(w.recv.caches.data, key, frames);
      var slot := SlotOf(w.recv.caches, key)[f.index := f.body];
      assert slot.Keys == shards + {f.index};
      assert |slot| == |slot.Keys|;
    }
  }

  // ----- Whole runs -----

  lemma {:induction false} ShardsAreReal(rs: Codec, cap: nat, run: seq<Step>, key: RunKey)
    requires CodeCovers(rs, cap) && CanRun(rs, cap, run)
    ensures ATTEMPTED !in ShardsOf(run, key)
    decreases |run|
  {
    if run != [] {
      var front, l := run[..|run| - 1], run[|run| - 1];
      ShardsAreReal(rs, cap, front, key);
      if IsShard(l, key) {
        RunKeepsInv(rs, cap, front);
        assert HonestFrame(rs, After(rs, front).sent, l.frame);
      }
    }
  }

  /** The receiver agrees with the arrivals after every run that does not evict frames of the key. */
  lemma {:induction false} RunFollows(rs: Codec, cap: nat, run: seq<Step>, key: RunKey)
    requires CodeCovers(rs, cap) && CanRun(rs, cap, run) && Keeps(run, key)
    requires forall k :: k in After(rs, run).runs ==> k == key || Apart(k, key)
    ensures Follows(After(rs, run), key, FramesOf(rs, run, key), ShardsOf(run, key), Tried(rs, run, key), Given(rs, run, key))
    decreases |run|
  {
    if run == [] {
      assert SlotOf(START.recv.caches, key) == map[];
    } else {
      var front := run[..|run| - 1];
      RunsStayApart(rs, cap, front);
      RunsStayApart(rs, cap, run);
      RunFollows(rs, cap, front, key);
      RunKeepsInv(rs, cap, front);
      RunKeepsInv(rs, cap, run);
      ShardsAreReal(rs, cap, front, key);
      StepFollows(rs, cap, run, key);
    }
  }

  lemma StepFollows(rs: Codec, cap: nat, run: seq<Step>, key: RunKey)
    requires run != []
    requires var front, l := run[..|run| - 1], run[|run| - 1]; var w := After(rs, front);
      && Inv(rs, w) && RunsApart(w) && CanStep(w, cap, l) && Ready(w, l) && KeptBy(l, key)
      && (forall k :: k in w.runs ==> k == key || Apart(k, key))
      && ATTEMPTED !in ShardsOf(front, key)
      && Follows(w, key, FramesOf(rs, front, key), ShardsOf(front, key), Tried(rs, front, key), Given(rs, front, key))
    ensures Follows(After(rs, run), key, FramesOf(rs, run, key), ShardsOf(run, key), Tried(rs, run, key), Given(rs, run, key))
  {
    hide Inv, Follows, Stepped;
    var front, l := run[..|run| - 1], run[|run| - 1];
    var w := After(rs, front);
    var frames, shards, tried, given := FramesOf(rs, front, key), ShardsOf(front, key), Tried(rs, front, key), Given(rs, front, key);
    FollowsNothingUntried(w, key, frames, shards, tried, given);
    if !l.Arrive? {
      QuietFollows(rs, w, l, key, frames, shards, tried, given);
    } else if l.frame.DataFrame? {
      DataFollows(rs, w, l.frame, l.choice, key, frames, shards, tried, given);
    } else if KeyOf(l.frame) == key {
      OwnParityFollows(rs, w, l.frame, l.choice, key, frames, shards, tried, given);
    } else {
      OtherParityFollows(rs, w, l.frame, l.choice, key, frames, shards, tried, given);
    }
  }

  lemma FollowsNothingUntried(w: Session, key: RunKey, frames: set<Seqno>, shards: set<nat>, tried: bool, given: set<Seqno>)
    requires Follows(w, key, frames, shards, tried, given)
    ensures tried || given == {}
    ensures frames + {} == frames && shards + {} == shards
  {
  }

  lemma QuietFollows(rs: Codec, w: Session, l: Step, key: RunKey,
                     frames: set<Seqno>, shards: set<nat>, tried: bool, given: set<Seqno>)
    requires Ready(w, l) && !l.Arrive? && Follows(w, key, frames, shards, tried, given)
    ensures Follows(Stepped(rs, w, l), key, frames, shards, tried, given)
  {
  }

  /** In every run of a session whose receiver never drops anything of a protected run, a frame
      of it that does not arrive in time comes back if and only if some parity frame arrives
      when, counting it, as many different data and parity frames of the run have arrived as it
      has data frames; it is the first to do so, it is not spoilt by the marker, and the frame
      is not too old by then. A data frame that makes up the number brings nothing back. */
  lemma ComesBackIff(rs: Codec, cap: nat, run: seq<Step>, key: RunKey, n: Seqno)
    requires CodeCovers(rs, cap) && CanRun(rs, cap, run) && key in After(rs, run).runs && Keeps(run, key)
    requires InRun(key, n) && n !in FramesOf(rs, run, key)
    ensures var w := After(rs, run);
      && n < |w.sent|
      && ((w.sent[n], n) in w.out <==> exists i :: ComesBackAt(rs, run, key, n, i))
  {
    hide Completes, Spoilt, FramesOf, ShardsOf, Given, Tried, After, CanRun, CodeCovers;
    var w := After(rs, run);
    RunKeepsInv(rs, cap, run);
    RunsStayApart(rs, cap, run);
    RunFollows(rs, cap, run, key);
    GivenIff(rs, run, key, n);
    if n in Numbers(w.out) {
      DeliveredUnderNumber(w.sent, w.out, n);
    }
    if (w.sent[n], n) in w.out {
      var i :| 0 <= i < |w.out| && w.out[i] == (w.sent[n], n);
      assert w.out[i].1 in Numbers(w.out);
    }
  }

  // ----- A run that is missed although enough of it arrives -----

  lemma RunSnoc(rs: Codec, cap: nat, run: seq<Step>, l: Step)
    requires CodeCovers(rs, cap) && CanRun(rs, cap, run) && CanStep(After(rs, run), cap, l)
    ensures CanRun(rs, cap, run + [l]) && Ready(After(rs, run), l)
    ensures After(rs, run + [l]) == Stepped(rs, After(rs, run), l)
  {
    hide CanStep, Ready, Stepped, CodeCovers;
    assert (run + [l])[..|run|] == run;
    RunKeepsInv(rs, cap, run);
    RunKeepsInv(rs, cap, run + [l]);
  }

  lemma ArrivalsSnoc(rs: Codec, run: seq<Step>, l: Step, key: RunKey)
    ensures FramesOf(rs, run + [l], key) == FramesOf(rs, run, key) + if InTime(rs, run, l, key) then {l.frame.frameNo} else {}
    ensures ShardsOf(run + [l], key) == ShardsOf(run, key) + if IsShard(l, key) then {l.frame.index} else {}
  {
    assert (run + [l])[..|run|] == run;
  }

  /** The sender's part: two frames, and then their parity. */
  lemma TwoFramesSent() returns (run: seq<Step>)
    ensures CodeCovers(XOR, 1) && CanRun(XOR, 1, run) && run == [Payload([7]), Payload([9])]
    ensures var w := After(XOR, run);
      && w.sender == Sender(2, [(0, [7]), (1, [9])]) && w.sent == [[7], [9]] && w.recv == NEW_RECEIVER && w.out == []
      && DataFrame(0, [7]) in w.wire
    ensures forall key :: FramesOf(XOR, run, key) == {} && ShardsOf(run, key) == {}
  {
    hide CodeCovers, XOR;
    XorCoversSingleParity();
    RunSnoc(XOR, 1, [], Payload([7]));
    assert [] + [Payload([7])] == [Payload([7])];
    RunSnoc(XOR, 1, [Payload([7])], Payload([9]));
    run := [Payload([7])] + [Payload([9])];
    forall key ensures FramesOf(XOR, run, key) == {} && ShardsOf(run, key) == {} {
      ArrivalsSnoc(XOR, [], Payload([7]), key);
      ArrivalsSnoc(XOR, [Payload([7])], Payload([9]), key);
    }
  }

  lemma TwoProtectedFrames() returns (run: seq<Step>, key: RunKey, f: Frame)
    ensures CodeCovers(XOR, 1) && CanRun(XOR, 1, run) && run == [Payload([7]), Payload([9]), FecTimer(true, 1)]
    ensures var w := After(XOR, run);
      && w.sent == [[7], [9]] && w.recv == NEW_RECEIVER && w.out == []
      && DataFrame(0, [7]) in w.wire && f in w.wire && key in w.runs
    ensures f.ParityFrame? && f.index == 0 && KeyOf(f) == key && key.first == 0 && key.dataLen == 2
    ensures FramesOf(XOR, run, key) == {} && ShardsOf(run, key) == {}
  {
    hide CodeCovers, XOR, After, CanRun, FramesOf, ShardsOf, Inv, RunClosed;
    var two := TwoFramesSent();
    var s := After(XOR, two).sender;
    RunSnoc(XOR, 1, two, FecTimer(true, 1));
    run := two + [FecTimer(true, 1)];
    key := ClosedRunKey(XOR, s, [[7], [9]], true, 1);
    ClosedRunSendsAllParity(XOR, s, [[7], [9]], 1, 1);
    f := RunClosed(XOR, s, true, 1).1[0];
    ArrivalsSnoc(XOR, two, FecTimer(true, 1), key);
  }

  lemma TooFewForAnAttempt(f: Frame)
    requires f.ParityFrame? && f.dataCount == 2
    ensures !Triggers(NEW_RECEIVER.caches, KeyOf(f), f.index, f.body)
  {
    HeldCounts(map[], KeyOf(f), {});
    var slot := SlotOf(NEW_RECEIVER.caches, KeyOf(f))[f.index := f.body];
    assert slot.Keys == {f.index};
    assert |slot| == |slot.Keys|;
  }

  lemma JustStored(w: Session, f: Frame)
    requires w.recv == NEW_RECEIVER && f.ParityFrame? && f.dataCount == 2 && Ready(w, Arrive(f, Choice({}, {}, [])))
    ensures var v := Stepped(XOR, w, Arrive(f, Choice({}, {}, []))); v == w.(recv := v.recv) && v.recv.filter == NEW_FILTER
  {
    hide XOR, Triggers;
    TooFewForAnAttempt(f);
    assert w.out + [] == w.out;
  }

  lemma NoAttempt(sent: seq<Step>, first: Step, second: Step, key: RunKey)
    requires |sent| == 3 && (forall i :: 0 <= i < 3 ==> !sent[i].Arrive?)
    requires second.Arrive? && second.frame.DataFrame? && key.dataLen == 2
    requires FramesOf(XOR, sent, key) == {} && |ShardsOf(sent + [first], key)| == 1
    ensures forall i :: !ComesBackAt(XOR, sent + [first] + [second], key, 1, i)
  {
    hide XOR, Spoilt, After, FramesOf, ShardsOf;
    var run := sent + [first] + [second];
    forall i | 0 < i <= |run| ensures !Completes(XOR, run[..i], key) {
      assert run[..i][i - 1] == run[i - 1];
      if i == 4 {
        assert run[..4] == sent + [first] && (sent + [first])[..3] == sent;
      }
    }
  }

  /** Two frames and one parity frame are sent. The parity frame arrives, then the first data
      frame: as many frames as the run has data frames, no marker, nothing dropped. The other
      frame is not given back, because only a parity frame leads to an attempt. */
  lemma ParityOvertakesData() returns (run: seq<Step>, key: RunKey)
    ensures CodeCovers(XOR, 1) && CanRun(XOR, 1, run) && Keeps(run, key)
    ensures key in After(XOR, run).runs && key.first == 0 && key.dataLen == 2
    ensures |FramesOf(XOR, run, key)| + |ShardsOf(run, key)| == key.dataLen && 1 !in FramesOf(XOR, run, key)
    ensures After(XOR, run).sent == [[7], [9]] && ([9], 1) !in After(XOR, run).out
  {
    hide XOR, CodeCovers, Triggers, Stepped, FramesOf, ShardsOf;
    var sent, f;
    sent, key, f := TwoProtectedFrames();
    var first, second := Arrive(f, Choice({}, {}, [])), Arrive(DataFrame(0, [7]), Choice({}, {}, []));
    TooFewForAnAttempt(f);
    RunSnoc(XOR, 1, sent, first);
    JustStored(After(XOR, sent), f);
    RunSnoc(XOR, 1, sent + [first], second);
    run := sent + [first] + [second];
    ArrivalsSnoc(XOR, sent, first, key);
    ArrivalsSnoc(XOR, sent + [first], second, key);
    SameSent(After(XOR, sent + [first]), second);
    NoAttempt(sent, first, second, key);
    ComesBackIff(XOR, 1, run, key, 1);
  }

  lemma SameSent(w: Session, l: Step)
    requires l.Arrive? && Ready(w, l)
    ensures Stepped(XOR, w, l).sent == w.sent && Stepped(XOR, w, l).runs == w.runs
  {
    hide XOR;
  }
}
