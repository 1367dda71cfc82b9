/** Receive-side loss accounting: gaps in the frame numbers are lost once they stay
    unfilled for a second (src/session/rloss.rs). */
module ReceiveLoss {
  import opened Common

  /** One second, in microseconds. */
  const EXPIRY: Time := 1_000_000
  const MAX_SAMPLES: nat := 10

  type Stamps = map<Seqno, Time>

  predicate Expired(t: Time, now: Time) {
    now - t > EXPIRY
  }

  /** The entries that have not expired. */
  function Recent(m: Stamps, now: Time): Stamps {
    map s | s in m && !Expired(m[s], now) :: m[s]
  }

  function Stale(m: Stamps, now: Time): set<Seqno> {
    set s | s in m && Expired(m[s], now)
  }

  /** Later frame numbers never carry earlier stamps. */
  ghost predicate Monotone(m: Stamps) {
    forall s, t :: s in m && t in m && s <= t ==> m[s] <= m[t]
  }

  ghost predicate NoneAfter(m: Stamps, now: Time) {
    forall s :: s in m ==> m[s] <= now
  }

  /** The four books of frame numbers: received and recent, recent gaps, and those pruned as
      received or as lost. */
  datatype Books = Books(last: Seqno, good: Stamps, gap: Stamps, prunedGood: set<Seqno>, prunedLost: set<Seqno>)

  /** In how many of the books a frame number is. */
  function Places(b: Books, s: Seqno): nat {
    (if s in b.good then 1 else 0) + (if s in b.gap then 1 else 0)
    + (if s in b.prunedGood then 1 else 0) + (if s in b.prunedLost then 1 else 0)
  }

  function Expected(last: Seqno, s: Seqno): nat {
    if 1 <= s <= last then 1 else 0
  }

  /** Every frame number from 1 to `last` is in exactly one book, and no other is in any. */
  ghost predicate Balanced(b: Books) {
    forall s: Seqno :: Places(b, s) == Expected(b.last, s)
  }

  /** The books balance, and the stamps of all recent entries follow the frame numbers. */
  ghost predicate Sound(b: Books, now: Time) {
    Balanced(b) && Monotone(b.good + b.gap) && NoneAfter(b.good + b.gap, now)
  }

  function Range(last: Seqno): (r: set<Seqno>)
    ensures forall s :: s in r <==> 1 <= s <= last
    ensures |r| == last
  {
    if last == 0 then {} else Range(last - 1) + {last}
  }

  lemma OneBookEach(b: Books, s: Seqno)
    requires Balanced(b)
    ensures s in b.good ==> s !in b.gap && s !in b.prunedGood && s !in b.prunedLost
    ensures s in b.gap ==> s !in b.prunedGood && s !in b.prunedLost
    ensures s in b.prunedGood ==> s !in b.prunedLost
    ensures 1 <= s <= b.last <==> s in b.good || s in b.gap || s in b.prunedGood || s in b.prunedLost
  {
    assert Places(b, s) == Expected(b.last, s);
  }

  /** The four counts always add up to the highest frame number seen. */
  lemma BooksAddUp(b: Books)
    requires Balanced(b)
    ensures |b.good| + |b.gap| + |b.prunedGood| + |b.prunedLost| == b.last
  {
    hide Places, Expected, Range;
    var good, gap := b.good.Keys, b.gap.Keys;
    forall s: Seqno
      ensures s in good ==> s !in gap && s !in b.prunedGood && s !in b.prunedLost
      ensures s in gap ==> s !in b.prunedGood && s !in b.prunedLost
      ensures s in b.prunedGood ==> s !in b.prunedLost
      ensures s in Range(b.last) <==> s in good || s in gap || s in b.prunedGood || s in b.prunedLost
    {
      OneBookEach(b, s);
    }
    DisjointSizes(good, gap, b.prunedGood, b.prunedLost, Range(b.last));
    assert |b.good| == |good| && |b.gap| == |gap|;
  }

  lemma DisjointSizes(a: set<Seqno>, b: set<Seqno>, c: set<Seqno>, d: set<Seqno>, all: set<Seqno>)
    requires a !! b !! c !! d
    requires forall s :: s in all <==> s in a || s in b || s in c || s in d
    ensures |all| == |a| + |b| + |c| + |d|
  {
    assert all == a + b + c + d;
  }

  // ----- Filing, as functions of the books -----

  function Filled(b: Books, s: Seqno): Books
    requires s in b.gap
  {
    b.(good := b.good[s := b.gap[s]], gap := b.gap - {s})
  }

  function Advanced(b: Books, s: Seqno, stamp: Seqno -> Time): Books {
    b.(last := s, good := b.good[s := stamp(s)], gap := b.gap + GapsBetween(b.last, s, stamp))
  }

  function GapsBetween(last: Seqno, s: Seqno, stamp: Seqno -> Time): Stamps {
    map x: nat | last < x < s :: stamp(x)
  }

  lemma OneMoreGap(last: Seqno, s: Seqno, stamp: Seqno -> Time)
    requires last < s
    ensures GapsBetween(last, s + 1, stamp) == GapsBetween(last, s, stamp)[s := stamp(s)]
  {
  }

  /** What one received frame number does: it fills a gap under the time the gap was opened,
      or opens the gaps below a new highest number, or is too late to count. */
  function Filed(b: Books, s: Seqno, stamp: Seqno -> Time): Books {
    if s in b.gap then Filled(b, s) else if s > b.last then Advanced(b, s, stamp) else b
  }

  function Pruned(b: Books, now: Time): Books {
    Books(b.last, Recent(b.good, now), Recent(b.gap, now),
          b.prunedGood + Stale(b.good, now), b.prunedLost + Stale(b.gap, now))
  }

  /** The readings of the clock during one call: in order, and between two instants. */
  ghost predicate Readings(stamp: Seqno -> Time, clock: Time, now: Time) {
    forall s, t :: s <= t ==> clock <= stamp(s) <= stamp(t) <= now
  }

  lemma FilledStaysSound(b: Books, s: Seqno, clock: Time)
    requires Sound(b, clock) && s in b.gap
    ensures Sound(Filled(b, s), clock)
  {
    var after := Filled(b, s);
    OneBookEach(b, s);
    forall x: Seqno ensures Places(after, x) == Expected(after.last, x) {
      assert Places(b, x) == Expected(b.last, x);
    }
    assert after.good + after.gap == b.good + b.gap;
  }

  lemma AdvancedStaysSound(b: Books, s: Seqno, stamp: Seqno -> Time, clock: Time, now: Time)
    requires Sound(b, clock) && s > b.last && Readings(stamp, clock, now)
    ensures Sound(Advanced(b, s, stamp), now)
  {
    var after := Advanced(b, s, stamp);
    forall x: Seqno ensures Places(after, x) == Expected(after.last, x) {
      assert Places(b, x) == Expected(b.last, x);
    }
    var all, all' := b.good + b.gap, after.good + after.gap;
    forall x | x in all' ensures if x <= b.last then x in all && all'[x] == all[x] <= clock else all'[x] == stamp(x) {
      OneBookEach(b, x);
    }
    AppendedStamps(all, all', b.last, stamp, clock, now);
  }

  lemma AppendedStamps(all: Stamps, all': Stamps, last: Seqno, stamp: Seqno -> Time, clock: Time, now: Time)
    requires Monotone(all) && NoneAfter(all, clock) && Readings(stamp, clock, now)
    requires forall x :: x in all' ==> if x <= last then x in all && all'[x] == all[x] <= clock else all'[x] == stamp(x)
    ensures Monotone(all') && NoneAfter(all', now)
  {
    forall s, t | s in all' && t in all' && s <= t ensures all'[s] <= all'[t] {
      assert clock <= stamp(s) <= stamp(t) <= now;
    }
    forall s | s in all' ensures all'[s] <= now {
      assert clock <= stamp(s) <= stamp(s) <= now;
    }
  }

  lemma FiledStaysSound(b: Books, s: Seqno, stamp: Seqno -> Time, clock: Time, now: Time)
    requires Sound(b, clock) && Readings(stamp, clock, now)
    ensures Sound(Filed(b, s, stamp), now)
  {
    assert clock <= stamp(s) <= stamp(s) <= now;
    if s in b.gap {
      FilledStaysSound(b, s, clock);
    } else if s > b.last {
      AdvancedStaysSound(b, s, stamp, clock, now);
    }
  }

  lemma PrunedBalances(b: Books, now: Time)
    requires Balanced(b)
    ensures Balanced(Pruned(b, now))
  {
    var after := Pruned(b, now);
    forall x: Seqno ensures Places(after, x) == Expected(after.last, x) {
      assert Places(b, x) == Expected(b.last, x);
    }
  }

  /** Removing the expired keys of both maps from both maps leaves the recent entries of each. */
  lemma PruningTheUnion(b: Books, now: Time)
    requires Balanced(b)
    ensures b.good - (Stale(b.good, now) + Stale(b.gap, now)) == Recent(b.good, now)
    ensures b.gap - (Stale(b.good, now) + Stale(b.gap, now)) == Recent(b.gap, now)
  {
    forall x ensures x in b.good ==> x !in b.gap {
      if x in b.good { OneBookEach(b, x); }
    }
  }

  lemma PruningCounts(b: Books, now: Time)
    requires Balanced(b)
    ensures |Pruned(b, now).prunedGood| == |b.prunedGood| + |Stale(b.good, now)|
    ensures |Pruned(b, now).prunedLost| == |b.prunedLost| + |Stale(b.gap, now)|
  {
    forall x: Seqno ensures x !in b.prunedGood * Stale(b.good, now) && x !in b.prunedLost * Stale(b.gap, now) {
      OneBookEach(b, x);
    }
    assert b.prunedGood * Stale(b.good, now) == {} && b.prunedLost * Stale(b.gap, now) == {};
  }

  lemma PartsAreMonotone(all: Stamps, part: Stamps, now: Time)
    requires Monotone(all) && NoneAfter(all, now)
    requires forall s :: s in part ==> s in all && part[s] == all[s]
    ensures Monotone(part) && NoneAfter(part, now)
  {
  }

  lemma BothBooksAreMonotone(b: Books, now: Time)
    requires Sound(b, now)
    ensures Monotone(b.good) && Monotone(b.gap)
  {
    forall x ensures x in b.good ==> x !in b.gap {
      if x in b.good { OneBookEach(b, x); }
    }
    PartsAreMonotone(b.good + b.gap, b.good, now);
    PartsAreMonotone(b.good + b.gap, b.gap, now);
  }

  lemma PrunedStaysSound(b: Books, now: Time)
    requires Sound(b, now)
    ensures Sound(Pruned(b, now), now)
  {
    hide Balanced, Monotone, NoneAfter;
    PrunedBalances(b, now);
    forall x ensures x in b.good ==> x !in b.gap {
      if x in b.good { OneBookEach(b, x); }
    }
    var after := Pruned(b, now);
    PartsAreMonotone(b.good + b.gap, after.good + after.gap, now);
  }

  /** Exactly which frames a call newly counts as lost: those that were gaps, or are skipped by
      it, for more than a second, and not the one just received. */
  lemma VerdictsAreFair(b: Books, s: Seqno, stamp: Seqno -> Time, clock: Time, now: Time, x: Seqno)
    requires Sound(b, clock) && Readings(stamp, clock, now)
    ensures x in Pruned(Filed(b, s, stamp), now).prunedLost <==>
      || x in b.prunedLost
      || (x != s && x in b.gap && now - b.gap[x] > EXPIRY)
      || (b.last < x < s && now - stamp(x) > EXPIRY)
  {
    OneBookEach(b, s);
    OneBookEach(b, x);
  }

  // ----- Whole histories -----

  /** One call: the number received, the readings of the clock while it is filed, and the later
      readings for pruning and for sampling. */
  datatype Call = Call(seqno: Seqno, stamp: Seqno -> Time, now: Time, later: Time)

  function ClockAfter(calls: seq<Call>): Time {
    if calls == [] then 0 else calls[|calls| - 1].later
  }

  ghost predicate InOrder(calls: seq<Call>) {
    forall i :: 0 <= i < |calls| ==>
      Readings(calls[i].stamp, ClockAfter(calls[..i]), calls[i].now) && calls[i].now <= calls[i].later
  }

  function BooksAfter(calls: seq<Call>): Books {
    if calls == [] then Books(0, map[], map[], {}, {})
    else
      var last := calls[|calls| - 1];
      Pruned(Filed(BooksAfter(calls[..|calls| - 1]), last.seqno, last.stamp), last.now)
  }

  function RecordedIn(calls: seq<Call>): set<Seqno> {
    if calls == [] then {} else RecordedIn(calls[..|calls| - 1]) + {calls[|calls| - 1].seqno}
  }

  /** When a frame number was first due: as it or a higher one was first received. */
  function Opened(calls: seq<Call>, x: Seqno): Option<Time> {
    if calls == [] then None
    else
      var before, last := Opened(calls[..|calls| - 1], x), calls[|calls| - 1];
      if before.Some? || last.seqno < x then before else Some(last.stamp(x))
  }

  /** At the end of these calls a number has been due for more than a second. */
  predicate Overdue(calls: seq<Call>, x: Seqno) {
    calls != [] && Opened(calls, x).Some? && calls[|calls| - 1].now - Opened(calls, x).value > EXPIRY
  }

  /** After the first i calls it was overdue and had never been received. */
  predicate MissedAt(calls: seq<Call>, x: Seqno, i: nat) {
    i <= |calls| && x !in RecordedIn(calls[..i]) && Overdue(calls[..i], x)
  }

  ghost predicate Missed(calls: seq<Call>, x: Seqno) {
    exists i :: MissedAt(calls, x, i)
  }

  lemma MissedSnoc(calls: seq<Call>, x: Seqno)
    requires calls != []
    ensures Missed(calls, x) <==> Missed(calls[..|calls| - 1], x) || (x !in RecordedIn(calls) && Overdue(calls, x))
  {
    hide MissedAt, RecordedIn, Overdue;
    MissedAtEnd(calls, x);
    var front := calls[..|calls| - 1];
    forall i: nat | i != |calls| ensures MissedAt(calls, x, i) <==> MissedAt(front, x, i) {
      MissedBefore(calls, x, i);
    }
    if Missed(front, x) {
      var i :| MissedAt(front, x, i);
      assert MissedAt(calls, x, i);
    }
    if Missed(calls, x) {
      var i :| MissedAt(calls, x, i);
      assert i != |calls| ==> MissedAt(front, x, i);
    }
    if MissedAt(calls, x, |calls|) {
      assert Missed(calls, x);
    }
  }

  lemma MissedBefore(calls: seq<Call>, x: Seqno, i: nat)
    requires calls != [] && i != |calls|
    ensures MissedAt(calls, x, i) <==> MissedAt(calls[..|calls| - 1], x, i)
  {
    hide RecordedIn, Overdue;
    assert i < |calls| ==> calls[..|calls| - 1][..i] == calls[..i];
  }

  lemma MissedAtEnd(calls: seq<Call>, x: Seqno)
    requires calls != []
    ensures MissedAt(calls, x, |calls|) <==> x !in RecordedIn(calls) && Overdue(calls, x)
    ensures !MissedAt(calls[..|calls| - 1], x, |calls|)
  {
    hide RecordedIn, Overdue;
    assert calls[..|calls|] == calls;
  }

  lemma {:induction false} HistoryIsSound(calls: seq<Call>)
    requires InOrder(calls)
    ensures Sound(BooksAfter(calls), ClockAfter(calls))
    decreases |calls|
  {
    hide Balanced, Monotone, NoneAfter, Readings, Filed, Pruned;
    if calls == [] {
      EmptyIsSound();
    } else {
      var front, last := calls[..|calls| - 1], calls[|calls| - 1];
      FrontInOrder(calls);
      HistoryIsSound(front);
      var filed := Filed(BooksAfter(front), last.seqno, last.stamp);
      FiledStaysSound(BooksAfter(front), last.seqno, last.stamp, ClockAfter(front), last.now);
      PrunedStaysSound(filed, last.now);
      SoundLater(BooksAfter(calls), last.now, last.later);
    }
  }

  lemma EmptyIsSound()
    ensures Sound(Books(0, map[], map[], {}, {}), 0)
  {
  }

  lemma SoundLater(b: Books, clock: Time, now: Time)
    requires Sound(b, clock) && clock <= now
    ensures Sound(b, now)
  {
  }

  lemma FrontInOrder(calls: seq<Call>)
    requires InOrder(calls) && calls != []
    ensures var front, last := calls[..|calls| - 1], calls[|calls| - 1];
      InOrder(front) && Readings(last.stamp, ClockAfter(front), last.now) && last.now <= last.later
  {
    var front := calls[..|calls| - 1];
    forall i | 0 <= i < |front|
      ensures Readings(front[i].stamp, ClockAfter(front[..i]), front[i].now) && front[i].now <= front[i].later
    {
      assert front[..i] == calls[..i] && front[i] == calls[i];
    }
  }

  /** Where a frame number stands, told by the history of calls. */
  ghost predicate Stands(b: Books, x: Seqno, due: Option<Time>, recorded: bool, missed: bool, overdue: bool) {
    && (due.Some? <==> x <= b.last)
    && (x in b.good <==> due.Some? && recorded && !missed && !overdue)
    && (x in b.gap <==> due.Some? && !recorded && !missed)
    && (x in b.prunedGood <==> due.Some? && recorded && !missed && overdue)
    && (x in b.prunedLost <==> missed)
    && (x in b.good ==> b.good[x] == due.value)
    && (x in b.gap ==> b.gap[x] == due.value)
  }

  lemma StandingMoves(b: Books, x: Seqno, due: Option<Time>, recorded: bool, missed: bool, overdue: bool,
                      call: Call, clock: Time)
    requires x > 0 && Sound(b, clock) && Readings(call.stamp, clock, call.now)
    requires Stands(b, x, due, recorded, missed, overdue)
    requires overdue ==> due.Some? && clock - due.value > EXPIRY
    requires recorded ==> due.Some?
    ensures var o := if due.Some? || call.seqno < x then due else Some(call.stamp(x));
      var r := recorded || x == call.seqno;
      var d := o.Some? && call.now - o.value > EXPIRY;
      Stands(Pruned(Filed(b, call.seqno, call.stamp), call.now), x, o, r, missed || (!r && d), d)
  {
    OneBookEach(b, call.seqno);
    OneBookEach(b, x);
    assert clock <= call.stamp(x) <= call.stamp(x) <= call.now;
  }

  lemma {:induction false} EveryNumberStands(calls: seq<Call>, x: Seqno)
    requires InOrder(calls) && x > 0
    ensures Stands(BooksAfter(calls), x, Opened(calls, x), x in RecordedIn(calls), Missed(calls, x), Overdue(calls, x))
    ensures Opened(calls, x).Some? <==> exists s :: s in RecordedIn(calls) && x <= s
    decreases |calls|
  {
    hide Stands, Sound, Readings, Filed, Pruned;
    if calls == [] {
      NothingStands(x);
    } else {
      var front, last := calls[..|calls| - 1], calls[|calls| - 1];
      FrontInOrder(calls);
      EveryNumberStands(front, x);
      HistoryIsSound(front);
      MissedSnoc(calls, x);
      OverdueStays(front, x);
      StandingMoves(BooksAfter(front), x, Opened(front, x), x in RecordedIn(front), Missed(front, x), Overdue(front, x),
                    last, ClockAfter(front));
      assert last.seqno in RecordedIn(calls);
    }
  }

  lemma OverdueStays(calls: seq<Call>, x: Seqno)
    requires InOrder(calls)
    ensures Overdue(calls, x) ==> Opened(calls, x).Some? && ClockAfter(calls) - Opened(calls, x).value > EXPIRY
  {
  }

  lemma NothingStands(x: Seqno)
    requires x > 0
    ensures Stands(BooksAfter([]), x, None, false, Missed([], x), false)
  {
    assert forall i :: !MissedAt([], x, i);
  }

  /** The verdict on every frame number, over every history of calls. It is counted as lost if and
      only if at the end of some call it had been due for more than a second and had never been
      received; otherwise, once a number as high was received, it is a gap until it is received
      itself, and then good, which is counted when it has been due for more than a second. */
  lemma VerdictIff(calls: seq<Call>, x: Seqno)
    requires InOrder(calls) && x > 0
    ensures var b := BooksAfter(calls); var due := exists s :: s in RecordedIn(calls) && x <= s;
      && (x in b.prunedLost <==> Missed(calls, x))
      && (x in b.gap <==> due && x !in RecordedIn(calls) && !Missed(calls, x))
      && (x in b.good <==> x in RecordedIn(calls) && !Missed(calls, x) && !Overdue(calls, x))
      && (x in b.prunedGood <==> x in RecordedIn(calls) && !Missed(calls, x) && Overdue(calls, x))
      && (x <= b.last <==> due)
  {
    EveryNumberStands(calls, x);
  }

  /** An unexpired entry shields all later ones, so scanning in order may stop at the first. */
  lemma ScanMayStop(m: Stamps, keys: seq<Seqno>, i: nat, now: Time)
    requires Monotone(m) && Ascending(keys) && (forall s :: s in keys <==> s in m)
    requires i <= |keys| && (i < |keys| ==> keys[i] in m && !Expired(m[keys[i]], now))
    requires forall j :: 0 <= j < i ==> keys[j] in m && Expired(m[keys[j]], now)
    ensures Elements(keys[..i]) == Stale(m, now) && i == |Stale(m, now)|
  {
    DistinctCounts(keys[..i]);
    assert forall j, k :: 0 <= j <= k < |keys| && keys[j] in m && keys[k] in m ==> m[keys[j]] <= m[keys[k]];
    forall s ensures s in Elements(keys[..i]) <==> s in Stale(m, now) {
      if s in m && Expired(m[s], now) {
        assert s in keys;
        var j :| 0 <= j < |keys| && keys[j] == s;
        assert j < i;
        assert keys[..i][j] == s;
      }
    }
  }

  predicate IsPart(fraction: real, part: int, total: int) {
    fraction * total as real == part as real
  }

  class RecvLossCalc {
    var lastSeenSeqno: Seqno
    var goodSeqnos: Stamps
    var gapSeqnos: Stamps
    var lostCount: nat
    var goodCount: nat
    var lossSamples: seq<real>
    const window: Time
    var lastLossUpdate: Time
    /** The frames pruned so far, by verdict, and how many of them earlier samples reported. */
    ghost var prunedGood: set<Seqno>
    ghost var prunedLost: set<Seqno>
    ghost var sampledGood: nat
    ghost var sampledLost: nat
    /** Every call so far. */
    ghost var calls: seq<Call>

    ghost function State(): Books
      reads this
    {
      Books(lastSeenSeqno, goodSeqnos, gapSeqnos, prunedGood, prunedLost)
    }

    /** Every pruned frame is in the running counts or in an earlier sample (the count of good
        frames starts at one); there are at most ten samples, each a fraction. */
    ghost predicate Counted()
      reads this
    {
      && goodCount + sampledGood == |prunedGood| + 1
      && lostCount + sampledLost == |prunedLost|
      && |lossSamples| <= MAX_SAMPLES && forall i :: 0 <= i < |lossSamples| ==> 0.0 <= lossSamples[i] < 1.0
    }

    ghost predicate Valid()
      reads this
    {
      Counted() && InOrder(calls) && State() == BooksAfter(calls)
    }

    constructor (window: Time, now: Time)
      ensures Valid() && calls == [] && lossSamples == [] && lastLossUpdate == now
    {
      this.window, lastLossUpdate := window, now;
      lastSeenSeqno, goodSeqnos, gapSeqnos, lostCount, goodCount, lossSamples := 0, map[], map[], 0, 1, [];
      prunedGood, prunedLost, sampledGood, sampledLost, calls := {}, {}, 0, 0, [];
    }

    method File(seqno: Seqno, stamp: Seqno -> Time)
      modifies this`goodSeqnos, this`gapSeqnos, this`lastSeenSeqno
      ensures State() == Filed(old(State()), seqno, stamp)
    {
      assert GapsBetween(lastSeenSeqno, lastSeenSeqno + 1, stamp) == map[];
      hide GapsBetween;
      if seqno in gapSeqnos {
        var since := gapSeqnos[seqno];
        gapSeqnos := gapSeqnos - {seqno};
        goodSeqnos := goodSeqnos[seqno := since];
      } else if seqno > lastSeenSeqno {
        for missing := lastSeenSeqno + 1 to seqno
          invariant gapSeqnos == old(gapSeqnos) + GapsBetween(lastSeenSeqno, missing, stamp)
          invariant lastSeenSeqno == old(lastSeenSeqno) && goodSeqnos == old(goodSeqnos)
        {
          OneMoreGap(lastSeenSeqno, missing, stamp);
          gapSeqnos := gapSeqnos[missing := stamp(missing)];
        }
        lastSeenSeqno := seqno;
        goodSeqnos := goodSeqnos[seqno := stamp(seqno)];
      }
    }

    /** The keys to prune from one map: a scan in key order that stops at the first recent entry. */
    method Scan(m: Stamps, now: Time) returns (torem: seq<Seqno>)
      requires Monotone(m)
      ensures Elements(torem) == Stale(m, now) && |torem| == |Stale(m, now)|
    {
      hide Monotone, Ascending, Elements, Stale, Expired, Sorted;
      var keys := Sorted(m.Keys);
      torem := [];
      for i := 0 to |keys|
        invariant torem == keys[..i]
        invariant forall j :: 0 <= j < i ==> keys[j] in m && Expired(m[keys[j]], now)
      {
        assert keys[i] in keys;
        if Expired(m[keys[i]], now) {
          torem := torem + [keys[i]];
        } else {
          ScanMayStop(m, keys, i, now);
          return;
        }
      }
      ScanMayStop(m, keys, |keys|, now);
    }

    method RemoveAll(torem: seq<Seqno>)
      modifies this`goodSeqnos, this`gapSeqnos
      ensures goodSeqnos == old(goodSeqnos) - Elements(torem) && gapSeqnos == old(gapSeqnos) - Elements(torem)
    {
      for i := 0 to |torem|
        invariant goodSeqnos == old(goodSeqnos) - Elements(torem[..i])
        invariant gapSeqnos == old(gapSeqnos) - Elements(torem[..i])
      {
        assert torem[..i + 1] == torem[..i] + [torem[i]];
        assert Elements(torem[..i + 1]) == Elements(torem[..i]) + {torem[i]};
        goodSeqnos := goodSeqnos - {torem[i]};
        gapSeqnos := gapSeqnos - {torem[i]};
      }
      assert torem[..|torem|] == torem;
    }

    /** Prunes exactly the expired entries and counts each under its verdict. */
    method Prune(now: Time)
      requires Counted() && Sound(State(), now)
      modifies this`goodSeqnos, this`gapSeqnos, this`goodCount, this`lostCount, this`prunedGood, this`prunedLost
      ensures Counted() && State() == Pruned(old(State()), now)
      ensures goodCount == old(goodCount) + |Stale(old(goodSeqnos), now)|
      ensures lostCount == old(lostCount) + |Stale(old(gapSeqnos), now)|
    {
      hide Balanced, Monotone, NoneAfter, Expired, Recent, Stale, Elements;
      BothBooksAreMonotone(State(), now);
      PruningTheUnion(State(), now);
      PruningCounts(State(), now);
      var staleGood := Scan(goodSeqnos, now);
      var staleGap := Scan(gapSeqnos, now);
      goodCount := goodCount + |staleGood|;
      lostCount := lostCount + |staleGap|;
      prunedGood := prunedGood + Stale(goodSeqnos, now);
      prunedLost := prunedLost + Stale(gapSeqnos, now);
      ElementsOfBoth(staleGood, staleGap);
      RemoveAll(staleGood + staleGap);
    }

    /** Whether a sample is due: a window has passed and more than a hundred frames arrived. */
    predicate SampleDue(now: Time)
      reads this
    {
      now - lastLossUpdate > window && goodCount > 100
    }

    /** Takes a due sample, which is the lost part of the running counts, and starts them anew. */
    method Sample(now: Time)
      requires Counted()
      modifies this`lossSamples, this`lastLossUpdate, this`lostCount, this`goodCount, this`sampledGood, this`sampledLost
      ensures Counted()
      ensures old(SampleDue(now)) ==>
        && lossSamples != []
        && IsPart(lossSamples[|lossSamples| - 1], old(lostCount), old(goodCount) + old(lostCount))
        && lossSamples[..|lossSamples| - 1] == old(if |lossSamples| == MAX_SAMPLES then lossSamples[1..] else lossSamples)
        && goodCount == 0 && lostCount == 0 && lastLossUpdate == now
      ensures !old(SampleDue(now)) ==>
        lossSamples == old(lossSamples) && goodCount == old(goodCount) && lostCount == old(lostCount)
        && lastLossUpdate == old(lastLossUpdate)
    {
      var total := (if goodCount + lostCount > 1 then goodCount + lostCount else 1) as real;
      var loss := lostCount as real / total;
      if now - lastLossUpdate > window && goodCount > 100 {
        Fraction(lostCount as real, total);
        lossSamples := lossSamples + [loss];
        lastLossUpdate := now;
        sampledGood, sampledLost := sampledGood + goodCount, sampledLost + lostCount;
        lostCount, goodCount := 0, 0;
      }
      if |lossSamples| > MAX_SAMPLES {
        lossSamples := lossSamples[1..];
      }
    }

    /** One received frame number: afterwards the books are those of the history with this call
        in it, which balance, and the newly pruned frames are in the sample if one is due. */
    method Record(seqno: Seqno, stamp: Seqno -> Time, now: Time, later: Time)
      requires Valid() && Readings(stamp, ClockAfter(calls), now) && now <= later
      modifies this
      ensures Valid() && calls == old(calls) + [Call(seqno, stamp, now, later)]
      ensures |goodSeqnos| + |gapSeqnos| + |prunedGood| + |prunedLost| == lastSeenSeqno
      ensures var g := old(goodCount) + |prunedGood| - |old(prunedGood)|;
        var l := old(lostCount) + |prunedLost| - |old(prunedLost)|;
        if later - old(lastLossUpdate) > window && g > 100
        then && lossSamples != [] && IsPart(lossSamples[|lossSamples| - 1], l, g + l)
             && lossSamples[..|lossSamples| - 1] == old(if |lossSamples| == MAX_SAMPLES then lossSamples[1..] else lossSamples)
             && goodCount == 0 && lostCount == 0 && lastLossUpdate == later
        else lossSamples == old(lossSamples) && goodCount == g && lostCount == l && lastLossUpdate == old(lastLossUpdate)
    {
      hide Balanced, Monotone, NoneAfter, Readings, Filed, Pruned, BooksAfter, InOrder, ClockAfter, IsPart;
      HistoryIsSound(calls);
      FiledStaysSound(State(), seqno, stamp, ClockAfter(calls), now);
      var call := Call(seqno, stamp, now, later);
      CallInOrder(calls, call);
      calls := calls + [call];
      File(seqno, stamp);
      PrunedStaysSound(State(), now);
      Prune(now);
      BooksAddUp(State());
      Sample(later);
    }
  }

  lemma CallInOrder(calls: seq<Call>, call: Call)
    requires InOrder(calls) && Readings(call.stamp, ClockAfter(calls), call.now) && call.now <= call.later
    ensures InOrder(calls + [call])
    ensures BooksAfter(calls + [call]) == Pruned(Filed(BooksAfter(calls), call.seqno, call.stamp), call.now)
  {
    var all := calls + [call];
    assert all[..|calls|] == calls;
    forall i | 0 <= i < |all|
      ensures Readings(all[i].stamp, ClockAfter(all[..i]), all[i].now) && all[i].now <= all[i].later
    {
      assert i < |calls| ==> all[..i] == calls[..i] && all[i] == calls[i];
    }
  }

  lemma ElementsOfBoth(a: seq<Seqno>, b: seq<Seqno>)
    ensures Elements(a + b) == Elements(a) + Elements(b)
  {
  }

  lemma Fraction(part: real, total: real)
    requires 0.0 <= part < total
    ensures 0.0 <= part / total < 1.0 && part / total * total == part
  {
  }
}
