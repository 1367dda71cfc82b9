/** The filter against replayed handshakes: what was let through is refused for ten minutes
    (src/recfilter.rs). */
module RecentlySeen {
  import opened Common

  /** Ten minutes, in microseconds. */
  const EXPIRY: Time := 600_000_000

  /** The digest of a message. */
  type Hash = nat

  datatype Entry = Entry(at: Time, key: Hash)

  datatype Filter = Filter(seen: map<Hash, Time>, expiry: seq<Entry>)

  predicate Expired(e: Entry, now: Time) {
    now - e.at > EXPIRY
  }

  ghost predicate InOrder(entries: seq<Entry>) {
    forall i, j :: 0 <= i <= j < |entries| ==> entries[i].at <= entries[j].at
  }

  /** The map and the queue hold the same entries, each hash once. */
  ghost predicate Mirrors(seen: map<Hash, Time>, expiry: seq<Entry>) {
    && (forall i :: 0 <= i < |expiry| ==> expiry[i].key in seen && seen[expiry[i].key] == expiry[i].at)
    && (forall k :: k in seen ==> exists i :: 0 <= i < |expiry| && expiry[i].key == k)
    && (forall i, j :: 0 <= i < j < |expiry| ==> expiry[i].key != expiry[j].key)
  }

  /** The filter holds the history of everything let through, less a prefix that has expired. */
  ghost predicate Remembers(f: Filter, history: seq<Entry>, dropped: nat, clock: Time) {
    && dropped <= |history|
    && f.expiry == history[dropped..]
    && Mirrors(f.seen, f.expiry)
    && InOrder(history)
    && (forall i :: 0 <= i < |history| ==> history[i].at <= clock)
    && (forall i :: 0 <= i < dropped ==> Expired(history[i], clock))
  }

  /** Whether a hash was let through at some time not yet expired. */
  ghost predicate LetThroughRecently(history: seq<Entry>, key: Hash, now: Time) {
    exists i :: 0 <= i < |history| && history[i].key == key && !Expired(history[i], now)
  }

  /** Two times a hash was let through are more than ten minutes apart. */
  ghost predicate Spaced(history: seq<Entry>) {
    forall i, j :: 0 <= i < j < |history| && history[i].key == history[j].key ==> Expired(history[i], history[j].at)
  }

  lemma MirrorsShrink(seen: map<Hash, Time>, expiry: seq<Entry>)
    requires Mirrors(seen, expiry) && expiry != []
    ensures Mirrors(seen - {expiry[0].key}, expiry[1..])
  {
    var rest := expiry[1..];
    forall k | k in seen - {expiry[0].key} ensures exists i :: 0 <= i < |rest| && rest[i].key == k {
      var i :| 0 <= i < |expiry| && expiry[i].key == k;
      assert rest[i - 1].key == k;
    }
  }

  lemma DroppingOne(f: Filter, history: seq<Entry>, dropped: nat, clock: Time, now: Time)
    requires Remembers(f, history, dropped, clock) && clock <= now
    requires f.expiry != [] && Expired(f.expiry[0], now)
    ensures Remembers(Filter(f.seen - {f.expiry[0].key}, f.expiry[1..]), history, dropped + 1, now)
  {
    hide Mirrors;
    MirrorsShrink(f.seen, f.expiry);
    assert history[dropped] == f.expiry[0];
  }

  /** Once nothing at the front has expired, a remembered hash is a recent one. */
  lemma RememberedIsRecent(f: Filter, history: seq<Entry>, dropped: nat, clock: Time, now: Time, key: Hash)
    requires Remembers(f, history, dropped, clock)
    requires f.expiry != [] ==> !Expired(f.expiry[0], now)
    ensures forall e :: e in f.expiry ==> !Expired(e, now)
    ensures key in f.seen ==> LetThroughRecently(history, key, now)
  {
    forall i | 0 <= i < |f.expiry| ensures !Expired(f.expiry[i], now) && f.expiry[i] == history[dropped + i] {
      assert history[dropped].at <= history[dropped + i].at;
    }
  }

  lemma MirrorsGrow(seen: map<Hash, Time>, expiry: seq<Entry>, key: Hash, now: Time)
    requires Mirrors(seen, expiry) && key !in seen
    ensures Mirrors(seen[key := now], expiry + [Entry(now, key)])
  {
    var seen', expiry' := seen[key := now], expiry + [Entry(now, key)];
    forall k | k in seen' ensures exists i :: 0 <= i < |expiry'| && expiry'[i].key == k {
      if k == key {
        assert expiry'[|expiry|].key == k;
      } else {
        var i :| 0 <= i < |expiry| && expiry[i].key == k;
        assert expiry'[i].key == k;
      }
    }
  }

  lemma ForgottenHasExpired(f: Filter, history: seq<Entry>, dropped: nat, clock: Time, key: Hash, now: Time)
    requires Remembers(f, history, dropped, clock) && clock <= now && key !in f.seen
    ensures forall i :: 0 <= i < |history| && history[i].key == key ==> Expired(history[i], now)
  {
    assert forall i :: dropped <= i < |history| ==> history[i] == f.expiry[i - dropped];
  }

  /** A hash that is not remembered was not let through recently, and may be added. */
  lemma AddingOne(f: Filter, history: seq<Entry>, dropped: nat, clock: Time, key: Hash, now: Time)
    requires Remembers(f, history, dropped, clock) && Spaced(history) && clock <= now && key !in f.seen
    ensures !LetThroughRecently(history, key, now)
    ensures Remembers(Filter(f.seen[key := now], f.expiry + [Entry(now, key)]), history + [Entry(now, key)], dropped, now)
    ensures Spaced(history + [Entry(now, key)])
  {
    hide Mirrors;
    ForgottenHasExpired(f, history, dropped, clock, key, now);
    MirrorsGrow(f.seen, f.expiry, key, now);
    assert (history + [Entry(now, key)])[dropped..] == f.expiry + [Entry(now, key)];
  }

  lemma ClockMovesOn(f: Filter, history: seq<Entry>, dropped: nat, clock: Time, now: Time)
    requires Remembers(f, history, dropped, clock) && clock <= now
    ensures Remembers(f, history, dropped, now)
  {
  }

  /** The readings of the clock during one call: never going back, and between two instants. */
  ghost predicate Readings(tick: nat -> Time, clock: Time, now: Time) {
    forall i, j :: i <= j ==> clock <= tick(i) <= tick(j) <= now
  }

  class RecentFilter {
    var seen: map<Hash, Time>
    var expiry: seq<Entry>
    /** Everything ever let through, how much of it has been dropped, and the last clock reading. */
    ghost var history: seq<Entry>
    ghost var dropped: nat
    ghost var clock: Time

    ghost function State(): Filter
      reads this
    {
      Filter(seen, expiry)
    }

    ghost predicate Valid()
      reads this
    {
      Remembers(State(), history, dropped, clock) && Spaced(history)
    }

    constructor ()
      ensures Valid() && history == []
    {
      seen, expiry, history, dropped, clock := map[], [], [], 0, 0;
    }

    /** Lets a hash through when it was not let through in the last ten minutes. The clock is read
        anew for each entry looked at and once more when adding; a verdict is right at all of
        these instants, up to an entry that expires in between. */
    method Check(key: Hash, tick: nat -> Time, now: Time) returns (ok: bool)
      requires Valid() && Readings(tick, clock, now)
      modifies this
      ensures Valid() && clock == now
      ensures ok ==> !LetThroughRecently(old(history), key, now)
      ensures !ok ==> LetThroughRecently(old(history), key, tick(0))
      ensures tick(0) == now ==> (ok <==> !LetThroughRecently(old(history), key, now))
      ensures history == if ok then old(history) + [Entry(now, key)] else old(history)
      ensures forall e :: e in expiry && e != Entry(now, key) ==> !Expired(e, tick(0))
    {
      hide Remembers, Spaced, LetThroughRecently;
      var i := 0;
      assert clock <= tick(0) <= tick(0) <= now;
      while expiry != [] && Expired(expiry[0], tick(i))
        invariant Remembers(State(), history, dropped, clock) && Readings(tick, old(clock), now)
        invariant clock == if i == 0 then old(clock) else tick(i - 1)
        invariant history == old(history)
        decreases |expiry|
      {
        assert clock <= tick(i) <= now;
        DroppingOne(State(), history, dropped, clock, tick(i));
        seen := seen - {expiry[0].key};
        expiry := expiry[1..];
        dropped, clock := dropped + 1, tick(i);
        i := i + 1;
      }
      assert tick(0) <= tick(i) <= now;
      RememberedIsRecent(State(), history, dropped, clock, tick(0), key);
      if key in seen {
        ok := false;
        ClockMovesOn(State(), history, dropped, clock, now);
      } else {
        ok := true;
        AddingOne(State(), history, dropped, clock, key, now);
        seen := seen[key := now];
        expiry := expiry + [Entry(now, key)];
        history := history + [Entry(now, key)];
      }
      clock := now;
    }
  }
}
