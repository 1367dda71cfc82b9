/** Forward error correction gives back exactly what was lost. */
module FecTheorems {
  import opened Common
  import opened ErasureCode
  import opened FecFraming
  import opened FecDecoding
  import opened FecEncoding
  import opened OutOfBand

  // ----- Honest runs -----

  function BodiesOf(sent: seq<Bytes>, key: RunKey): seq<Bytes>
    requires key.first + key.dataLen <= |sent|
  {
    sent[key.first..key.first + key.dataLen]
  }

  /** A run of frames that were sent, described as the sender describes it. */
  ghost predicate HonestKey(rs: Codec, sent: seq<Bytes>, key: RunKey) {
    && Packets(sent)
    && key.dataLen > 0 && key.parityLen > 0 && key.dataLen + key.parityLen <= 255
    && key.first + key.dataLen <= |sent|
    && key.padSize == MaxLen(BodiesOf(sent, key)) + 2
    && AnyKRecover(rs, key.dataLen, key.parityLen)
  }

  lemma BodiesArePackets(sent: seq<Bytes>, key: RunKey)
    requires Packets(sent) && key.first + key.dataLen <= |sent|
    ensures Packets(BodiesOf(sent, key))
  {
  }

  function DataShards(sent: seq<Bytes>, key: RunKey): seq<Bytes>
    requires Packets(sent) && key.first + key.dataLen <= |sent|
  {
    BodiesArePackets(sent, key);
    Padded(BodiesOf(sent, key))
  }

  function CodeOf(rs: Codec, sent: seq<Bytes>, key: RunKey): seq<Bytes>
    requires Packets(sent) && key.first + key.dataLen <= |sent|
  {
    DataShards(sent, key) + rs.encode(key.parityLen, DataShards(sent, key))
  }

  /** What a receiver relies on about the code word of a run. */
  ghost predicate IsCode(rs: Codec, sent: seq<Bytes>, key: RunKey, code: seq<Bytes>) {
    && key.dataLen > 0 && key.parityLen > 0 && key.dataLen + key.parityLen <= 255
    && key.first + key.dataLen <= |sent| && key.padSize > 0
    && Stripe(code, key.dataLen + key.parityLen, key.padSize)
    && (forall s :: key.first <= s < key.first + key.dataLen ==> CarriesPacket(code[s - key.first], sent[s], key.padSize))
    && AnyKRecover(rs, key.dataLen, key.parityLen)
    && code == code[..key.dataLen] + rs.encode(key.parityLen, code[..key.dataLen])
  }

  ghost predicate CarriesPacket(shard: Bytes, pkt: Bytes, padSize: nat) {
    |pkt| <= MAX_PACKET && |pkt| + 2 <= padSize && shard == PreEncode(pkt, padSize)
  }

  lemma HonestCode(rs: Codec, sent: seq<Bytes>, key: RunKey)
    requires HonestKey(rs, sent, key)
    ensures IsCode(rs, sent, key, CodeOf(rs, sent, key))
  {
    var bodies, data, code := BodiesOf(sent, key), DataShards(sent, key), CodeOf(rs, sent, key);
    PaddedIsStripe(bodies);
    assert RecoversStripe(rs, key.dataLen, key.parityLen, data, key.padSize);
    assert code[..key.dataLen] == data;
    forall s | key.first <= s < key.first + key.dataLen
      ensures CarriesPacket(code[s - key.first], sent[s], key.padSize)
    {
      assert bodies[s - key.first] == sent[s];
    }
  }

  /** A parity shard of the code word, under its index. */
  ghost predicate ParityShard(key: RunKey, code: seq<Bytes>, idx: nat, body: Bytes) {
    idx < key.parityLen && key.dataLen + idx < |code| && body == code[key.dataLen + idx]
  }

  /** A slot that holds only parity shards of the code word, and possibly the marker. */
  ghost predicate ParitySlot(key: RunKey, code: seq<Bytes>, slot: Slot) {
    forall i :: i in slot ==> if i == ATTEMPTED then slot[i] == [] else ParityShard(key, code, i, slot[i])
  }

  ghost predicate HonestShard(rs: Codec, sent: seq<Bytes>, key: RunKey, idx: nat, body: Bytes)
    requires HonestKey(rs, sent, key)
  {
    ParityShard(key, CodeOf(rs, sent, key), idx, body)
  }

  ghost predicate HonestSlot(rs: Codec, sent: seq<Bytes>, key: RunKey, slot: Slot)
    requires HonestKey(rs, sent, key)
  {
    ParitySlot(key, CodeOf(rs, sent, key), slot)
  }

  ghost predicate HonestData(sent: seq<Bytes>, data: map<Seqno, Bytes>) {
    forall s :: s in data ==> s < |sent| && data[s] == sent[s]
  }

  ghost predicate HonestCaches(rs: Codec, sent: seq<Bytes>, c: Caches) {
    && Packets(sent)
    && HonestData(sent, c.data)
    && forall key :: key in c.parity ==> HonestKey(rs, sent, key) && HonestSlot(rs, sent, key, c.parity[key])
  }

  // ----- Feeding the decoder -----

  /** The decoder after the cached frames among the first n of a run have been fed to it. */
  ghost predicate FedUpTo(rs: Codec, key: RunKey, data: map<Seqno, Bytes>, n: nat, d: Decoder) {
    var held := HeldOf(data, key.first, n);
    && (forall i :: 0 <= i < |held| ==> Feedable(key, data, held[i]))
    && d == FedData(rs, NewDecoder(key.dataLen, key.parityLen), key, data, held)
  }

  /** After the cached data frames, the decoder holds exactly those shards. */
  lemma {:induction false} DataLoads(rs: Codec, sent: seq<Bytes>, code: seq<Bytes>,
                                     data: map<Seqno, Bytes>, key: RunKey, n: nat) returns (d: Decoder)
    requires IsCode(rs, sent, key, code) && HonestData(sent, data) && n <= key.dataLen
    ensures LoadedWith(d, code, data, key, n) && FedUpTo(rs, key, data, n, d)
  {
    if n == 0 {
      d := NewDecoder(key.dataLen, key.parityLen);
      StartIsLoaded(code, data, key);
    } else {
      d := DataLoads(rs, sent, code, data, key, n - 1);
      var s := key.first + n - 1;
      if s in data {
        assert CarriesPacket(code[s - key.first], sent[s], key.padSize);
        d := FeedNext(rs, code, data, key, n, d);
      } else {
        LoadedSame(d, code, data, key, n);
        assert HeldOf(data, key.first, n) == HeldOf(data, key.first, n - 1);
      }
    }
  }

  lemma FeedNext(rs: Codec, code: seq<Bytes>, data: map<Seqno, Bytes>, key: RunKey, n: nat, before: Decoder)
    returns (d: Decoder)
    requires 0 < n <= key.dataLen && n <= |code| && key.first + n - 1 in data
    requires CarriesPacket(code[n - 1], data[key.first + n - 1], key.padSize)
    requires LoadedWith(before, code, data, key, n - 1) && FedUpTo(rs, key, data, n - 1, before)
    ensures LoadedWith(d, code, data, key, n) && FedUpTo(rs, key, data, n, d)
  {
    d := FeedNextShard(rs, code, key, n, before);
    LoadedOneMore(before, d, code, data, key, n);
    FedNextUpTo(rs, code, data, key, n, before, d);
  }

  lemma FeedNextShard(rs: Codec, code: seq<Bytes>, key: RunKey, n: nat, before: Decoder) returns (d: Decoder)
    requires 0 < n <= before.k && n <= |code| && Loadable(before, code, key.padSize) && !before.present[n - 1]
    ensures d == Fed(rs, before, code[n - 1], n - 1).0
    ensures Loaded(d, code, key.padSize) && d.k == before.k && d.m == before.m
    ensures d.present == before.present[n - 1 := true] && d.count == before.count + 1
  {
    FedLoads(rs, before, code, key.padSize, n - 1);
    d := Fed(rs, before, code[n - 1], n - 1).0;
  }

  lemma FedNextUpTo(rs: Codec, code: seq<Bytes>, data: map<Seqno, Bytes>, key: RunKey, n: nat, before: Decoder, d: Decoder)
    requires 0 < n <= |code| && key.first + n - 1 in data
    requires CarriesPacket(code[n - 1], data[key.first + n - 1], key.padSize)
    requires FedUpTo(rs, key, data, n - 1, before) && d == Fed(rs, before, code[n - 1], n - 1).0
    ensures FedUpTo(rs, key, data, n, d)
  {
    hide Fed;
    var front, held := HeldOf(data, key.first, n - 1), HeldOf(data, key.first, n);
    HeldNext(data, key, n);
    FedDataNext(rs, NewDecoder(key.dataLen, key.parityLen), key, data, held, |front|);
  }

  lemma HeldNext(data: map<Seqno, Bytes>, key: RunKey, n: nat)
    requires n > 0 && Feedable(key, data, key.first + n - 1)
    ensures var front, held := HeldOf(data, key.first, n - 1), HeldOf(data, key.first, n);
      && |held| == |front| + 1 && held[|front|] == key.first + n - 1
      && held[..|front|] == front && held[..|front| + 1] == held
      && ((forall i :: 0 <= i < |front| ==> Feedable(key, data, front[i])) ==>
            forall i :: 0 <= i < |held| ==> Feedable(key, data, held[i]))
  {
  }

  lemma StartIsLoaded(code: seq<Bytes>, data: map<Seqno, Bytes>, key: RunKey)
    requires key.parityLen > 0 && Stripe(code, key.dataLen + key.parityLen, key.padSize)
    ensures LoadedWith(NewDecoder(key.dataLen, key.parityLen), code, data, key, 0)
  {
  }

  lemma LoadedSame(d: Decoder, code: seq<Bytes>, data: map<Seqno, Bytes>, key: RunKey, n: nat)
    requires 0 < n && LoadedWith(d, code, data, key, n - 1) && key.first + n - 1 !in data
    ensures LoadedWith(d, code, data, key, n)
  {
  }

  lemma LoadedOneMore(d: Decoder, after: Decoder, code: seq<Bytes>, data: map<Seqno, Bytes>, key: RunKey, n: nat)
    requires 0 < n <= key.dataLen && LoadedWith(d, code, data, key, n - 1) && key.first + n - 1 in data
    requires Loaded(after, code, key.padSize) && after.k == d.k && after.m == d.m
    requires after.present == d.present[n - 1 := true] && after.count == d.count + 1
    ensures LoadedWith(after, code, data, key, n)
  {
  }

  ghost predicate LoadedWith(d: Decoder, code: seq<Bytes>, data: map<Seqno, Bytes>, key: RunKey, n: nat) {
    && d.Valid() && d.k == key.dataLen && d.m == key.parityLen
    && Loadable(d, code, key.padSize)
    && (HeldOf(data, key.first, n) != [] ==> Loaded(d, code, key.padSize))
    && d.count == |HeldOf(data, key.first, n)|
    && (forall i :: 0 <= i < |d.present| ==> (d.present[i] <==> i < n && key.first + i in data))
  }

  /** The number of parity shards named in a listing. */
  function Real(order: seq<nat>): nat {
    if order == [] then 0 else (if order[0] == ATTEMPTED then 0 else 1) + Real(order[1..])
  }

  lemma OneMoreReal(rest: set<nat>, i: nat)
    requires i !in rest
    ensures |(rest + {i}) - {ATTEMPTED}| == |rest - {ATTEMPTED}| + (if i == ATTEMPTED then 0 else 1)
  {
    if i == ATTEMPTED {
      assert (rest + {i}) - {ATTEMPTED} == rest - {ATTEMPTED};
    } else {
      assert (rest + {i}) - {ATTEMPTED} == (rest - {ATTEMPTED}) + {i};
    }
  }

  lemma {:induction false} RealCounts(order: seq<nat>)
    requires Distinct(order)
    ensures Real(order) == |Elements(order) - {ATTEMPTED}|
    decreases |order|
  {
    if order != [] {
      var rest := order[1..];
      assert order == [order[0]] + rest;
      RealCounts(rest);
      assert order[0] !in Elements(rest);
      assert Elements(order) == Elements(rest) + {order[0]};
      OneMoreReal(Elements(rest), order[0]);
    } else {
      assert Elements(order) - {ATTEMPTED} == {};
    }
  }

  /** The marker of an attempted run never passes for a shard of it. */
  lemma MarkerIsNoShard(rs: Codec, d: Decoder, code: seq<Bytes>, len: nat)
    requires Loaded(d, code, len) && |code| <= 255
    ensures Fed(rs, d, [], SaturatingAdd(d.k, ATTEMPTED)) == (d, None)
  {
  }

  /** Enough distinct parity shards of the code word are still to come. */
  ghost predicate Searchable(key: RunKey, code: seq<Bytes>, d: Decoder, slot: Slot, order: seq<nat>) {
    && ParitySlot(key, code, slot)
    && d.k == key.dataLen && d.m == key.parityLen && Loadable(d, code, key.padSize)
    && Distinct(order) && (forall i :: i in order ==> i in slot)
    && (forall i :: i in order && i != ATTEMPTED ==> d.k + i < |d.present| && !d.present[d.k + i])
    && Real(order) > 0 && d.count + Real(order) >= d.k
    && (order[0] == ATTEMPTED ==> Loaded(d, code, key.padSize))
  }

  /** Going through the parity slot, in any order, ends with the packets of the missing
      data shards. */
  lemma {:induction false} SearchFinds(rs: Codec, sent: seq<Bytes>, code: seq<Bytes>, key: RunKey,
                                       d: Decoder, slot: Slot, order: seq<nat>)
    requires IsCode(rs, sent, key, code) && Searchable(key, code, d, slot, order)
    ensures Search(rs, d, slot, order) == Some(Recovered(code, d.present, d.k))
    decreases |order|
  {
    if order[0] == ATTEMPTED {
      SkipMarker(rs, key, code, d, slot, order);
      SearchFinds(rs, sent, code, key, d, slot, order[1..]);
    } else if d.count + 1 < d.k {
      var after := FeedParity(rs, key, code, d, slot, order);
      SearchFinds(rs, sent, code, key, after, slot, order[1..]);
    } else {
      FinishSearch(rs, sent, key, code, d, slot, order);
    }
  }

  lemma FinishSearch(rs: Codec, sent: seq<Bytes>, key: RunKey, code: seq<Bytes>, d: Decoder, slot: Slot, order: seq<nat>)
    requires IsCode(rs, sent, key, code) && Searchable(key, code, d, slot, order)
    requires order[0] != ATTEMPTED && d.count + 1 >= d.k
    ensures Search(rs, d, slot, order) == Some(Recovered(code, d.present, d.k))
  {
    hide Fed, Search;
    var i := order[0];
    assert i in order && ParityShard(key, code, i, slot[i]);
    SearchUnfolds(rs, d, slot, order);
    FedRebuilds(rs, d, code[..d.k], key.padSize, d.k + i);
  }

  lemma FeedParity(rs: Codec, key: RunKey, code: seq<Bytes>, d: Decoder, slot: Slot, order: seq<nat>) returns (after: Decoder)
    requires Searchable(key, code, d, slot, order) && |code| <= 255
    requires order[0] != ATTEMPTED && d.count + 1 < d.k
    ensures Searchable(key, code, after, slot, order[1..]) && after.k == d.k
    ensures Search(rs, d, slot, order) == Search(rs, after, slot, order[1..])
    ensures Recovered(code, d.present, d.k) == Recovered(code, after.present, d.k)
  {
    hide Fed, Search;
    var i := order[0];
    assert i in order && ParityShard(key, code, i, slot[i]);
    SearchUnfolds(rs, d, slot, order);
    FedLoads(rs, d, code, key.padSize, d.k + i);
    after := Fed(rs, d, slot[i], d.k + i).0;
    NextShard(key, code, d, after, slot, order);
    RecoveredReadsData(code, d.present, after.present, d.k);
  }

  lemma SearchUnfolds(rs: Codec, d: Decoder, slot: Slot, order: seq<nat>)
    requires d.Valid() && order != [] && forall i :: i in order ==> i in slot
    ensures order[0] in slot && forall i :: i in order[1..] ==> i in slot
    ensures var (after, r) := Fed(rs, d, slot[order[0]], SaturatingAdd(d.k, order[0]));
      Search(rs, d, slot, order) == if r.Some? then r else Search(rs, after, slot, order[1..])
  {
    hide Fed;
    assert order[0] in order && forall i :: i in order[1..] ==> i in order;
  }

  lemma SkipMarker(rs: Codec, key: RunKey, code: seq<Bytes>, d: Decoder, slot: Slot, order: seq<nat>)
    requires Searchable(key, code, d, slot, order) && order[0] == ATTEMPTED && |code| <= 255
    ensures Searchable(key, code, d, slot, order[1..])
    ensures Search(rs, d, slot, order) == Search(rs, d, slot, order[1..])
  {
    hide Fed, Search;
    assert order[0] in order;
    SearchUnfolds(rs, d, slot, order);
    MarkerIsNoShard(rs, d, code, key.padSize);
    assert order == [order[0]] + order[1..];
    assert forall i :: i in order[1..] ==> i in order;
  }

  lemma NextShard(key: RunKey, code: seq<Bytes>, d: Decoder, after: Decoder, slot: Slot, order: seq<nat>)
    requires Searchable(key, code, d, slot, order) && order[0] != ATTEMPTED
    requires Loaded(after, code, key.padSize) && after.k == d.k && after.m == d.m
    requires d.k + order[0] < |d.present| && after.present == d.present[d.k + order[0] := true]
    requires after.count == d.count + 1 < d.k
    ensures Searchable(key, code, after, slot, order[1..])
  {
    hide Loaded, ParitySlot;
    ListTail(order, slot);
    NoneSoFar(key, d, after, order[1..], d.k + order[0]);
  }

  lemma ListTail(order: seq<nat>, slot: Slot)
    requires order != [] && Distinct(order) && forall i :: i in order ==> i in slot
    ensures Distinct(order[1..]) && order[0] !in order[1..]
    ensures forall i :: i in order[1..] ==> i in order && i in slot
    ensures Real(order) == (if order[0] == ATTEMPTED then 0 else 1) + Real(order[1..])
  {
    assert order == [order[0]] + order[1..];
  }

  lemma NoneSoFar(key: RunKey, d: Decoder, after: Decoder, rest: seq<nat>, at: nat)
    requires at < |d.present| && after.present == d.present[at := true] && d.k <= at
    requires forall i :: i in rest && i != ATTEMPTED ==> d.k + i < |d.present| && !d.present[d.k + i] && d.k + i != at
    ensures forall i :: i in rest && i != ATTEMPTED ==> d.k + i < |after.present| && !after.present[d.k + i]
    ensures forall i :: 0 <= i < d.k ==> i < |d.present| && d.present[i] == after.present[i]
  {
  }

  /** A decoder whose shard length was fixed by the marker rejects every real shard. */
  lemma {:induction false} NothingFound(rs: Codec, key: RunKey, code: seq<Bytes>, d: Decoder, slot: Slot, order: seq<nat>)
    requires ParitySlot(key, code, slot) && Stripe(code, |code|, key.padSize) && key.padSize > 0
    requires key.parityLen > 0 && key.dataLen + key.parityLen <= 255
    requires d.Valid() && d.k == key.dataLen && d.m == key.parityLen && !d.done
    requires Stripe(d.space, d.k + d.m, 0)
    requires ATTEMPTED !in order && forall i :: i in order ==> i in slot
    ensures Search(rs, d, slot, order) == None
    decreases |order|
  {
    if order != [] {
      assert order[0] in order;
      assert ParityShard(key, code, order[0], slot[order[0]]);
      assert forall x :: x in order[1..] ==> x in order;
      NothingFound(rs, key, code, d, slot, order[1..]);
    }
  }

  /** The packets a rebuilt code word gives back are those of the missing frames, in order. */
  lemma {:induction false} RecoveredAreMissing(
      rs: Codec, sent: seq<Bytes>, code: seq<Bytes>, data: map<Seqno, Bytes>, key: RunKey, present: seq<bool>, n: nat)
    requires IsCode(rs, sent, key, code) && n <= key.dataLen <= |present|
    requires forall i :: 0 <= i < n ==> (present[i] <==> key.first + i in data)
    ensures var bodies, missing := Recovered(code, present, n), MissingOf(data, key.first, n);
      |bodies| == |missing|
      && forall i :: 0 <= i < |missing| ==> missing[i] < |sent| && bodies[i] == sent[missing[i]]
  {
    if n > 0 {
      RecoveredAreMissing(rs, sent, code, data, key, present, n - 1);
      var s := key.first + n - 1;
      assert CarriesPacket(code[s - key.first], sent[s], key.padSize);
      PostDecodeInverts(sent[s], key.padSize);
    }
  }

  // ----- The theorems -----

  /** The frames of a run that are not cached, with their original bodies. */
  function Originals(sent: seq<Bytes>, missing: seq<Seqno>): seq<(Seqno, Bytes)>
    requires forall i :: 0 <= i < |missing| ==> missing[i] < |sent|
  {
    seq(|missing|, i requires 0 <= i < |missing| => (missing[i], sent[missing[i]]))
  }

  lemma {:induction false} MissingAreSent(data: map<Seqno, Bytes>, first: Seqno, n: nat)
    ensures forall i :: 0 <= i < |MissingOf(data, first, n)| ==>
      first <= MissingOf(data, first, n)[i] < first + n && MissingOf(data, first, n)[i] !in data
    ensures forall s :: first <= s < first + n && s !in data ==> s in MissingOf(data, first, n)
  {
    if n > 0 {
      MissingAreSent(data, first, n - 1);
    }
  }

  /** The one way to spoil an attempt: none of the run's data is cached, and the hash map
      yields the marker before any parity shard. */
  predicate MarkerComesFirst(data: map<Seqno, Bytes>, key: RunKey, order: seq<nat>) {
    HeldOf(data, key.first, key.dataLen) == [] && order != [] && order[0] == ATTEMPTED
  }

  lemma HonestSlotGrows(rs: Codec, sent: seq<Bytes>, c: Caches, key: RunKey, idx: nat, body: Bytes)
    requires HonestCaches(rs, sent, c) && HonestKey(rs, sent, key) && HonestShard(rs, sent, key, idx, body)
    ensures HonestSlot(rs, sent, key, SlotOf(c, key)[idx := body])
    ensures HonestSlot(rs, sent, key, FullSlot(c, key, idx, body))
  {
  }

  lemma ListsRealKeys(order: seq<nat>, slot: Slot)
    requires ATTEMPTED !in slot && Lists(order, slot[ATTEMPTED := []])
    ensures Elements(order) - {ATTEMPTED} == slot.Keys
  {
  }

  lemma FullSlotSize(rs: Codec, sent: seq<Bytes>, c: Caches, key: RunKey, idx: nat, body: Bytes, order: seq<nat>)
    requires HonestKey(rs, sent, key) && HonestShard(rs, sent, key, idx, body)
    requires Triggers(c, key, idx, body) && Lists(order, FullSlot(c, key, idx, body))
    ensures Distinct(order) && Real(order) == |SlotOf(c, key)[idx := body]| > 0
  {
    RealCounts(order);
    var slot := SlotOf(c, key)[idx := body];
    assert idx != ATTEMPTED && ATTEMPTED !in slot;
    ListsRealKeys(order, slot);
    assert |slot| == |slot.Keys| && idx in slot.Keys;
  }

  /** The decoder that an unspoilt attempt starts to search with. */
  lemma ReadyToSearch(rs: Codec, sent: seq<Bytes>, c: Caches, key: RunKey, idx: nat, body: Bytes, order: seq<nat>,
                      code: seq<Bytes>) returns (d: Decoder)
    requires HonestData(sent, c.data) && IsCode(rs, sent, key, code)
    requires ParitySlot(key, code, FullSlot(c, key, idx, body))
    requires Triggers(c, key, idx, body) && Lists(order, FullSlot(c, key, idx, body))
    requires !MarkerComesFirst(c.data, key, order)
    requires Distinct(order) && Real(order) == |SlotOf(c, key)[idx := body]| > 0
    ensures FedUpTo(rs, key, c.data, key.dataLen, d)
    ensures LoadedWith(d, code, c.data, key, key.dataLen)
    ensures Searchable(key, code, d, FullSlot(c, key, idx, body), order)
  {
    hide Fed;
    d := DataLoads(rs, sent, code, c.data, key, key.dataLen);
    var slot := FullSlot(c, key, idx, body);
    forall i | i in order && i != ATTEMPTED ensures d.k + i < |d.present| && !d.present[d.k + i] {
      assert i in slot && ParityShard(key, code, i, slot[i]);
    }
  }

  /** An attempt at an honest run that is not spoilt by the marker finds every missing frame. */
  lemma AttemptSucceeds(rs: Codec, sent: seq<Bytes>, c: Caches, key: RunKey, idx: nat, body: Bytes, order: seq<nat>)
    requires HonestCaches(rs, sent, c) && HonestKey(rs, sent, key) && HonestShard(rs, sent, key, idx, body)
    requires Triggers(c, key, idx, body) && Lists(order, FullSlot(c, key, idx, body))
    requires !MarkerComesFirst(c.data, key, order)
    ensures var missing := MissingOf(c.data, key.first, key.dataLen);
      && (forall i :: 0 <= i < |missing| ==> missing[i] < |sent|)
      && Attempt(rs, key, c.data, FullSlot(c, key, idx, body), order) == Frames(Originals(sent, missing))
  {
    hide Fed, CodeOf, Attempt;
    var code := CodeOf(rs, sent, key);
    HonestCode(rs, sent, key);
    HonestSlotGrows(rs, sent, c, key, idx, body);
    FullSlotSize(rs, sent, c, key, idx, body, order);
    var d := ReadyToSearch(rs, sent, c, key, idx, body, order, code);
    AttemptFinds(rs, sent, c.data, key, FullSlot(c, key, idx, body), order, code, d);
  }

  lemma AttemptFinds(rs: Codec, sent: seq<Bytes>, data: map<Seqno, Bytes>, key: RunKey, slot: Slot, order: seq<nat>,
                     code: seq<Bytes>, d: Decoder)
    requires HonestData(sent, data) && Packets(sent) && IsCode(rs, sent, key, code)
    requires FedUpTo(rs, key, data, key.dataLen, d) && LoadedWith(d, code, data, key, key.dataLen)
    requires Searchable(key, code, d, slot, order)
    ensures forall i :: i in order ==> i in slot
    ensures var missing := MissingOf(data, key.first, key.dataLen);
      && (forall i :: 0 <= i < |missing| ==> missing[i] < |sent|)
      && Attempt(rs, key, data, slot, order) == Frames(Originals(sent, missing))
  {
    hide Fed, FedData, Attempt, Search;
    SearchFinds(rs, sent, code, key, d, slot, order);
    RecoveredAreMissing(rs, sent, code, data, key, d.present, key.dataLen);
    AttemptUnfolds(rs, key, data, slot, order, d);
    var missing := MissingOf(data, key.first, key.dataLen);
    assert Zip(Recovered(code, d.present, d.k), missing) == Originals(sent, missing);
  }

  lemma AttemptUnfolds(rs: Codec, key: RunKey, data: map<Seqno, Bytes>, slot: Slot, order: seq<nat>, d: Decoder)
    requires forall s :: s in data ==> |data[s]| <= MAX_PACKET
    requires forall i :: i in order ==> i in slot
    requires d.Valid() && FedUpTo(rs, key, data, key.dataLen, d)
    ensures var missing := MissingOf(data, key.first, key.dataLen);
      Attempt(rs, key, data, slot, order) ==
        match Search(rs, d, slot, order)
        case None => Frames([])
        case Some(bodies) => if |bodies| != |missing| then AssertionFails else Frames(Zip(bodies, missing))
  {
    hide Fed, FedData;
    HeldIsFeedable(data, key);
  }

  lemma AttemptSpoilt(rs: Codec, sent: seq<Bytes>, c: Caches, key: RunKey, idx: nat, body: Bytes, order: seq<nat>)
    requires HonestCaches(rs, sent, c) && HonestKey(rs, sent, key) && HonestShard(rs, sent, key, idx, body)
    requires Triggers(c, key, idx, body) && Lists(order, FullSlot(c, key, idx, body))
    requires MarkerComesFirst(c.data, key, order)
    ensures Attempt(rs, key, c.data, FullSlot(c, key, idx, body), order) == Frames([])
  {
    var slot := FullSlot(c, key, idx, body);
    HonestCode(rs, sent, key);
    HonestSlotGrows(rs, sent, c, key, idx, body);
    var d := NewDecoder(key.dataLen, key.parityLen);
    var (after, r) := Fed(rs, d, slot[ATTEMPTED], SaturatingAdd(d.k, ATTEMPTED));
    assert order == [order[0]] + order[1..];
    NothingFound(rs, key, CodeOf(rs, sent, key), after, slot, order[1..]);
  }

  lemma CachesStayHonest(rs: Codec, sent: seq<Bytes>, c: Caches, key: RunKey, idx: nat, body: Bytes,
                         evicted: set<RunKey>, order: seq<nat>)
    requires HonestCaches(rs, sent, c) && HonestKey(rs, sent, key) && HonestShard(rs, sent, key, idx, body)
    requires Triggers(c, key, idx, body) ==> Lists(order, FullSlot(c, key, idx, body))
    ensures HonestCaches(rs, sent, ParityInserted(rs, c, key, idx, body, evicted, order).0)
  {
    HonestSlotGrows(rs, sent, c, key, idx, body);
  }

  /** What a parity frame of an honest run gives back, whatever is cached, whatever the
      caches drop and whatever the hash order: nothing, or every frame of the run that is
      not cached, each under its own number with its original body. The length assertion
      never fails. */
  lemma RebuildIsExact(rs: Codec, sent: seq<Bytes>, c: Caches, key: RunKey, idx: nat, body: Bytes,
                       evicted: set<RunKey>, order: seq<nat>)
    requires HonestCaches(rs, sent, c) && HonestKey(rs, sent, key) && HonestShard(rs, sent, key, idx, body)
    requires Triggers(c, key, idx, body) ==> Lists(order, FullSlot(c, key, idx, body))
    ensures var (after, r) := ParityInserted(rs, c, key, idx, body, evicted, order);
      var missing := MissingOf(c.data, key.first, key.dataLen);
      && HonestCaches(rs, sent, after)
      && (forall i :: 0 <= i < |missing| ==> missing[i] < |sent|)
      && r == Frames(if Triggers(c, key, idx, body) && !MarkerComesFirst(c.data, key, order)
                     then Originals(sent, missing) else [])
  {
    CachesStayHonest(rs, sent, c, key, idx, body, evicted, order);
    MissingAreSent(c.data, key.first, key.dataLen);
    if Triggers(c, key, idx, body) {
      if MarkerComesFirst(c.data, key, order) {
        AttemptSpoilt(rs, sent, c, key, idx, body, order);
      } else {
        AttemptSucceeds(rs, sent, c, key, idx, body, order);
      }
    }
  }

  /** Any `dataLen` shards of a run suffice, at the moment the last of them arrives as a
      parity frame, if and only if some data frame is cached or the marker is not iterated first. */
  lemma EnoughShardsSuffice(rs: Codec, sent: seq<Bytes>, c: Caches, key: RunKey, idx: nat, body: Bytes,
                            evicted: set<RunKey>, order: seq<nat>)
    requires HonestCaches(rs, sent, c) && HonestKey(rs, sent, key) && HonestShard(rs, sent, key, idx, body)
    requires Triggers(c, key, idx, body) && Lists(order, FullSlot(c, key, idx, body))
    ensures var r := ParityInserted(rs, c, key, idx, body, evicted, order).1;
      && r.Frames?
      && (GivesBackAll(sent, c.data, key, r.list) <==> !MarkerComesFirst(c.data, key, order))
  {
    RebuildIsExact(rs, sent, c, key, idx, body, evicted, order);
    MissingAreSent(c.data, key.first, key.dataLen);
    var missing := MissingOf(c.data, key.first, key.dataLen);
    if MarkerComesFirst(c.data, key, order) {
      HeldIsCached(c.data, key.first, key.dataLen);
      assert key.first !in HeldOf(c.data, key.first, key.dataLen);
    } else {
      OriginalsGiveBackAll(sent, c.data, key);
    }
  }

  /** Every frame of the run that is not cached, with its original body. */
  ghost predicate GivesBackAll(sent: seq<Bytes>, data: map<Seqno, Bytes>, key: RunKey, list: seq<(Seqno, Bytes)>) {
    forall s :: key.first <= s < key.first + key.dataLen && s !in data ==> s < |sent| && (s, sent[s]) in list
  }

  lemma OriginalsGiveBackAll(sent: seq<Bytes>, data: map<Seqno, Bytes>, key: RunKey)
    requires key.first + key.dataLen <= |sent|
    ensures var missing := MissingOf(data, key.first, key.dataLen);
      && (forall i :: 0 <= i < |missing| ==> missing[i] < |sent|)
      && GivesBackAll(sent, data, key, Originals(sent, missing))
  {
    MissingAreSent(data, key.first, key.dataLen);
    var missing := MissingOf(data, key.first, key.dataLen);
    forall s | key.first <= s < key.first + key.dataLen && s !in data
      ensures (s, sent[s]) in Originals(sent, missing)
    {
      assert s in missing;
      var i :| 0 <= i < |missing| && missing[i] == s;
      assert Originals(sent, missing)[i] == (s, sent[s]);
    }
  }

  /** The spoilt attempt exists, in an order that the hash map does yield: with indices 1 and 3
      of a run of two frames, the marker collides with 3 in a table of four buckets, wraps
      around to the first one, and is listed before both. */
  lemma MarkerFirstLosesARun(rs: Codec)
    returns (sent: seq<Bytes>, key: RunKey, c: Caches, body: Bytes, order: seq<nat>)
    requires AnyKRecover(rs, 2, 4)
    ensures HonestCaches(rs, sent, c) && HonestKey(rs, sent, key) && HonestShard(rs, sent, key, 3, body)
    ensures SlotOf(c, key).Keys == {1} && order == [ATTEMPTED, 1, 3]
    ensures Triggers(c, key, 3, body) && Lists(order, FullSlot(c, key, 3, body))
    ensures ParityInserted(rs, c, key, 3, body, {}, order).1 == Frames([])
    ensures !GivesBackAll(sent, c.data, key, [])
  {
    hide Attempt, HonestKey, HonestShard, CodeOf;
    var other: Bytes;
    sent, key, other, body := TwoFrames(rs);
    c, order := Caches(map[], map[key := map[1 := other]]), [ATTEMPTED, 1, 3];
    assert HeldOf(map[], 0, 2) == [];
    assert SlotOf(c, key)[3 := body].Keys == {1, 3};
    assert |SlotOf(c, key)[3 := body]| == |SlotOf(c, key)[3 := body].Keys|;
    ListsThree(FullSlot(c, key, 3, body));
    RebuildIsExact(rs, sent, c, key, 3, body, {}, order);
    NothingIsNotAll(sent, c.data, key);
  }

  lemma TwoFrames(rs: Codec) returns (sent: seq<Bytes>, key: RunKey, other: Bytes, body: Bytes)
    requires AnyKRecover(rs, 2, 4)
    ensures key == RunKey(0, 2, 4, 3) && Packets(sent)
    ensures HonestKey(rs, sent, key) && HonestShard(rs, sent, key, 3, body)
    ensures HonestSlot(rs, sent, key, map[1 := other])
  {
    sent, key := [[7], [9]], RunKey(0, 2, 4, 3);
    assert BodiesOf(sent, key) == sent;
    assert sent[..1] == [[7]] && sent[..1][..0] == [];
    HonestCode(rs, sent, key);
    other, body := CodeOf(rs, sent, key)[3], CodeOf(rs, sent, key)[5];
  }

  lemma ListsThree(slot: Slot)
    requires slot.Keys == {1, 3, ATTEMPTED}
    ensures Lists([ATTEMPTED, 1, 3], slot)
  {
  }

  lemma NothingIsNotAll(sent: seq<Bytes>, data: map<Seqno, Bytes>, key: RunKey)
    requires key.dataLen > 0 && key.first !in data
    ensures !GivesBackAll(sent, data, key, [])
  {
  }
}
