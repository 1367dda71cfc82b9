/** Rebuilding lost frames of a run from whatever data and parity frames are cached
    (the out-of-band decoder of src/session/machine.rs). */
module OutOfBand {
  import opened Common
  import opened ErasureCode
  import opened FecFraming
  import opened FecDecoding

  /** The parity slot that marks a run as attempted. */
  const ATTEMPTED: nat := 255

  datatype RunKey = RunKey(first: Seqno, dataLen: nat, parityLen: nat, padSize: nat)

  type Slot = map<nat, Bytes>

  datatype Caches = Caches(data: map<Seqno, Bytes>, parity: map<RunKey, Slot>)

  /** The frames handed back, or the length assertion of the source failing. */
  datatype Rebuilt = Frames(list: seq<(Seqno, Bytes)>) | AssertionFails

  function SaturatingAdd(a: nat, b: nat): nat {
    if a + b > 255 then 255 else a + b
  }

  /** The cached frame numbers among the first `n` of a run, in order. */
  function HeldOf(data: map<Seqno, Bytes>, first: Seqno, n: nat): seq<Seqno> {
    if n == 0 then []
    else HeldOf(data, first, n - 1) + (if first + n - 1 in data then [first + n - 1] else [])
  }

  /** The other frame numbers among the first `n` of a run, in order. */
  function MissingOf(data: map<Seqno, Bytes>, first: Seqno, n: nat): seq<Seqno> {
    if n == 0 then []
    else MissingOf(data, first, n - 1) + (if first + n - 1 in data then [] else [first + n - 1])
  }

  lemma {:induction false} HeldIsCached(data: map<Seqno, Bytes>, first: Seqno, n: nat)
    ensures forall s :: s in HeldOf(data, first, n) <==> first <= s < first + n && s in data
    ensures Ascending(HeldOf(data, first, n))
  {
    if n > 0 {
      HeldIsCached(data, first, n - 1);
      var front := HeldOf(data, first, n - 1);
      assert forall i :: 0 <= i < |front| ==> front[i] in front;
    }
  }

  function Zip(bodies: seq<Bytes>, seqnos: seq<Seqno>): seq<(Seqno, Bytes)>
    requires |bodies| == |seqnos|
  {
    seq(|bodies|, i requires 0 <= i < |bodies| => (seqnos[i], bodies[i]))
  }

  /** A cached frame of the run that is short enough for the claimed shard length. */
  predicate Feedable(key: RunKey, data: map<Seqno, Bytes>, s: Seqno) {
    s in data && s >= key.first && |data[s]| <= MAX_PACKET && |data[s]| + 2 <= key.padSize
  }

  /** Feeding the cached data frames, in order. */
  function FedData(rs: Codec, d: Decoder, key: RunKey, data: map<Seqno, Bytes>, held: seq<Seqno>): (r: Decoder)
    requires d.Valid() && forall i :: 0 <= i < |held| ==> Feedable(key, data, held[i])
    ensures r.Valid() && r.k == d.k && r.m == d.m
  {
    if held == [] then d
    else
      var n := |held| - 1;
      assert Feedable(key, data, held[n]);
      Fed(rs, FedData(rs, d, key, data, held[..n]), PreEncode(data[held[n]], key.padSize), held[n] - key.first).0
  }

  /** Feeding the parity slot in the given order until something comes back. */
  function Search(rs: Codec, d: Decoder, slot: Slot, order: seq<nat>): Option<seq<Bytes>>
    requires d.Valid() && forall i :: i in order ==> i in slot
    decreases |order|
  {
    if order == [] then None
    else
      var (after, r) := Fed(rs, d, slot[order[0]], SaturatingAdd(d.k, order[0]));
      if r.Some? then r else Search(rs, after, slot, order[1..])
  }

  predicate AllFit(data: map<Seqno, Bytes>, held: seq<Seqno>, padSize: nat) {
    forall s :: s in held ==> s in data && |data[s]| + 2 <= padSize
  }

  lemma HeldIsFeedable(data: map<Seqno, Bytes>, key: RunKey)
    requires forall s :: s in data ==> |data[s]| <= MAX_PACKET
    ensures var held := HeldOf(data, key.first, key.dataLen);
      && (forall i :: 0 <= i < |held| ==> held[i] in data && key.first <= held[i] < key.first + key.dataLen)
      && (AllFit(data, held, key.padSize) <==> forall i :: 0 <= i < |held| ==> Feedable(key, data, held[i]))
  {
    HeldIsCached(data, key.first, key.dataLen);
    var held := HeldOf(data, key.first, key.dataLen);
    assert forall i :: 0 <= i < |held| ==> held[i] in held;
  }

  /** One attempt to rebuild a run. */
  function Attempt(rs: Codec, key: RunKey, data: map<Seqno, Bytes>, slot: Slot, order: seq<nat>): Rebuilt
    requires forall s :: s in data ==> |data[s]| <= MAX_PACKET
    requires forall i :: i in order ==> i in slot
  {
    var held := HeldOf(data, key.first, key.dataLen);
    if !AllFit(data, held, key.padSize) then Frames([])
    else
      HeldIsFeedable(data, key);
      var d := FedData(rs, NewDecoder(key.dataLen, key.parityLen), key, data, held);
      match Search(rs, d, slot, order)
      case None => Frames([])
      case Some(bodies) =>
        var missing := MissingOf(data, key.first, key.dataLen);
        if |bodies| != |missing| then AssertionFails else Frames(Zip(bodies, missing))
  }

  /** A cached frame too long for the claimed shard length ends the attempt. */
  lemma OverlongGivesUp(rs: Codec, key: RunKey, data: map<Seqno, Bytes>, slot: Slot, order: seq<nat>, s: Seqno)
    requires forall s :: s in data ==> |data[s]| <= MAX_PACKET
    requires forall i :: i in order ==> i in slot
    requires s in data && key.first <= s < key.first + key.dataLen && |data[s]| + 2 > key.padSize
    ensures Attempt(rs, key, data, slot, order) == Frames([])
  {
    HeldIsCached(data, key.first, key.dataLen);
  }

  // ----- The caches -----

  /** Storing a data frame; the cache may drop any others. */
  function DataInserted(c: Caches, frameNo: Seqno, body: Bytes, evicted: set<Seqno>): Caches {
    c.(data := (c.data - evicted)[frameNo := body])
  }

  function SlotOf(c: Caches, key: RunKey): Slot {
    if key in c.parity then c.parity[key] else map[]
  }

  /** Whether this parity frame is the one that triggers the only attempt at its run. */
  predicate Triggers(c: Caches, key: RunKey, idx: nat, body: Bytes) {
    && ATTEMPTED !in SlotOf(c, key)
    && |HeldOf(c.data, key.first, key.dataLen)| + |SlotOf(c, key)[idx := body]| >= key.dataLen
  }

  function FullSlot(c: Caches, key: RunKey, idx: nat, body: Bytes): Slot {
    SlotOf(c, key)[idx := body][ATTEMPTED := []]
  }

  /** A listing of the keys of a slot, in the order in which a hash map may yield them. */
  ghost predicate Lists(order: seq<nat>, slot: Slot) {
    Distinct(order) && forall x :: x in order <==> x in slot
  }

  function ParityInserted(rs: Codec, c: Caches, key: RunKey, idx: nat, body: Bytes,
                          evicted: set<RunKey>, order: seq<nat>): (Caches, Rebuilt)
    requires forall s :: s in c.data ==> |c.data[s]| <= MAX_PACKET
    requires Triggers(c, key, idx, body) ==> forall i :: i in order ==> i in FullSlot(c, key, idx, body)
  {
    var others := c.parity - evicted;
    var slot := SlotOf(c, key);
    if ATTEMPTED in slot then (c.(parity := others[key := slot]), Frames([]))
    else if Triggers(c, key, idx, body) then
      var full := FullSlot(c, key, idx, body);
      (c.(parity := others[key := full]), Attempt(rs, key, c.data, full, order))
    else (c.(parity := others[key := slot[idx := body]]), Frames([]))
  }

  class OobDecoder {
    const rs: Codec
    var dataFrames: map<Seqno, Bytes>
    var paritySpace: map<RunKey, Slot>

    constructor (rs: Codec)
      ensures Valid() && State() == Caches(map[], map[]) && this.rs == rs
    {
      this.rs := rs;
      dataFrames, paritySpace := map[], map[];
    }

    ghost function State(): Caches
      reads this
    {
      Caches(dataFrames, paritySpace)
    }

    /** Datagrams fit the 16-bit length header of a shard. */
    ghost predicate Valid()
      reads this
    {
      forall s :: s in dataFrames ==> |dataFrames[s]| <= MAX_PACKET
    }

    method InsertData(frameNo: Seqno, body: Bytes) returns (ghost evicted: set<Seqno>)
      requires Valid() && |body| <= MAX_PACKET
      modifies this`dataFrames
      ensures Valid() && State() == DataInserted(old(State()), frameNo, body, evicted)
    {
      var dropped: set<Seqno> := *;
      dataFrames := (dataFrames - dropped)[frameNo := body];
      evicted := dropped;
    }

    /** The keys of a slot in some order, as a hash map yields them. */
    method HashOrder(slot: Slot) returns (order: seq<nat>)
      ensures Lists(order, slot)
    {
      order := [];
      var left := slot.Keys;
      while left != {}
        invariant left <= slot.Keys
        invariant Distinct(order)
        invariant forall x :: x in order <==> x in slot && x !in left
        decreases |left|
      {
        var x :| x in left;
        order := order + [x];
        left := left - {x};
      }
    }

    method Held(first: Seqno, len: nat) returns (held: seq<Seqno>)
      ensures held == HeldOf(dataFrames, first, len)
    {
      held := [];
      for n := 0 to len
        invariant held == HeldOf(dataFrames, first, n)
      {
        if first + n in dataFrames {
          held := held + [first + n];
        }
      }
    }

    method Missing(first: Seqno, len: nat) returns (missing: seq<Seqno>)
      ensures missing == MissingOf(dataFrames, first, len)
    {
      missing := [];
      for n := 0 to len
        invariant missing == MissingOf(dataFrames, first, n)
      {
        if first + n !in dataFrames {
          missing := missing + [first + n];
        }
      }
    }

    /** Feeds the cached data frames, unless one is too long for the claimed shard length. */
    method Load(decoder: FrameDecoder, key: RunKey, held: seq<Seqno>) returns (ok: bool)
      requires Valid() && held == HeldOf(dataFrames, key.first, key.dataLen)
      requires decoder.State().Valid() && decoder.rs == rs
      modifies decoder
      ensures decoder.State().Valid()
      ensures ok <==> forall i :: 0 <= i < |held| ==> Feedable(key, dataFrames, held[i])
      ensures ok ==> decoder.State() == FedData(rs, old(decoder.State()), key, dataFrames, held)
    {
      hide Fed;
      ghost var start := decoder.State();
      HeldIsFeedable(dataFrames, key);
      for i := 0 to |held|
        invariant decoder.State().Valid()
        invariant forall j :: 0 <= j < i ==> Feedable(key, dataFrames, held[j])
        invariant decoder.State() == FedData(rs, start, key, dataFrames, held[..i])
      {
        var s := held[i];
        if |dataFrames[s]| + 2 > key.padSize {
          return false;
        }
        var shard := BuildShard(dataFrames[s], key.padSize);
        FedDataNext(rs, start, key, dataFrames, held, i);
        var _ := decoder.Decode(shard, s - key.first);
      }
      assert held[..|held|] == held;
      ok := true;
    }

    method SearchSlot(decoder: FrameDecoder, slot: Slot, order: seq<nat>) returns (r: Option<seq<Bytes>>)
      requires decoder.State().Valid() && decoder.rs == rs && forall i :: i in order ==> i in slot
      modifies decoder
      ensures r == Search(rs, old(decoder.State()), slot, order)
    {
      for i := 0 to |order|
        invariant decoder.State().Valid()
        invariant Search(rs, decoder.State(), slot, order[i..]) == Search(rs, old(decoder.State()), slot, order)
      {
        assert order[i] in order;
        assert order[i..][0] == order[i] && order[i..][1..] == order[i + 1..];
        r := decoder.Decode(slot[order[i]], SaturatingAdd(decoder.dataShards, order[i]));
        if r.Some? {
          return r;
        }
      }
      r := None;
    }

    method Reconstruct(key: RunKey, held: seq<Seqno>, slot: Slot, order: seq<nat>) returns (r: Rebuilt)
      requires Valid() && held == HeldOf(dataFrames, key.first, key.dataLen)
      requires forall i :: i in order ==> i in slot
      ensures r == Attempt(rs, key, dataFrames, slot, order)
    {
      var decoder := new FrameDecoder(rs, key.dataLen, key.parityLen);
      HeldIsFeedable(dataFrames, key);
      var ok := Load(decoder, key, held);
      if !ok {
        return Frames([]);
      }
      var missing := Missing(key.first, key.dataLen);
      var bodies := SearchSlot(decoder, slot, order);
      if bodies.None? {
        return Frames([]);
      }
      r := if |bodies.value| != |missing| then AssertionFails else Frames(Zip(bodies.value, missing));
    }

    /** The slot of a run, created empty if there is none; the cache may drop others. */
    method OpenSlot(key: RunKey) returns (slot: Slot, ghost evicted: set<RunKey>)
      modifies this`paritySpace
      ensures slot == SlotOf(old(State()), key)
      ensures paritySpace == (old(paritySpace) - evicted)[key := slot]
    {
      var dropped: set<RunKey> := *;
      slot := if key in paritySpace then paritySpace[key] else map[];
      paritySpace := (paritySpace - dropped)[key := slot];
      evicted := dropped;
    }

    /** Stores a parity frame and tries to rebuild its run as soon as the cached frames suffice. */
    method InsertParity(key: RunKey, idx: nat, body: Bytes)
      returns (r: Rebuilt, ghost evicted: set<RunKey>, ghost order: seq<nat>)
      requires Valid()
      modifies this`paritySpace
      ensures Valid()
      ensures Triggers(old(State()), key, idx, body) ==> Lists(order, FullSlot(old(State()), key, idx, body))
      ensures (State(), r) == ParityInserted(rs, old(State()), key, idx, body, evicted, order)
    {
      var slot, dropped := OpenSlot(key);
      evicted, order := dropped, [];
      ghost var others := old(paritySpace) - dropped;
      if ATTEMPTED in slot {
        return Frames([]), evicted, order;
      }
      slot := slot[idx := body];
      StoreSlot(key, slot, others);
      var held := Held(key.first, key.dataLen);
      r := Frames([]);
      if |held| + |slot| >= key.dataLen {
        slot := slot[ATTEMPTED := []];
        StoreSlot(key, slot, others);
        var hashed := HashOrder(slot);
        order := hashed;
        r := Reconstruct(key, held, slot, hashed);
      }
    }

    method StoreSlot(key: RunKey, slot: Slot, ghost others: map<RunKey, Slot>)
      requires key in paritySpace && paritySpace == others[key := paritySpace[key]]
      modifies this`paritySpace
      ensures paritySpace == others[key := slot]
    {
      paritySpace := paritySpace[key := slot];
    }
  }

  lemma FedDataNext(rs: Codec, d: Decoder, key: RunKey, data: map<Seqno, Bytes>, held: seq<Seqno>, i: nat)
    requires d.Valid() && i < |held| && forall j :: 0 <= j <= i ==> Feedable(key, data, held[j])
    ensures FedData(rs, d, key, data, held[..i + 1])
      == Fed(rs, FedData(rs, d, key, data, held[..i]), PreEncode(data[held[i]], key.padSize), held[i] - key.first).0
  {
    hide Fed;
    assert held[..i + 1][..i] == held[..i];
  }
}
