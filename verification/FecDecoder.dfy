/** The single-use decoder of one run of shards (src/fec/decoder.rs). */
module FecDecoding {
  import opened Common
  import opened ErasureCode
  import opened FecFraming

  /** `k` data and `m` parity shards; `space` is empty until the first shard fixes the
      shard length, and again once reconstruction has consumed it. */
  datatype Decoder = Decoder(k: nat, m: nat, space: seq<Bytes>, present: seq<bool>, count: nat, done: bool) {
    predicate Valid() {
      |present| == k + m && (space == [] || |space| == k + m)
    }
  }

  function NewDecoder(k: nat, m: nat): Decoder {
    Decoder(k, m, [], seq(k + m, _ => false), 0, false)
  }

  /** The packets of the data shards among the first `n` that were not present. */
  function Recovered(full: seq<Bytes>, present: seq<bool>, n: nat): seq<Bytes>
    requires n <= |present|
  {
    if n == 0 then []
    else
      var front := Recovered(full, present, n - 1);
      if n - 1 < |full| && !present[n - 1] && PostDecode(full[n - 1]).Some?
      then front + [PostDecode(full[n - 1]).value]
      else front
  }

  function Single(pkt: Option<Bytes>): Option<seq<Bytes>> {
    if pkt.Some? then Some([pkt.value]) else None
  }

  function Sized(d: Decoder, len: nat): Decoder {
    if d.space == [] then d.(space := seq(d.k + d.m, _ => Zeros(len))) else d
  }

  /** Feeding one shard: the decoder after it, and what it returns. */
  function Fed(rs: Codec, d: Decoder, pkt: Bytes, idx: nat): (r: (Decoder, Option<seq<Bytes>>))
    requires d.Valid()
    ensures r.0.Valid() && r.0.k == d.k && r.0.m == d.m
  {
    if d.m == 0 then (d.(done := true), Single(PostDecode(pkt)))
    else
      var s := Sized(d, |pkt|);
      if |s.space| <= idx || s.done || |s.space[idx]| != |pkt| then (s, None)
      else
        var t := s.(space := s.space[idx := pkt], present := s.present[idx := true],
                    count := s.count + (if s.present[idx] then 0 else 1));
        if idx < t.k then (t, Single(PostDecode(pkt)))
        else if t.count < t.k then (t, None)
        else
          match rs.rebuild(t.k, t.m, Mask(t.space, t.present))
          case None => (t, None)
          case Some(full) => (t.(space := [], done := true), Some(Recovered(full, t.present, t.k)))
  }

  class FrameDecoder {
    const dataShards: nat
    const parityShards: nat
    const rs: Codec
    var space: seq<Bytes>
    var present: seq<bool>
    var presentCount: nat
    var done: bool

    ghost function State(): Decoder
      reads this
    {
      Decoder(dataShards, parityShards, space, present, presentCount, done)
    }

    constructor (rs: Codec, k: nat, m: nat)
      ensures State() == NewDecoder(k, m) && this.rs == rs
    {
      this.rs, dataShards, parityShards := rs, k, m;
      space, present, presentCount, done := [], seq(k + m, _ => false), 0, false;
    }

    method Decode(pkt: Bytes, idx: nat) returns (r: Option<seq<Bytes>>)
      requires State().Valid()
      modifies this
      ensures State().Valid() && (State(), r) == Fed(rs, old(State()), pkt, idx)
    {
      if parityShards == 0 {
        done := true;
        return Single(PostDecode(pkt));
      }
      if space == [] {
        space := seq(dataShards + parityShards, _ => Zeros(|pkt|));
      }
      if |space| <= idx {
        return None;
      }
      if done || |space[idx]| != |pkt| {
        return None;
      }
      space := space[idx := pkt];
      if !present[idx] {
        presentCount := presentCount + 1;
      }
      present := present[idx := true];
      if idx < dataShards {
        return Single(PostDecode(pkt));
      }
      if presentCount < dataShards {
        return None;
      }
      var rebuilt := rs.rebuild(dataShards, parityShards, Mask(space, present));
      if rebuilt.None? {
        return None;
      }
      done := true;
      space := [];
      r := Some(Recovered(rebuilt.value, present, dataShards));
    }
  }

  /** A data shard gives its packet back at once, and so does any shard of a run without parity. */
  lemma DataShardGivesItsPacket(rs: Codec, d: Decoder, pkt: Bytes, len: nat, idx: nat)
    requires d.Valid() && |pkt| <= MAX_PACKET && |pkt| + 2 <= len
    requires d.m == 0 || (!d.done && idx < d.k && (d.space == [] || |d.space[idx]| == len))
    ensures Fed(rs, d, PreEncode(pkt, len), idx).1 == Some([pkt])
  {
    PostDecodeInverts(pkt, len);
  }

  /** A shard of another length, one out of range, and one that comes after reconstruction change
      nothing and give nothing back. */
  lemma MisfitIsIgnored(rs: Codec, d: Decoder, pkt: Bytes, idx: nat)
    requires d.Valid() && d.m > 0 && d.space != []
    requires d.done || idx >= d.k + d.m || |d.space[idx]| != |pkt|
    ensures Fed(rs, d, pkt, idx) == (d, None)
  {
  }

  /** A decoder is done only by giving something back, and until then keeps the other shards. */
  lemma DoneOnlyByGiving(rs: Codec, d: Decoder, pkt: Bytes, idx: nat)
    requires d.Valid() && d.m > 0 && !d.done
    ensures var (after, r) := Fed(rs, d, pkt, idx);
      && (after.done ==> r.Some?)
      && (!after.done ==>
            && (forall i :: 0 <= i < |d.present| && i != idx ==> after.present[i] == d.present[i])
            && (forall i :: 0 <= i < |d.space| && i != idx ==> |after.space| == |d.space| && after.space[i] == d.space[i]))
  {
  }

  // ----- Feeding shards of a real code word -----

  /** A decoder that holds some shards of the code word, each in its place. */
  ghost predicate Loaded(d: Decoder, code: seq<Bytes>, len: nat) {
    && d.Valid() && d.m > 0 && !d.done
    && |code| == d.k + d.m && Stripe(code, |code|, len)
    && Stripe(d.space, |code|, len)
    && (forall i :: 0 <= i < |code| && d.present[i] ==> d.space[i] == code[i])
    && d.count == Count(d.present)
  }

  /** A decoder that is loaded, or that has seen nothing at all. */
  ghost predicate Loadable(d: Decoder, code: seq<Bytes>, len: nat) {
    || Loaded(d, code, len)
    || (d.m > 0 && d == NewDecoder(d.k, d.m) && |code| == d.k + d.m && Stripe(code, |code|, len))
  }

  lemma SizedIsLoaded(d: Decoder, code: seq<Bytes>, len: nat)
    requires Loadable(d, code, len)
    ensures Loaded(Sized(d, len), code, len)
    ensures Sized(d, len).present == d.present && Sized(d, len).count == d.count
  {
    if !Loaded(d, code, len) {
      CountNone(d.k + d.m);
    }
  }

  /** Feeding a shard records it, unless that completes the code word. */
  lemma FedLoads(rs: Codec, d: Decoder, code: seq<Bytes>, len: nat, idx: nat)
    requires Loadable(d, code, len) && idx < |code|
    ensures var count := d.count + (if d.present[idx] then 0 else 1);
      var (after, r) := Fed(rs, d, code[idx], idx);
      && (idx < d.k || count < d.k ==>
            Loaded(after, code, len) && after.present == d.present[idx := true] && after.count == count)
      && (idx >= d.k && count < d.k ==> r.None?)
  {
    SizedIsLoaded(d, code, len);
    CountUpdate(d.present, idx);
  }

  lemma MaskIgnoresAbsent(space: seq<Bytes>, code: seq<Bytes>, present: seq<bool>)
    requires |space| == |code| == |present|
    requires forall i :: 0 <= i < |code| && present[i] ==> space[i] == code[i]
    ensures Mask(space, present) == Mask(code, present)
  {
  }

  /** The parity shard that brings the count to k rebuilds the code word. */
  lemma FedRebuilds(rs: Codec, d: Decoder, data: seq<Bytes>, len: nat, idx: nat)
    requires AnyKRecover(rs, d.k, d.m) && Stripe(data, d.k, len) && len > 0
    requires var code := data + rs.encode(d.m, data); Loadable(d, code, len) && d.k <= idx < |code| && !d.present[idx]
    requires d.count + 1 >= d.k
    ensures var code := data + rs.encode(d.m, data);
      Fed(rs, d, code[idx], idx).1 == Some(Recovered(code, d.present, d.k))
  {
    var code := data + rs.encode(d.m, data);
    assert RecoversStripe(rs, d.k, d.m, data, len);
    SizedIsLoaded(d, code, len);
    CountUpdate(d.present, idx);
    var s := Sized(d, len);
    var space, present := s.space[idx := code[idx]], s.present[idx := true];
    MaskIgnoresAbsent(space, code, present);
    RecoveredReadsData(code, d.present, present, d.k);
  }

  lemma {:induction false} RecoveredReadsData(full: seq<Bytes>, p: seq<bool>, q: seq<bool>, n: nat)
    requires n <= |p| && n <= |q| && forall i :: 0 <= i < n ==> p[i] == q[i]
    ensures Recovered(full, p, n) == Recovered(full, q, n)
  {
    if n > 0 {
      RecoveredReadsData(full, p, q, n - 1);
    }
  }
}
