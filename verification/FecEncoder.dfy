/** The encoder of one run of packets (src/fec/encoder.rs). */
module FecEncoding {
  import opened Common
  import opened ErasureCode
  import opened FecFraming

  /** The largest length among the packets. */
  function MaxLen(pkts: seq<Bytes>): (n: nat)
    ensures forall i :: 0 <= i < |pkts| ==> |pkts[i]| <= n
    ensures pkts != [] ==> exists i :: 0 <= i < |pkts| && |pkts[i]| == n
  {
    if pkts == [] then 0
    else
      var rest, last := MaxLen(pkts[..|pkts| - 1]), |pkts[|pkts| - 1]|;
      if rest > last then rest else last
  }

  ghost predicate Packets(pkts: seq<Bytes>) {
    forall i :: 0 <= i < |pkts| ==> |pkts[i]| <= MAX_PACKET
  }

  /** The data shards of a run: every packet padded to the same length. */
  function Padded(pkts: seq<Bytes>): seq<Bytes>
    requires Packets(pkts)
  {
    seq(|pkts|, i requires 0 <= i < |pkts| => PreEncode(pkts[i], MaxLen(pkts) + 2))
  }

  lemma PaddedIsStripe(pkts: seq<Bytes>)
    requires Packets(pkts)
    ensures Stripe(Padded(pkts), |pkts|, MaxLen(pkts) + 2)
  {
  }

  /** The caps on the number of parity shards; `wanted` is what the loss model asks for. */
  function RepairLen(wanted: nat, runLen: nat): (m: nat)
    requires runLen <= 255
    ensures m <= wanted && m <= 2 * runLen && runLen + m <= 255
    ensures m == wanted || m == 2 * runLen || runLen + m == 255
  {
    var byShards := if wanted < 255 - runLen then wanted else 255 - runLen;
    if byShards < runLen * 2 then byShards else runLen * 2
  }

  method MaxLength(pkts: seq<Bytes>) returns (maxLength: nat)
    ensures maxLength == MaxLen(pkts)
  {
    maxLength := 0;
    for i := 0 to |pkts|
      invariant maxLength == MaxLen(pkts[..i])
    {
      assert pkts[..i + 1][..i] == pkts[..i];
      maxLength := if maxLength > |pkts[i]| then maxLength else |pkts[i]|;
    }
    assert pkts[..|pkts|] == pkts;
  }

  method PadAll(pkts: seq<Bytes>, len: nat) returns (padded: seq<Bytes>)
    requires Packets(pkts) && len == MaxLen(pkts) + 2
    ensures padded == Padded(pkts)
  {
    padded := [];
    for i := 0 to |pkts|
      invariant padded == Padded(pkts)[..i]
    {
      var shard := BuildShard(pkts[i], len);
      padded := padded + [shard];
      assert Padded(pkts)[..i + 1] == Padded(pkts)[..i] + [Padded(pkts)[i]];
    }
  }

  /** The parity shards of a run. */
  function ParityOf(rs: Codec, pkts: seq<Bytes>, m: nat): seq<Bytes>
    requires Packets(pkts)
  {
    if m > 0 then rs.encode(m, Padded(pkts)) else []
  }

  /** Pads the packets of a run and appends the parity shards. */
  method Encode(rs: Codec, pkts: seq<Bytes>, wanted: nat) returns (shards: seq<Bytes>)
    requires 0 < |pkts| <= 255 && Packets(pkts)
    ensures shards == Padded(pkts) + ParityOf(rs, pkts, RepairLen(wanted, |pkts|))
  {
    var maxLength := MaxLength(pkts);
    var padded := PadAll(pkts, maxLength + 2);
    var m := RepairLen(wanted, |pkts|);
    shards := padded;
    if m > 0 {
      shards := padded + rs.encode(m, padded);
    }
  }
}
