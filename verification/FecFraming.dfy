/** How a packet is padded into a shard and taken out of it again (src/fec/mod.rs). */
module FecFraming {
  import opened Common

  const MAX_PACKET: nat := 65535

  function Zeros(n: nat): Bytes {
    seq(n, _ => 0)
  }

  function Header(n: nat): Bytes
    requires n <= MAX_PACKET
  {
    [n % 256, n / 256]
  }

  function PreEncode(pkt: Bytes, len: nat): (shard: Bytes)
    requires |pkt| <= MAX_PACKET && |pkt| + 2 <= len
    ensures |shard| == len
  {
    Header(|pkt|) + pkt + Zeros(len - |pkt| - 2)
  }

  function PostDecode(raw: Bytes): Option<Bytes> {
    if |raw| < 2 then None
    else
      var bodyLen := (raw[0] as nat) + 256 * (raw[1] as nat);
      if |raw| < 2 + bodyLen then None else Some(raw[2..2 + bodyLen])
  }

  method BuildShard(pkt: Bytes, len: nat) returns (shard: Bytes)
    requires |pkt| <= MAX_PACKET && |pkt| + 2 <= len
    ensures shard == PreEncode(pkt, len)
  {
    shard := [];
    shard := shard + Header(|pkt|);
    shard := shard + pkt;
    shard := shard + Zeros(len - |pkt| - 2);
  }

  /** Decoding inverts padding, whatever follows the packet. */
  lemma PostDecodeInverts(pkt: Bytes, len: nat)
    requires |pkt| <= MAX_PACKET && |pkt| + 2 <= len
    ensures PostDecode(PreEncode(pkt, len)) == Some(pkt)
  {
    var shard := PreEncode(pkt, len);
    assert shard[0] == Header(|pkt|)[0] && shard[1] == Header(|pkt|)[1];
    assert shard[2..2 + |pkt|] == pkt;
  }

  lemma SplitFrame(raw: Bytes, hdr: Bytes, pkt: Bytes)
    requires |hdr| == 2
    ensures hdr + pkt <= raw <==> |raw| >= 2 + |pkt| && raw[0] == hdr[0] && raw[1] == hdr[1] && raw[2..2 + |pkt|] == pkt
  {
    var framed := hdr + pkt;
    assert forall i :: 2 <= i < |framed| ==> framed[i] == pkt[i - 2];
    if framed <= raw {
      assert raw[0] == framed[0] && raw[1] == framed[1];
      assert raw[..|framed|] == framed;
      assert raw[2..|framed|] == framed[2..] == pkt;
    } else if |raw| >= |framed| {
      assert framed != raw[..|framed|];
    }
  }

  lemma FramedDecodes(raw: Bytes, pkt: Bytes)
    requires |pkt| <= MAX_PACKET && Header(|pkt|) + pkt <= raw
    ensures PostDecode(raw) == Some(pkt)
  {
    SplitFrame(raw, Header(|pkt|), pkt);
  }

  lemma DecodedIsFramed(raw: Bytes, pkt: Bytes)
    requires |pkt| <= MAX_PACKET && PostDecode(raw) == Some(pkt)
    ensures Header(|pkt|) + pkt <= raw
  {
    SplitFrame(raw, Header(|pkt|), pkt);
  }

  /** A shard decodes to a packet exactly when it begins with that packet's length and bytes. */
  lemma PostDecodeExactly(raw: Bytes, pkt: Bytes)
    requires |pkt| <= MAX_PACKET
    ensures PostDecode(raw) == Some(pkt) <==> Header(|pkt|) + pkt <= raw
  {
    if PostDecode(raw) == Some(pkt) {
      DecodedIsFramed(raw, pkt);
    }
    if Header(|pkt|) + pkt <= raw {
      FramedDecodes(raw, pkt);
    }
  }
}
