/** What forward error correction needs of an erasure code, and a code that provides it. */
module ErasureCode {
  import opened Common

  /** `encode(m, data)` computes m parity shards; `rebuild(k, m, shards)` recovers all
      k + m shards from those present. The Reed-Solomon library is used as such a pair. */
  datatype Codec = Codec(
    encode: (nat, seq<Bytes>) -> seq<Bytes>,
    rebuild: (nat, nat, seq<Option<Bytes>>) -> Option<seq<Bytes>>)

  ghost predicate Stripe(shards: seq<Bytes>, count: nat, len: nat) {
    |shards| == count && forall i :: 0 <= i < |shards| ==> |shards[i]| == len
  }

  function Mask(shards: seq<Bytes>, present: seq<bool>): seq<Option<Bytes>>
    requires |shards| == |present|
  {
    seq(|shards|, i requires 0 <= i < |shards| => if present[i] then Some(shards[i]) else None)
  }

  function Count(present: seq<bool>): nat {
    if present == [] then 0
    else Count(present[..|present| - 1]) + (if present[|present| - 1] then 1 else 0)
  }

  lemma {:induction false} CountUpdate(present: seq<bool>, i: nat)
    requires i < |present|
    ensures Count(present[i := true]) == Count(present) + (if present[i] then 0 else 1)
  {
    var n := |present| - 1;
    if i < n {
      CountUpdate(present[..n], i);
      assert present[i := true][..n] == present[..n][i := true];
    } else {
      assert present[i := true][..n] == present[..n];
    }
  }

  lemma {:induction false} CountNone(n: nat)
    ensures Count(seq(n, _ => false)) == 0
  {
    if n > 0 {
      CountNone(n - 1);
      assert seq(n, _ => false)[..n - 1] == seq(n - 1, _ => false);
    }
  }

  ghost predicate OnlyMissing(present: seq<bool>, i: nat) {
    i < |present| && !present[i] && forall j :: 0 <= j < |present| && j != i ==> present[j]
  }

  lemma {:induction false} CountAtMost(present: seq<bool>)
    ensures Count(present) <= |present|
    ensures Count(present) == |present| ==> forall i :: 0 <= i < |present| ==> present[i]
    ensures Count(present) == |present| - 1 ==> exists i :: OnlyMissing(present, i)
  {
    if present != [] {
      var n := |present| - 1;
      var front := present[..n];
      CountAtMost(front);
      assert forall i :: 0 <= i < n ==> front[i] == present[i];
      if Count(present) == n && present[n] {
        var i :| OnlyMissing(front, i);
        assert OnlyMissing(present, i);
      } else if Count(present) == n {
        assert OnlyMissing(present, n);
      }
    }
  }

  /** Any k of the k + m shards determine them all. */
  ghost predicate AnyKRecover(rs: Codec, k: nat, m: nat) {
    forall data: seq<Bytes>, len: nat {:trigger RecoversStripe(rs, k, m, data, len)} ::
      len > 0 && Stripe(data, k, len) ==> RecoversStripe(rs, k, m, data, len)
  }

  ghost predicate RecoversStripe(rs: Codec, k: nat, m: nat, data: seq<Bytes>, len: nat) {
    && |data| == k
    && Stripe(rs.encode(m, data), m, len)
    && forall present :: |present| == k + m && Count(present) >= k ==>
         rs.rebuild(k, m, Mask(data + rs.encode(m, data), present)) == Some(data + rs.encode(m, data))
  }

  // ----- One XOR parity shard is such a code -----

  function At(shard: Bytes, j: nat): byte {
    if j < |shard| then shard[j] else 0
  }

  /** Exclusive or of the lowest n bits. */
  function XorBits(x: nat, y: nat, n: nat): (z: nat)
    ensures z < Pow2(n)
  {
    if n == 0 then 0 else (x + y) % 2 + 2 * XorBits(x / 2, y / 2, n - 1)
  }

  function Xor(x: byte, y: byte): byte {
    assert Pow2(8) == 256;
    XorBits(x, y, 8)
  }

  lemma {:induction false} XorBitsAssoc(x: nat, y: nat, z: nat, n: nat)
    ensures XorBits(XorBits(x, y, n), z, n) == XorBits(x, XorBits(y, z, n), n)
  {
    if n > 0 {
      XorBitsAssoc(x / 2, y / 2, z / 2, n - 1);
      AssocStep(x, y, z, n);
    }
  }

  lemma AssocStep(x: nat, y: nat, z: nat, n: nat)
    requires n > 0
    requires XorBits(XorBits(x / 2, y / 2, n - 1), z / 2, n - 1) == XorBits(x / 2, XorBits(y / 2, z / 2, n - 1), n - 1)
    ensures XorBits(XorBits(x, y, n), z, n) == XorBits(x, XorBits(y, z, n), n)
  {
    hide XorBits;
    var xy, yz := XorBits(x, y, n), XorBits(y, z, n);
    Halves(x, y, n);
    Halves(y, z, n);
    ParityAssoc(x, y, z, xy, yz);
    Unfold(xy, z, n);
    Unfold(x, yz, n);
  }

  lemma Unfold(x: nat, y: nat, n: nat)
    requires n > 0
    ensures XorBits(x, y, n) == (x + y) % 2 + 2 * XorBits(x / 2, y / 2, n - 1)
  {
  }

  lemma Halves(x: nat, y: nat, n: nat)
    requires n > 0
    ensures XorBits(x, y, n) % 2 == (x + y) % 2 && XorBits(x, y, n) / 2 == XorBits(x / 2, y / 2, n - 1)
  {
    HalvesOf((x + y) % 2, XorBits(x / 2, y / 2, n - 1));
  }

  lemma HalvesOf(bit: nat, rest: nat)
    requires bit < 2
    ensures (bit + 2 * rest) % 2 == bit && (bit + 2 * rest) / 2 == rest
  {
  }

  lemma ParityOfSum(x: nat, y: nat)
    ensures (x + y) % 2 == (x % 2 + y % 2) % 2
  {
  }

  lemma ParityAssoc(x: nat, y: nat, z: nat, xy: nat, yz: nat)
    requires xy % 2 == (x + y) % 2 && yz % 2 == (y + z) % 2
    ensures (xy + z) % 2 == (x + yz) % 2
  {
    ParityOfSum(xy, z);
    ParityOfSum(x, yz);
    ParityOfSum(x, y);
    ParityOfSum(y, z);
  }

  lemma {:induction false} XorBitsUnits(x: nat, y: nat, n: nat)
    ensures XorBits(x, y, n) == XorBits(y, x, n)
    ensures XorBits(x, x, n) == 0
    ensures x < Pow2(n) ==> XorBits(x, 0, n) == x
  {
    if n > 0 {
      XorBitsUnits(x / 2, y / 2, n - 1);
    }
  }

  lemma XorLaws(x: byte, y: byte, z: byte)
    ensures Xor(Xor(x, y), z) == Xor(x, Xor(y, z))
    ensures Xor(x, y) == Xor(y, x)
    ensures Xor(x, x) == 0
    ensures Xor(x, 0) == x
  {
    assert Pow2(8) == 256;
    XorBitsAssoc(x, y, z, 8);
    XorBitsUnits(x, y, 8);
  }

  function Column(shards: seq<Bytes>, j: nat): byte {
    if shards == [] then 0 else Xor(Column(shards[..|shards| - 1], j), At(shards[|shards| - 1], j))
  }

  function XorAll(shards: seq<Bytes>, len: nat): Bytes {
    seq(len, j requires 0 <= j < len => Column(shards, j))
  }

  lemma {:induction false} ColumnSplit(a: seq<Bytes>, b: seq<Bytes>, j: nat)
    ensures Column(a + b, j) == Xor(Column(a, j), Column(b, j))
    decreases |b|
  {
    if b == [] {
      assert a + b == a;
      XorLaws(Column(a, j), 0, 0);
    } else {
      var front := b[..|b| - 1];
      ColumnSplit(a, front, j);
      assert (a + b)[..|a + b| - 1] == a + front;
      XorLaws(Column(a, j), Column(front, j), At(b[|b| - 1], j));
    }
  }

  function Len(shards: seq<Bytes>): nat {
    if shards == [] then 0 else |shards[0]|
  }

  /** The present shards, in order. */
  function Present(shards: seq<Option<Bytes>>): seq<Bytes> {
    if shards == [] then []
    else
      var last := shards[|shards| - 1];
      Present(shards[..|shards| - 1]) + (if last.Some? then [last.value] else [])
  }

  /** A missing shard is the XOR of the others. */
  function Fill(shards: seq<Option<Bytes>>): seq<Bytes> {
    var others := Present(shards);
    seq(|shards|, i requires 0 <= i < |shards| =>
      if shards[i].Some? then shards[i].value else XorAll(others, Len(others)))
  }

  const XOR: Codec := Codec(
    (m: nat, data: seq<Bytes>) => seq(m, _ => XorAll(data, Len(data))),
    (k: nat, m: nat, shards: seq<Option<Bytes>>) => if |Present(shards)| >= k then Some(Fill(shards)) else None)

  lemma {:induction false} PresentColumn(code: seq<Bytes>, present: seq<bool>, missing: nat, j: nat)
    requires |code| == |present| && OnlyMissing(present, missing)
    ensures Xor(Column(Present(Mask(code, present)), j), At(code[missing], j)) == Column(code, j)
    ensures |Present(Mask(code, present))| == |code| - 1
  {
    var n := |code| - 1;
    var front, flags := code[..n], present[..n];
    assert Mask(code, present)[..n] == Mask(front, flags);
    if missing == n {
      AllPresent(front, flags);
      assert Present(Mask(code, present)) == front;
    } else {
      PresentColumn(front, flags, missing, j);
      var rest := Present(Mask(front, flags));
      assert Present(Mask(code, present)) == rest + [code[n]];
      assert (rest + [code[n]])[..|rest|] == rest;
      XorSwap(Column(rest, j), At(code[n], j), At(code[missing], j));
    }
  }

  lemma XorSwap(x: byte, y: byte, z: byte)
    ensures Xor(Xor(x, y), z) == Xor(Xor(x, z), y)
  {
    XorLaws(x, y, z);
    XorLaws(x, z, y);
    XorLaws(y, z, 0);
  }

  lemma {:induction false} AllPresent(code: seq<Bytes>, present: seq<bool>)
    requires |code| == |present| && forall i :: 0 <= i < |present| ==> present[i]
    ensures Present(Mask(code, present)) == code
  {
    if code != [] {
      var n := |code| - 1;
      assert Mask(code, present)[..n] == Mask(code[..n], present[..n]);
      AllPresent(code[..n], present[..n]);
    }
  }

  lemma XorCancel(rest: byte, missing: byte)
    requires Xor(rest, missing) == 0
    ensures rest == missing
  {
    XorLaws(rest, missing, missing);
    XorLaws(missing, 0, 0);
    XorLaws(rest, 0, 0);
    XorLaws(0, missing, 0);
  }

  /** The columns of a stripe with its parity cancel. */
  lemma CodeColumnsCancel(data: seq<Bytes>, len: nat, j: nat)
    requires j < len
    ensures Column(data + [XorAll(data, len)], j) == 0
  {
    var parity := XorAll(data, len);
    assert (data + [parity])[..|data|] == data;
    XorLaws(Column(data, j), 0, 0);
  }

  lemma FillRecoversOne(data: seq<Bytes>, len: nat, present: seq<bool>, missing: nat)
    requires len > 0 && data != [] && Stripe(data, |data|, len)
    requires |present| == |data| + 1 && OnlyMissing(present, missing)
    ensures Fill(Mask(data + [XorAll(data, len)], present)) == data + [XorAll(data, len)]
  {
    var code := data + [XorAll(data, len)];
    var shards := Mask(code, present);
    var others := Present(shards);
    PresentColumn(code, present, missing, 0);
    OthersHaveLength(code, present, len);
    assert Len(others) == len;
    assert XorAll(others, len) == code[missing] by {
      forall j | 0 <= j < len
        ensures Column(others, j) == code[missing][j]
      {
        PresentColumn(code, present, missing, j);
        CodeColumnsCancel(data, len, j);
        XorCancel(Column(others, j), At(code[missing], j));
      }
    }
  }

  lemma {:induction false} OthersHaveLength(code: seq<Bytes>, present: seq<bool>, len: nat)
    requires |code| == |present| && forall i :: 0 <= i < |code| ==> |code[i]| == len
    ensures forall i :: 0 <= i < |Present(Mask(code, present))| ==> |Present(Mask(code, present))[i]| == len
  {
    if code != [] {
      var n := |code| - 1;
      assert Mask(code, present)[..n] == Mask(code[..n], present[..n]);
      OthersHaveLength(code[..n], present[..n], len);
    }
  }

  lemma XorRebuilds(data: seq<Bytes>, len: nat, present: seq<bool>)
    requires len > 0 && data != [] && Stripe(data, |data|, len)
    requires |present| == |data| + 1 && Count(present) >= |data|
    ensures var code := data + [XorAll(data, len)];
      && |Present(Mask(code, present))| >= |data| && Fill(Mask(code, present)) == code
  {
    hide Fill;
    var code := data + [XorAll(data, len)];
    CountAtMost(present);
    if Count(present) == |data| + 1 {
      AllPresent(code, present);
      FillKeepsAll(code, present);
    } else {
      var missing :| OnlyMissing(present, missing);
      FillRecoversOne(data, len, present, missing);
      PresentColumn(code, present, missing, 0);
    }
  }

  lemma FillKeepsAll(code: seq<Bytes>, present: seq<bool>)
    requires |code| == |present| && forall i :: 0 <= i < |present| ==> present[i]
    ensures Fill(Mask(code, present)) == code
  {
  }

  /** The assumption made of Reed-Solomon is satisfiable: XOR meets it for one parity shard
      and any number of data shards. */
  lemma XorRecoversAnyK(k: nat)
    requires k > 0
    ensures AnyKRecover(XOR, k, 1)
  {
    hide Fill, Mask, Present, Count, XorAll;
    forall data: seq<Bytes>, len: nat | len > 0 && Stripe(data, k, len)
      ensures RecoversStripe(XOR, k, 1, data, len)
    {
      var parity := XorAll(data, len);
      assert XOR.encode(1, data) == [parity];
      assert |parity| == len by { ParityLength(data, len); }
      forall present | |present| == k + 1 && Count(present) >= k
        ensures XOR.rebuild(k, 1, Mask(data + [parity], present)) == Some(data + [parity])
      {
        XorRebuilds(data, len, present);
      }
    }
  }

  lemma ParityLength(data: seq<Bytes>, len: nat)
    ensures |XorAll(data, len)| == len
  {
  }
}
