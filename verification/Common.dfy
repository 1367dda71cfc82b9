/** Vocabulary shared by the modules: optional values, byte buffers, and the
    ordered traversal of a key set. */
module Common {

  datatype Option<+T> = None | Some(value: T)

  type byte = x: nat | x < 256
  type Bytes = seq<byte>

  type Seqno = nat

  /** Instants and durations, in microseconds. */
  type Time = nat

  /** The bytes of a list of buffers, in order. */
  function Concat(bufs: seq<Bytes>): Bytes {
    if bufs == [] then [] else Concat(bufs[..|bufs| - 1]) + bufs[|bufs| - 1]
  }

  lemma {:induction false} ConcatSplit(left: seq<Bytes>, right: seq<Bytes>)
    ensures Concat(left + right) == Concat(left) + Concat(right)
    decreases |right|
  {
    if right == [] {
      assert left + right == left;
    } else {
      var front := right[..|right| - 1];
      ConcatSplit(left, front);
      assert (left + right)[..|left + right| - 1] == left + front;
      Regroup(Concat(left), Concat(front), right[|right| - 1]);
    }
  }

  lemma Regroup<T>(a: seq<T>, b: seq<T>, c: seq<T>)
    ensures a + (b + c) == (a + b) + c
  {
  }

  function Pow2(n: nat): (p: nat)
    ensures p >= 1
  {
    if n == 0 then 1 else 2 * Pow2(n - 1)
  }

  ghost predicate IsLeast(s: set<Seqno>, m: Seqno) {
    m in s && forall x :: x in s ==> m <= x
  }

  lemma {:induction false} LeastExists(s: set<Seqno>)
    requires s != {}
    ensures exists m :: IsLeast(s, m)
    decreases |s|
  {
    var x :| x in s;
    var rest := s - {x};
    if rest == {} {
      assert s == {x};
      assert IsLeast(s, x);
    } else {
      LeastExists(rest);
      var m :| IsLeast(rest, m);
      assert s == rest + {x};
      assert IsLeast(s, if x < m then x else m);
    }
  }

  /** The first key of an ordered set. */
  function Least(s: set<Seqno>): (m: Seqno)
    requires s != {}
    ensures IsLeast(s, m)
  {
    LeastExists(s);
    assert exists m :: m in s && forall x :: x in s ==> m <= x by {
      var m :| IsLeast(s, m);
    }
    var m :| m in s && forall x :: x in s ==> m <= x;
    m
  }

  function Elements(keys: seq<Seqno>): set<Seqno> {
    set s | s in keys
  }

  ghost predicate Ascending(keys: seq<Seqno>) {
    forall i, j :: 0 <= i < j < |keys| ==> keys[i] < keys[j]
  }

  ghost predicate Distinct(keys: seq<nat>) {
    forall i, j :: 0 <= i < j < |keys| ==> keys[i] != keys[j]
  }

  lemma {:induction false} DistinctCounts(keys: seq<nat>)
    requires Distinct(keys)
    ensures |Elements(keys)| == |keys|
    decreases |keys|
  {
    if keys == [] {
      assert Elements(keys) == {};
    } else {
      var rest := keys[1..];
      assert keys == [keys[0]] + rest;
      DistinctCounts(rest);
      assert Elements(keys) == Elements(rest) + {keys[0]};
      assert keys[0] !in rest;
    }
  }

  /** The keys of an ordered map in iteration order. */
  function Sorted(s: set<Seqno>): (keys: seq<Seqno>)
    ensures Ascending(keys)
    ensures forall x :: x in keys <==> x in s
    ensures |keys| == |s|
    decreases |s|
  {
    if s == {} then []
    else
      var m := Least(s);
      [m] + Sorted(s - {m})
  }

  /** A list never names more distinct keys than it has places. */
  lemma {:induction false} SetNoLargerThanList(s: set<Seqno>, keys: seq<Seqno>)
    requires forall x :: x in s ==> x in keys
    ensures |s| <= |keys|
    decreases |keys|
  {
    if keys == [] {
      assert s == {};
    } else {
      var rest := keys[1..];
      assert keys == [keys[0]] + rest;
      SetNoLargerThanList(s - {keys[0]}, rest);
    }
  }

  lemma SubsetSize<T>(small: set<T>, big: set<T>)
    requires small <= big
    ensures |small| <= |big|
    ensures |small| == |big| ==> small == big
  {
    assert big == small + (big - small);
    if |small| == |big| {
      assert |big - small| == 0;
      assert big - small == {};
    }
  }
}
