/** A queue that knows its minimum: two stacks of slab indices with cached minima (src/stats.rs). */
module MinimumQueue {
  import opened Common

  /** The order of the elements, as Rust's `Ord` provides it through `<`. */
  ghost predicate TotalOrder<T(!new)>(less: (T, T) -> bool) {
    && (forall x, y :: less(x, y) ==> !less(y, x))
    && (forall x, y, z :: !less(x, y) && !less(y, z) ==> !less(x, z))
  }

  /** A stack of slab indices, each with the index of the least item at or below it. */
  type Stack = seq<(nat, nat)>

  function Keys(stack: Stack): seq<nat> {
    if stack == [] then [] else Keys(stack[..|stack| - 1]) + [stack[|stack| - 1].0]
  }

  function Reversed(keys: seq<nat>): seq<nat> {
    if keys == [] then [] else [keys[|keys| - 1]] + Reversed(keys[..|keys| - 1])
  }

  /** The slab indices in queue order: the right stack from its top, then the left one from its bottom. */
  function Order(left: Stack, right: Stack): seq<nat> {
    Reversed(Keys(right)) + Keys(left)
  }

  ghost predicate LeastOf<T(!new)>(less: (T, T) -> bool, items: map<nat, T>, keys: seq<nat>, m: nat) {
    m in keys && m in items && forall k :: k in keys ==> k in items && !less(items[k], items[m])
  }

  /** Every cached minimum is one of the indices at or below it, and least among them. */
  ghost predicate CachesMinima<T(!new)>(less: (T, T) -> bool, items: map<nat, T>, stack: Stack) {
    stack != [] ==>
      CachesMinima(less, items, stack[..|stack| - 1]) && LeastOf(less, items, Keys(stack), stack[|stack| - 1].1)
  }

  function Values<T>(items: map<nat, T>, keys: seq<nat>): seq<T>
    requires forall k :: k in keys ==> k in items
  {
    seq(|keys|, i requires 0 <= i < |keys| => items[keys[i]])
  }

  lemma {:induction false} KeysSize(stack: Stack)
    ensures |Keys(stack)| == |stack|
    ensures stack != [] ==> Keys(stack)[0] == stack[0].0
  {
    if |stack| > 1 {
      KeysSize(stack[..|stack| - 1]);
    }
  }

  lemma KeysPush(stack: Stack, e: (nat, nat))
    ensures Keys(stack + [e]) == Keys(stack) + [e.0]
  {
    assert (stack + [e])[..|stack|] == stack;
  }

  lemma ReversedPush(keys: seq<nat>, k: nat)
    ensures Reversed(keys + [k]) == [k] + Reversed(keys)
  {
    assert (keys + [k])[..|keys|] == keys;
  }

  /** Moving the top of the left stack onto the right one keeps the queue order, as long as
      the right stack holds only what came off the left one. */
  lemma TransferKeepsOrder(left: Stack, right: Stack, e: (nat, nat))
    requires left != [] && e.0 == left[|left| - 1].0
    ensures Keys(left[..|left| - 1]) + Reversed(Keys(right + [e])) == Keys(left) + Reversed(Keys(right))
  {
    KeysPush(right, e);
    ReversedPush(Keys(right), e.0);
    assert Keys(left) == Keys(left[..|left| - 1]) + [e.0];
    Regroup(Keys(left[..|left| - 1]), [e.0], Reversed(Keys(right)));
  }

  /** Caching the lesser of the new index and the previous minimum keeps the cache right. */
  lemma PushCachesMinimum<T(!new)>(less: (T, T) -> bool, items: map<nat, T>, stack: Stack, k: nat, m: nat)
    requires TotalOrder(less) && CachesMinima(less, items, stack) && k in items
    requires m == if stack == [] then k else Lesser(less, items, stack, k)
    ensures CachesMinima(less, items, stack + [(k, m)])
  {
    assert (stack + [(k, m)])[..|stack|] == stack;
    KeysPush(stack, (k, m));
    if stack != [] {
      var c := stack[|stack| - 1].1;
      assert LeastOf(less, items, Keys(stack), c);
      forall x | x in Keys(stack) + [k] ensures x in items && !less(items[x], items[m]) {
        if x in Keys(stack) {
          assert !less(items[x], items[c]);
        }
      }
    }
  }

  function Lesser<T>(less: (T, T) -> bool, items: map<nat, T>, stack: Stack, k: nat): nat
    requires stack != [] && k in items
  {
    var c := stack[|stack| - 1].1;
    if c in items && less(items[c], items[k]) then c else k
  }

  /** Cached minima only look at the indices in the stack. */
  lemma {:induction false} CacheIgnoresOthers<T(!new)>(less: (T, T) -> bool, items: map<nat, T>, other: map<nat, T>, stack: Stack)
    requires CachesMinima(less, items, stack)
    requires forall k :: k in Keys(stack) ==> k in items && k in other && other[k] == items[k]
    ensures CachesMinima(less, other, stack)
    decreases |stack|
  {
    if stack != [] {
      CacheIgnoresOthers(less, items, other, stack[..|stack| - 1]);
      var m := stack[|stack| - 1].1;
      assert LeastOf(less, items, Keys(stack), m);
      forall k | k in Keys(stack) ensures k in other && !less(other[k], other[m]) {
        assert m in Keys(stack) && !less(items[k], items[m]);
      }
    }
  }

  lemma {:induction false} ReversedHolds(keys: seq<nat>)
    ensures forall k :: k in Reversed(keys) <==> k in keys
    ensures |Reversed(keys)| == |keys|
    ensures keys != [] ==> Reversed(keys)[0] == keys[|keys| - 1]
  {
    if keys != [] {
      ReversedHolds(keys[..|keys| - 1]);
      assert keys == keys[..|keys| - 1] + [keys[|keys| - 1]];
    }
  }

  /** The slab and the stacks fit together: the indices in the stacks are distinct and are
      exactly the slab's keys, and every cached minimum is right. */
  ghost predicate Fits<T(!new)>(less: (T, T) -> bool, items: map<nat, T>, left: Stack, right: Stack) {
    && TotalOrder(less)
    && Distinct(Order(left, right))
    && (forall k :: k in Order(left, right) <==> k in items)
    && CachesMinima(less, items, left) && CachesMinima(less, items, right)
  }

  lemma PushFits<T(!new)>(less: (T, T) -> bool, items: map<nat, T>, left: Stack, right: Stack, k: nat, elem: T, m: nat)
    requires Fits(less, items, left, right) && k !in items
    requires m == if left == [] then k else Lesser(less, items[k := elem], left, k)
    ensures var after := items[k := elem];
      && Fits(less, after, left + [(k, m)], right)
      && Values(after, Order(left + [(k, m)], right)) == Values(items, Order(left, right)) + [elem]
  {
    hide LeastOf, TotalOrder, Values, Distinct;
    var after := items[k := elem];
    StacksWithin(left, right, items);
    CacheIgnoresOthers(less, items, after, left);
    CacheIgnoresOthers(less, items, after, right);
    PushCachesMinimum(less, after, left, k, m);
    PushedOrder(left, right, (k, m));
    OneMoreKey(Order(left, right), k, items, after);
    ValuesPush(items, k, elem, Order(left, right));
  }

  lemma PushedOrder(left: Stack, right: Stack, e: (nat, nat))
    ensures Order(left + [e], right) == Order(left, right) + [e.0]
  {
    KeysPush(left, e);
  }

  lemma ValuesPush<T>(items: map<nat, T>, k: nat, elem: T, order: seq<nat>)
    requires k !in items && forall x :: x in order ==> x in items
    ensures forall x :: x in order + [k] ==> x in items[k := elem]
    ensures Values(items[k := elem], order + [k]) == Values(items, order) + [elem]
  {
    assert forall i :: 0 <= i < |order| ==> order[i] in order && (order + [k])[i] == order[i];
  }

  lemma OneMoreKey<T>(order: seq<nat>, k: nat, items: map<nat, T>, after: map<nat, T>)
    requires Distinct(order) && k !in items && after.Keys == items.Keys + {k}
    requires forall x :: x in order <==> x in items
    ensures Distinct(order + [k]) && forall x :: x in order + [k] <==> x in after
  {
    assert forall i :: 0 <= i < |order| ==> order[i] in order;
  }

  lemma PopFits<T(!new)>(less: (T, T) -> bool, items: map<nat, T>, left: Stack, right: Stack)
    requires Fits(less, items, left, right) && right != []
    ensures var k, rest := right[|right| - 1].0, right[..|right| - 1];
      && k in items && Fits(less, items - {k}, left, rest)
      && Values(items, Order(left, right)) == [items[k]] + Values(items - {k}, Order(left, rest))
  {
    hide LeastOf, TotalOrder;
    var k, rest := right[|right| - 1].0, right[..|right| - 1];
    PoppedOrder(left, right);
    OneKeyLess(Order(left, rest), k, items);
    StacksWithin(left, rest, items - {k});
    CacheIgnoresOthers(less, items, items - {k}, left);
    CacheIgnoresOthers(less, items, items - {k}, rest);
    ValuesPop(items, k, Order(left, rest));
  }

  lemma PoppedOrder(left: Stack, right: Stack)
    requires right != []
    ensures Order(left, right) == [right[|right| - 1].0] + Order(left, right[..|right| - 1])
    ensures forall k :: k in Keys(right[..|right| - 1]) ==> k in Keys(right)
  {
    var top, rest := right[|right| - 1], right[..|right| - 1];
    var keys := Keys(rest);
    assert Keys(right) == keys + [top.0];
    ReversedPush(keys, top.0);
    Regroup([top.0], Reversed(keys), Keys(left));
  }

  lemma OneKeyLess<T>(tail: seq<nat>, k: nat, items: map<nat, T>)
    requires Distinct([k] + tail) && forall x :: x in [k] + tail <==> x in items
    ensures k in items && k !in tail && Distinct(tail) && forall x :: x in tail <==> x in items - {k}
  {
    var order := [k] + tail;
    assert order[0] == k && k in order;
    assert forall i :: 0 <= i < |tail| ==> order[i + 1] == tail[i];
    assert k !in tail;
    forall x ensures x in tail <==> x in items - {k} {
      assert x in order <==> x == k || x in tail;
    }
    DistinctTail(k, tail);
  }

  lemma DistinctTail(k: nat, tail: seq<nat>)
    requires Distinct([k] + tail)
    ensures Distinct(tail)
  {
    var order := [k] + tail;
    forall i, j | 0 <= i < j < |tail| ensures tail[i] != tail[j] {
      assert order[i + 1] != order[j + 1];
    }
  }

  lemma ValuesPop<T>(items: map<nat, T>, k: nat, tail: seq<nat>)
    requires k in items && forall x :: x in tail ==> x in items && x != k
    ensures forall x :: x in [k] + tail ==> x in items
    ensures Values(items, [k] + tail) == [items[k]] + Values(items - {k}, tail)
  {
  }

  lemma EmptyStacks(left: Stack, right: Stack)
    ensures |Order(left, right)| == |left| + |right|
    ensures right == [] && left != [] ==> Order(left, right)[0] == left[0].0
    ensures right != [] ==> Order(left, right)[0] == right[|right| - 1].0
  {
    KeysSize(left);
    KeysSize(right);
    ReversedHolds(Keys(right));
  }

  /** While the left stack is being turned over onto the right one, reading it from its bottom
      and then the right one from its top gives the queue order. */
  ghost predicate Turning<T(!new)>(less: (T, T) -> bool, items: map<nat, T>, left: Stack, right: Stack, order: seq<nat>) {
    && TotalOrder(less)
    && CachesMinima(less, items, left) && CachesMinima(less, items, right)
    && Keys(left) + Reversed(Keys(right)) == order
    && (forall k :: k in order ==> k in items)
  }

  lemma TurningStarts<T(!new)>(less: (T, T) -> bool, items: map<nat, T>, left: Stack)
    requires Fits(less, items, left, [])
    ensures Turning(less, items, left, [], Order(left, []))
  {
  }

  lemma TurningEnds<T(!new)>(less: (T, T) -> bool, items: map<nat, T>, right: Stack, order: seq<nat>)
    requires Turning(less, items, [], right, order)
    ensures Order([], right) == order && CachesMinima(less, items, []) && CachesMinima(less, items, right)
  {
  }

  lemma TopsAreItems<T(!new)>(less: (T, T) -> bool, items: map<nat, T>, left: Stack, right: Stack, order: seq<nat>)
    requires Turning(less, items, left, right, order) && left != []
    ensures left[|left| - 1].0 in items
    ensures right != [] ==> right[|right| - 1].1 in items
  {
    assert left[|left| - 1].0 in Keys(left) && Keys(left) <= order;
    if right != [] {
      TopIsLeast(less, items, right);
    }
  }

  lemma MoveKeepsTurning<T(!new)>(less: (T, T) -> bool, items: map<nat, T>, left: Stack, right: Stack, order: seq<nat>, m: nat)
    requires Turning(less, items, left, right, order) && left != [] && left[|left| - 1].0 in items
    requires m == if right == [] then left[|left| - 1].0 else Lesser(less, items, right, left[|left| - 1].0)
    ensures Turning(less, items, left[..|left| - 1], right + [(left[|left| - 1].0, m)], order)
  {
    var elem := left[|left| - 1].0;
    PushCachesMinimum(less, items, right, elem, m);
    TransferKeepsOrder(left, right, (elem, m));
  }

  class MinQueue<T(!new)> {
    const less: (T, T) -> bool
    var left: Stack
    var right: Stack
    /** The slab. */
    var items: map<nat, T>
    /** How many elements were ever pushed, and how many crossed between the stacks. */
    ghost var pushes: nat
    ghost var moves: nat

    ghost predicate Valid()
      reads this
    {
      Fits(less, items, left, right) && moves + |left| == pushes
    }

    /** The queue as a plain sequence. */
    ghost function Queue(): seq<T>
      requires Valid()
      reads this
    {
      Values(items, Order(left, right))
    }

    constructor (less: (T, T) -> bool)
      requires TotalOrder(less)
      ensures Valid() && Queue() == [] && pushes == 0
    {
      this.less := less;
      left, right, items, pushes, moves := [], [], map[], 0, 0;
    }

    method Len() returns (n: nat)
      requires Valid()
      ensures n == |Queue()|
    {
      n := |items|;
      OrderCounts(left, right, items);
    }

    method MinIdxOf(x: nat, y: nat) returns (m: nat)
      requires x in items && y in items
      ensures m == if less(items[x], items[y]) then x else y
    {
      m := if less(items[x], items[y]) then x else y;
    }

    /** The slab hands out any index that is free. */
    method SlabInsert(elem: T) returns (k: nat)
      modifies this`items
      ensures k !in old(items) && items == old(items)[k := elem]
    {
      k := FreeIndex(items.Keys);
      items := items[k := elem];
    }

    method PushBack(elem: T)
      requires Valid()
      modifies this
      ensures Valid() && Queue() == old(Queue()) + [elem]
      ensures pushes == old(pushes) + 1 && moves == old(moves) <= pushes
    {
      hide Fits;
      var k := SlabInsert(elem);
      var m := k;
      if left != [] {
        TopIsCached(less, old(items), left, right);
        m := MinIdxOf(left[|left| - 1].1, k);
      }
      PushFits(less, old(items), left, right, k, elem, m);
      left := left + [(k, m)];
      pushes := pushes + 1;
    }

    /** Turns the left stack over onto the empty right one. */
    method Transfer()
      requires Valid() && right == []
      modifies this`left, this`right, this`moves
      ensures Valid() && left == [] && Queue() == old(Queue())
      ensures moves == old(moves) + old(|left|)
    {
      hide LeastOf, TotalOrder, CachesMinima, Distinct, Keys, Reversed, Turning, Values;
      ghost var order := Order(left, right);
      TurningStarts(less, items, left);
      while left != []
        invariant Turning(less, items, left, right, order)
        invariant moves + |left| == old(moves) + old(|left|)
        decreases |left|
      {
        TopsAreItems(less, items, left, right, order);
        var elem := left[|left| - 1].0;
        var m := elem;
        if right != [] {
          m := MinIdxOf(right[|right| - 1].1, elem);
        }
        MoveKeepsTurning(less, items, left, right, order, m);
        left := left[..|left| - 1];
        right := right + [(elem, m)];
        moves := moves + 1;
      }
      TurningEnds(less, items, right, order);
    }

    /** Each element crosses between the stacks at most once, so `moves` never exceeds `pushes`. */
    method PopFront() returns (r: Option<T>)
      requires Valid()
      modifies this
      ensures Valid() && pushes == old(pushes) && moves <= pushes
      ensures old(Queue()) == [] ==> r == None && Queue() == []
      ensures old(Queue()) != [] ==> r == Some(old(Queue())[0]) && Queue() == old(Queue())[1..]
    {
      hide Fits;
      if right == [] {
        Transfer();
      }
      EmptyStacks(left, right);
      if right == [] {
        return None;
      }
      PopFits(less, items, left, right);
      var k := right[|right| - 1].0;
      r := Some(items[k]);
      right := right[..|right| - 1];
      items := items - {k};
    }

    method PeekFront() returns (r: Option<T>)
      requires Valid()
      ensures r == if Queue() == [] then None else Some(Queue()[0])
    {
      EmptyStacks(left, right);
      ghost var order := Order(left, right);
      assert order != [] ==> order[0] in order;
      if right == [] {
        if left == [] {
          return None;
        }
        return Some(items[left[0].0]);
      }
      r := Some(items[right[|right| - 1].0]);
    }

    method MinIdx() returns (m: Option<nat>)
      requires Valid()
      ensures m.None? <==> left == [] && right == []
      ensures m.Some? ==> LeastOf(less, items, Order(left, right), m.value)
    {
      if right == [] && left == [] {
        return None;
      }
      var idx: nat;
      if right == [] {
        TopIsLeast(less, items, left);
        idx := left[|left| - 1].1;
      } else if left == [] {
        TopIsLeast(less, items, right);
        idx := right[|right| - 1].1;
      } else {
        TopIsLeast(less, items, left);
        TopIsLeast(less, items, right);
        idx := MinIdxOf(left[|left| - 1].1, right[|right| - 1].1);
      }
      LeastOfBoth(less, items, left, right, idx);
      m := Some(idx);
    }

    method Min() returns (r: Option<T>)
      requires Valid()
      ensures r.None? <==> Queue() == []
      ensures r.Some? ==> IsMinimum(less, Queue(), r.value)
    {
      EmptyStacks(left, right);
      var m := MinIdx();
      if m.None? {
        return None;
      }
      r := Some(items[m.value]);
      LeastIsMinimum(less, items, Order(left, right), m.value);
    }
  }

  /** An element of the queue that no other is less than. */
  ghost predicate IsMinimum<T(!new)>(less: (T, T) -> bool, queue: seq<T>, x: T) {
    (exists i :: 0 <= i < |queue| && queue[i] == x) && forall i :: 0 <= i < |queue| ==> !less(queue[i], x)
  }

  lemma LeastIsMinimum<T(!new)>(less: (T, T) -> bool, items: map<nat, T>, order: seq<nat>, m: nat)
    requires LeastOf(less, items, order, m)
    ensures IsMinimum(less, Values(items, order), items[m])
  {
    var at :| 0 <= at < |order| && order[at] == m;
    assert Values(items, order)[at] == items[m];
    assert forall i :: 0 <= i < |order| ==> order[i] in order;
  }

  lemma TopIsCached<T(!new)>(less: (T, T) -> bool, items: map<nat, T>, left: Stack, right: Stack)
    requires Fits(less, items, left, right) && left != []
    ensures left[|left| - 1].1 in items
  {
    TopIsLeast(less, items, left);
  }

  lemma TopIsLeast<T(!new)>(less: (T, T) -> bool, items: map<nat, T>, stack: Stack)
    requires stack != [] && CachesMinima(less, items, stack)
    ensures LeastOf(less, items, Keys(stack), stack[|stack| - 1].1)
  {
  }

  lemma LeastOfBoth<T(!new)>(less: (T, T) -> bool, items: map<nat, T>, left: Stack, right: Stack, m: nat)
    requires TotalOrder(less) && (left != [] || right != [])
    requires left != [] ==> LeastOf(less, items, Keys(left), left[|left| - 1].1)
    requires right != [] ==> LeastOf(less, items, Keys(right), right[|right| - 1].1)
    requires left == [] ==> m == right[|right| - 1].1
    requires right == [] ==> m == left[|left| - 1].1
    requires left != [] && right != [] ==>
      m == if less(items[left[|left| - 1].1], items[right[|right| - 1].1]) then left[|left| - 1].1 else right[|right| - 1].1
    ensures LeastOf(less, items, Order(left, right), m)
  {
    ReversedHolds(Keys(right));
    var order := Order(left, right);
    assert forall k :: k in order <==> k in Keys(left) || k in Keys(right);
  }

  lemma StacksWithin<T>(left: Stack, right: Stack, items: map<nat, T>)
    requires forall k :: k in Order(left, right) ==> k in items
    ensures forall k :: k in Keys(left) ==> k in items
    ensures forall k :: k in Keys(right) ==> k in items
  {
    ReversedHolds(Keys(right));
    assert forall k :: k in Keys(left) || k in Keys(right) ==> k in Order(left, right);
  }

  lemma OrderCounts<T>(left: Stack, right: Stack, items: map<nat, T>)
    requires Distinct(Order(left, right)) && forall k :: k in Order(left, right) <==> k in items
    ensures |items| == |Order(left, right)|
  {
    DistinctCounts(Order(left, right));
    assert Elements(Order(left, right)) == items.Keys;
    assert |items| == |items.Keys|;
  }

  method FreeIndex(used: set<nat>) returns (k: nat)
    ensures k !in used
  {
    k := 0;
    var left := used;
    while left != {}
      invariant left <= used && forall x :: x in used && x !in left ==> x < k
      decreases |left|
    {
      var x :| x in left;
      k := if x < k then k else x + 1;
      left := left - {x};
    }
  }
}
