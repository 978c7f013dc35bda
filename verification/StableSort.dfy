/**
 Stable sorting by an integer key, as `sort_by_key` orders chains and routes:
 the positions of the elements, by key and then by position.
 */
module StableSort {
  predicate Before(keys: seq<int>, i: nat, j: nat)
    requires i < |keys| && j < |keys|
  {
    keys[i] < keys[j] || (keys[i] == keys[j] && i < j)
  }

  predicate Ordered(keys: seq<int>, order: seq<nat>) {
    && (forall p | 0 <= p < |order| :: order[p] < |keys|)
    && (forall p, q | 0 <= p < q < |order| :: Before(keys, order[p], order[q]))
  }

  /** Puts a position after all the positions that come before it. */
  function Insert(keys: seq<int>, order: seq<nat>, i: nat): (r: seq<nat>)
    requires i < |keys| && Ordered(keys, order) && i !in order
    ensures Ordered(keys, r) && |r| == |order| + 1
    ensures forall j :: j in r <==> j == i || j in order
  {
    if order == [] then [i]
    else
      var n := |order| - 1;
      if Before(keys, order[n], i) then order + [i]
      else
        var r := Insert(keys, order[..n], i);
        assert order[n] !in order[..n] by {
          assert forall p | 0 <= p < n :: Before(keys, order[p], order[n]);
        }
        assert forall p | 0 <= p < |r| :: r[p] in r;
        r + [order[n]]
  }

  lemma OrderedGrows(keys: seq<int>, key: int, order: seq<nat>)
    requires Ordered(keys, order)
    ensures Ordered(keys + [key], order)
  {
    assert forall p, q | 0 <= p < q < |order| :: Before(keys, order[p], order[q]);
  }

  /** Every position once, by key and then by position. */
  function SortedPositions(keys: seq<int>): (order: seq<nat>)
    ensures Ordered(keys, order) && |order| == |keys|
    ensures forall j: nat :: j in order <==> j < |keys|
  {
    if keys == [] then []
    else
      var n := |keys| - 1;
      var order := SortedPositions(keys[..n]);
      assert keys == keys[..n] + [keys[n]];
      OrderedGrows(keys[..n], keys[n], order);
      Insert(keys, order, n)
  }

  /** The elements in the order their keys sort. */
  function Sort<T>(s: seq<T>, keys: seq<int>): (r: seq<T>)
    requires |keys| == |s|
    ensures |r| == |s|
  {
    var order := SortedPositions(keys);
    seq(|s|, p requires 0 <= p < |s| => s[order[p]])
  }

  lemma LeastInOrder(keys: seq<int>, order: seq<nat>, p: nat, q: nat)
    requires Ordered(keys, order) && p < q < |order|
    ensures Before(keys, order[p], order[q])
  {}

  /** The first element of a kind, once sorted, is the one of least key and then least position. */
  lemma FirstIsLeast(keys: seq<int>, order: seq<nat>, p: nat, wanted: nat -> bool, j: nat)
    requires order == SortedPositions(keys) && p < |keys| && j < |keys| && wanted(j)
    requires forall q | 0 <= q < p :: !wanted(order[q])
    ensures j == order[p] || Before(keys, order[p], j)
  {
    var q := PositionOf(keys, order, j);
    if p < q {
      LeastInOrder(keys, order, p, q);
    }
  }

  lemma PositionOf(keys: seq<int>, order: seq<nat>, j: nat) returns (q: nat)
    requires order == SortedPositions(keys) && j < |keys|
    ensures q < |order| && order[q] == j
  {
    assert j in order;
    q :| q < |order| && order[q] == j;
  }
}
