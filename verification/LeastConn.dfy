/**
 Load balancers that compare connection counts (src/cluster/lb.rs): the least
 connections per weight over the whole list, and the better of two at random.
 */
module LeastConn {
  import opened Wrappers
  import Arithmetic

  /** `WeightedLeastConn::new`: a weight of zero counts as one. */
  function Weights(configured: seq<nat>): seq<nat> {
    seq(|configured|, i requires 0 <= i < |configured| => if configured[i] < 1 then 1 else configured[i])
  }

  /** The weight of a position; positions past the configured ones weigh one. */
  function WeightAt(configured: seq<nat>, i: nat): (w: nat)
    ensures w >= 1
  {
    if i < |configured| then Weights(configured)[i] else 1
  }

  /** Connections per unit of weight. */
  function Ratio(connections: seq<nat>, configured: seq<nat>, i: nat): real
    requires i < |connections|
  {
    connections[i] as real / WeightAt(configured, i) as real
  }

  /** Comparing cross products is comparing ratios. */
  lemma CrossProductsCompareRatios(a: nat, b: nat, c: nat, d: nat)
    requires b >= 1 && d >= 1
    ensures a * d <= c * b <==> a as real / b as real <= c as real / d as real
  {
    var x, y := a as real / b as real, c as real / d as real;
    var p := b as real * d as real;
    assert p > 0.0;
    assert x * p == a as real * d as real by {
      assert x * b as real == a as real;
    }
    assert y * p == c as real * b as real by {
      assert y * d as real == c as real;
    }
    assert (a * d) as real == a as real * d as real;
    assert (c * b) as real == c as real * b as real;
    Scale(x, y, p);
  }

  lemma Scale(x: real, y: real, p: real)
    requires p > 0.0
    ensures x <= y <==> x * p <= y * p
  {}

  /** The configured weight, if there is one and it is not zero. */
  function Weighs(configured: seq<nat>, i: nat): nat {
    if i < |configured| && configured[i] > 0 then configured[i] else 1
  }

  lemma ProductsAt(connections: seq<nat>, configured: seq<nat>, i: nat, k: nat)
    requires i < |connections| && k < |connections| && Ratio(connections, configured, i) <= Ratio(connections, configured, k)
    ensures connections[i] * Weighs(configured, k) <= connections[k] * Weighs(configured, i)
  {
    CrossProductsCompareRatios(connections[i], WeightAt(configured, i), connections[k], WeightAt(configured, k));
  }

  lemma LeastByProducts(connections: seq<nat>, configured: seq<nat>, i: nat)
    requires i < |connections|
    requires forall k | 0 <= k < |connections| :: Ratio(connections, configured, i) <= Ratio(connections, configured, k)
    ensures forall k | 0 <= k < |connections| ::
              connections[i] * Weighs(configured, k) <= connections[k] * Weighs(configured, i)
  {
    forall k | 0 <= k < |connections|
      ensures connections[i] * Weighs(configured, k) <= connections[k] * Weighs(configured, i)
    {
      ProductsAt(connections, configured, i, k);
    }
  }

  /** `WeightedLeastConn::select`: the first endpoint with the least ratio over the whole list. */
  method SelectWeightedLeastConn(connections: seq<nat>, configured: seq<nat>) returns (r: Option<nat>)
    ensures r.None? <==> connections == []
    ensures r.Some? ==>
              && r.value < |connections|
              && (forall k | 0 <= k < |connections| ::
                    Ratio(connections, configured, r.value) <= Ratio(connections, configured, k))
              && (forall k | 0 <= k < r.value ::
                    Ratio(connections, configured, r.value) < Ratio(connections, configured, k))
    ensures r.Some? ==> forall k | 0 <= k < |connections| ::
              connections[r.value] * Weighs(configured, k) <= connections[k] * Weighs(configured, r.value)
  {
    if connections == [] {
      return None;
    }
    var best := 0;
    for j := 1 to |connections|
      invariant best < j
      invariant forall k | 0 <= k < j :: Ratio(connections, configured, best) <= Ratio(connections, configured, k)
      invariant forall k | 0 <= k < best :: Ratio(connections, configured, best) < Ratio(connections, configured, k)
    {
      var weightA, weightB := WeightAt(configured, best), WeightAt(configured, j);
      var scoreA, scoreB := connections[best] * weightB, connections[j] * weightA;
      CrossProductsCompareRatios(connections[best], weightA, connections[j], weightB);
      CrossProductsCompareRatios(connections[j], weightB, connections[best], weightA);
      if scoreA > scoreB {
        best := j;
      }
    }
    LeastByProducts(connections, configured, best);
    return Some(best);
  }

  // -------------------------------------------------------------------------
  // Power of two choices
  // -------------------------------------------------------------------------

  /** The second of two positions, from a draw. */
  function SecondChoice(n: nat, i: nat, draw: nat): (j: nat)
    requires n >= 2 && i < n
    ensures j < n
  {
    (draw % (n - 1) + i + 1) % n
  }

  /** It is never the first again, and every other position is drawn. */
  lemma SecondIsAnyOther(n: nat, i: nat, j: nat)
    requires n >= 2 && i < n && j < n
    ensures (exists draw: nat :: SecondChoice(n, i, draw) == j) <==> i != j
  {
    forall draw: nat ensures SecondChoice(n, i, draw) != i {
      SecondDiffers(n, i, draw);
    }
    if i != j {
      var draw := if j > i then j - i - 1 else j + n - i - 1;
      Arithmetic.Small(draw, n - 1);
      Arithmetic.Around(i, draw + 1, n);
      Arithmetic.Small(i, n);
      assert SecondChoice(n, i, draw) == j;
    }
  }

  lemma SecondDiffers(n: nat, i: nat, draw: nat)
    requires n >= 2 && i < n
    ensures SecondChoice(n, i, draw) != i
  {
    Arithmetic.Around(i, draw % (n - 1) + 1, n);
    Arithmetic.Small(i, n);
  }

  /** Answers the less loaded of two different endpoints, so never the single most loaded one. */
  method SelectTwoChoices(connections: seq<nat>, first: nat, second: nat) returns (r: Option<nat>)
    ensures r.None? <==> connections == []
    ensures r.Some? ==> r.value < |connections|
    ensures |connections| >= 2 ==>
              var i := first % |connections|;
              var j := SecondChoice(|connections|, i, second);
              && r == Some(if connections[j] < connections[i] then j else i)
              && connections[r.value] <= connections[i] && connections[r.value] <= connections[j]
              && exists k :: 0 <= k < |connections| && k != r.value && connections[r.value] <= connections[k]
  {
    if |connections| == 0 {
      return None;
    } else if |connections| == 1 {
      return Some(0);
    }
    var i := first % |connections|;
    var j := SecondChoice(|connections|, i, second);
    SecondDiffers(|connections|, i, second);
    if connections[i] <= connections[j] {
      return Some(i);
    } else {
      return Some(j);
    }
  }
}
