/**
 Weighted traffic splits (src/router/router.rs): a counter, truncated to 32 bits
 and reduced by the total weight, is looked up in the cumulative weights.
 */
module WeightedSplit {
  import opened Wrappers
  import opened Arithmetic

  const U32: nat := 0x1_0000_0000
  const U64: nat := 0x1_0000_0000_0000_0000

  datatype Split = Split(cluster: string, weight: nat)

  /** The weight of the first n entries. */
  function Cumulative(splits: seq<Split>, n: nat): nat
    requires n <= |splits|
  {
    if n == 0 then 0 else Cumulative(splits, n - 1) + splits[n - 1].weight
  }

  function Total(splits: seq<Split>): nat {
    Cumulative(splits, |splits|)
  }

  /** Where a counter value falls among the weights. */
  function Point(total: nat, counter: nat): (p: nat)
    requires total > 0
    ensures p < total
  {
    (counter % U32) % total
  }

  /** The entry whose share of the total contains the point. */
  predicate Falls(splits: seq<Split>, point: nat, i: nat) {
    i < |splits| && Cumulative(splits, i) <= point < Cumulative(splits, i + 1)
  }

  lemma {:induction false} CumulativeMonotone(splits: seq<Split>, i: nat, j: nat)
    requires i <= j <= |splits|
    ensures Cumulative(splits, i) <= Cumulative(splits, j)
    decreases j - i
  {
    if i < j {
      CumulativeMonotone(splits, i, j - 1);
    }
  }

  /** The shares do not overlap. */
  lemma FallsOnce(splits: seq<Split>, point: nat, i: nat, j: nat)
    requires Falls(splits, point, i) && Falls(splits, point, j)
    ensures i == j
  {
    if i < j {
      CumulativeMonotone(splits, i + 1, j);
    } else if j < i {
      CumulativeMonotone(splits, j + 1, i);
    }
  }

  /** The entry chosen for a counter value. */
  function Pick(splits: seq<Split>, counter: nat): (i: nat)
    requires Total(splits) > 0
    ensures Falls(splits, Point(Total(splits), counter), i) && splits[i].weight > 0
  {
    Locate(splits, Point(Total(splits), counter), |splits|)
  }

  function Locate(splits: seq<Split>, point: nat, n: nat): (i: nat)
    requires n <= |splits| && point < Cumulative(splits, n)
    ensures Falls(splits, point, i)
  {
    if Cumulative(splits, n - 1) <= point then n - 1 else Locate(splits, point, n - 1)
  }

  class Splitter {
    const clusters: seq<(string, nat)>
    const totalWeight: nat
    const splits: seq<Split>
    var counter: nat

    constructor (splits: seq<Split>)
      ensures this.splits == splits && Valid() && counter == 0
    {
      var cs: seq<(string, nat)> := [];
      var cumulative := 0;
      for i := 0 to |splits|
        invariant |cs| == i && cumulative == Cumulative(splits, i)
        invariant forall k | 0 <= k < i :: cs[k] == (splits[k].cluster, Cumulative(splits, k + 1))
      {
        cumulative := cumulative + splits[i].weight;
        cs := cs + [(splits[i].cluster, cumulative)];
      }
      this.splits := splits;
      clusters := cs;
      totalWeight := cumulative;
      counter := 0;
    }

    predicate Valid()
      reads this
    {
      && |clusters| == |splits| && totalWeight == Total(splits) && counter < U64
      && forall k | 0 <= k < |splits| :: clusters[k] == (splits[k].cluster, Cumulative(splits, k + 1))
    }

    /** The cluster of the entry picked for the counter, which moves on by one. */
    method Select() returns (r: Option<string>)
      requires Valid()
      modifies this
      ensures Valid()
      ensures r.None? <==> Total(splits) == 0
      ensures r.None? ==> counter == old(counter)
      ensures r.Some? ==>
                && r.value == splits[Pick(splits, old(counter))].cluster
                && counter == (old(counter) + 1) % U64
    {
      if |clusters| == 0 || totalWeight == 0 {
        return None;
      }
      var point := Point(totalWeight, counter);
      ghost var chosen := Pick(splits, counter);
      counter := (counter + 1) % U64;
      for k := 0 to |clusters|
        invariant k <= chosen
      {
        if point < clusters[k].1 {
          assert clusters[k].1 == Cumulative(splits, k + 1);
          CumulativeMonotone(splits, k, chosen);
          if k < chosen {
            CumulativeMonotone(splits, k + 1, chosen);
          }
          return Some(clusters[k].0);
        }
        assert k != chosen;
      }
      assert false;
    }

    /** Consecutive selections choose by consecutive counter values, also where the 64-bit counter wraps. */
    method SelectMany(n: nat) returns (chosen: seq<string>)
      requires Valid() && Total(splits) > 0
      modifies this
      ensures Valid() && |chosen| == n
      ensures forall k: nat | k < n :: chosen[k] == splits[Pick(splits, old(counter) + k)].cluster
    {
      chosen := [];
      ghost var start := counter;
      Small(start, U64);
      for k := 0 to n
        invariant Valid() && |chosen| == k && counter == Wrapped(start, k)
        invariant forall j: nat | j < k :: chosen[j] == splits[Pick(splits, start + j)].cluster
      {
        PickWraps(splits, start + k);
        WrapsOn(start, k);
        var r := Select();
        chosen := chosen + [r.value];
      }
    }
  }

  function Wrapped(start: nat, k: nat): nat {
    (start + k) % U64
  }

  /** Only the low 32 bits of the counter matter, so its wrap at 2^64 does not. */
  lemma PickWraps(splits: seq<Split>, counter: nat)
    requires Total(splits) > 0
    ensures Pick(splits, counter % U64) == Pick(splits, counter)
  {
    assert U64 % U32 == 0;
    ModMod(counter, U64, U32);
  }

  lemma WrapsOn(start: nat, k: nat)
    ensures (Wrapped(start, k) + 1) % U64 == Wrapped(start, k + 1)
  {
    var c := (start + k) % U64;
    Around(start + k, 1, U64);
    Small(c, U64);
    Around(c, 1, U64);
  }

  // -------------------------------------------------------------------------
  // Fairness
  // -------------------------------------------------------------------------

  /** How many of n consecutive counter values fall on a point. */
  function Hits(total: nat, counter: nat, n: nat, point: nat): nat
    requires total > 0
  {
    if n == 0 then 0 else Hits(total, counter, n - 1, point) + if Point(total, counter + n - 1) == point then 1 else 0
  }

  /** How many of n consecutive counter values choose entry i. */
  function Chosen(splits: seq<Split>, counter: nat, n: nat, i: nat): nat
    requires Total(splits) > 0
  {
    if n == 0 then 0 else Chosen(splits, counter, n - 1, i) + if Pick(splits, counter + n - 1) == i then 1 else 0
  }

  /** A window of one whole cycle does not run past a multiple of 2^32, or that makes no difference. */
  predicate Aligned(total: nat, counter: nat)
    requires total > 0
  {
    counter % U32 + total <= U32 || U32 % total == 0
  }

  /** Where the k-th value of a window falls: k further around from the first. */
  lemma PointAfter(total: nat, counter: nat, k: nat)
    requires k < total && (counter % U32 + k < U32 || U32 % total == 0)
    ensures Point(total, counter + k) ==
            var a := Point(total, counter);
            if a + k < total then a + k else a + k - total
  {
    var b := counter % U32;
    if b + k < U32 {
      if k < U32 {
        Around(counter, k, U32);
      }
      Around(b, k, total);
    } else {
      ModMod(counter, U32, total);
      ModMod(counter + k, U32, total);
      Around(counter, k, total);
    }
  }

  /** A point is hit once in a stretch of values before the turnover, if it is within reach. */
  lemma {:induction false} HitsInWindow(total: nat, counter: nat, n: nat, point: nat)
    requires n <= total && point < total && (counter % U32 + n <= U32 || U32 % total == 0)
    ensures var a := Point(total, counter);
            var k := if point >= a then point - a else point - a + total;
            Hits(total, counter, n, point) == if k < n then 1 else 0
  {
    if n > 0 {
      HitsInWindow(total, counter, n - 1, point);
      PointAfter(total, counter, n - 1);
    }
  }

  lemma {:induction false} HitsAppend(total: nat, counter: nat, m: nat, n: nat, point: nat)
    requires total > 0
    ensures Hits(total, counter, m + n, point) == Hits(total, counter, m, point) + Hits(total, counter + m, n, point)
  {
    if n > 0 {
      HitsAppend(total, counter, m, n - 1, point);
    }
  }

  // -------------------------------------------------------------------------
  // One cycle, wherever the counter stands
  // -------------------------------------------------------------------------

  /** How many values of a cycle lie past the turnover. */
  function Overrun(total: nat, counter: nat): nat {
    if counter % U32 + total <= U32 then 0 else counter % U32 + total - U32
  }

  /** The points a cycle misses when its last m values start over at zero: m of them, around from where it broke off. */
  predicate Missed(total: nat, m: nat, point: nat)
    requires total > 0
  {
    InTurn(U32 % total, m, total, point)
  }

  /** Among m points from r on, around the total. */
  predicate InTurn(r: nat, m: nat, total: nat, point: nat) {
    r <= point < r + m || point < r + m - total
  }

  /** In a cycle every point is hit once, plus once if it comes again after the turnover, less once if it is missed. */
  lemma HitsInCycle(total: nat, counter: nat, point: nat)
    requires 0 < total <= U32 && point < total
    ensures var m := Overrun(total, counter);
            Hits(total, counter, total, point) ==
            1 + (if point < m then 1 else 0) - (if Missed(total, m, point) then 1 else 0)
  {
    var m := Overrun(total, counter);
    if m == 0 {
      HitsInWindow(total, counter, total, point);
    } else {
      var b := counter % U32;
      var before := total - m;
      HitsInWindow(total, counter, before, point);
      HitsAppend(total, counter, before, m, point);
      Around(counter, before, U32);
      Small(0, total);
      HitsInWindow(total, counter + before, m, point);
      Around(b, before, total);
    }
  }

  /** The hits on a range of points. */
  function HitsBetween(total: nat, counter: nat, n: nat, lo: nat, hi: nat): nat
    requires total > 0 && lo <= hi
    decreases hi - lo
  {
    if lo == hi then 0 else HitsBetween(total, counter, n, lo, hi - 1) + Hits(total, counter, n, hi - 1)
  }

  lemma {:induction false} HitsBetweenStep(total: nat, counter: nat, n: nat, lo: nat, hi: nat)
    requires total > 0 && lo <= hi && n > 0
    ensures var p := Point(total, counter + n - 1);
            HitsBetween(total, counter, n, lo, hi) ==
            HitsBetween(total, counter, n - 1, lo, hi) + if lo <= p < hi then 1 else 0
    decreases hi - lo
  {
    if lo < hi {
      HitsBetweenStep(total, counter, n, lo, hi - 1);
    }
  }

  lemma {:induction false} NoHits(total: nat, counter: nat, lo: nat, hi: nat)
    requires total > 0 && lo <= hi
    ensures HitsBetween(total, counter, 0, lo, hi) == 0
    decreases hi - lo
  {
    if lo < hi {
      NoHits(total, counter, lo, hi - 1);
    }
  }

  /** An entry is chosen as often as its share is hit. */
  lemma {:induction false} ChosenIsHits(splits: seq<Split>, counter: nat, n: nat, i: nat)
    requires Total(splits) > 0 && i < |splits|
    ensures Chosen(splits, counter, n, i) ==
            HitsBetween(Total(splits), counter, n, Cumulative(splits, i), Cumulative(splits, i + 1))
  {
    var total, lo, hi := Total(splits), Cumulative(splits, i), Cumulative(splits, i + 1);
    if n == 0 {
      NoHits(total, counter, lo, hi);
    } else {
      ChosenIsHits(splits, counter, n - 1, i);
      HitsBetweenStep(total, counter, n, lo, hi);
      var p := Point(total, counter + n - 1);
      if lo <= p < hi {
        FallsOnce(splits, p, i, Pick(splits, counter + n - 1));
      }
    }
  }

  /** How many points two ranges share. */
  function Common(lo: nat, hi: nat, from: nat, to: nat): nat {
    var a, b := if lo >= from then lo else from, if hi <= to then hi else to;
    if a < b then b - a else 0
  }

  /** The points of a share that come again after the turnover. */
  function Again(total: nat, counter: nat, lo: nat, hi: nat): nat {
    Common(lo, hi, 0, Overrun(total, counter))
  }

  /** The points of a share among m points from r on, around the total. */
  function CommonTurn(r: nat, m: nat, total: nat, lo: nat, hi: nat): nat {
    if r + m <= total then Common(lo, hi, r, r + m) else Common(lo, hi, r, total) + Common(lo, hi, 0, r + m - total)
  }

  /** The points of a share that the cycle misses because of it. */
  function Lost(total: nat, counter: nat, lo: nat, hi: nat): nat
    requires total > 0
  {
    CommonTurn(U32 % total, Overrun(total, counter), total, lo, hi)
  }

  lemma CommonGrows(lo: nat, hi: nat, m: nat)
    requires lo < hi
    ensures Common(lo, hi, 0, m) == Common(lo, hi - 1, 0, m) + if hi - 1 < m then 1 else 0
  {}

  lemma TurnGrows(r: nat, m: nat, total: nat, lo: nat, hi: nat)
    requires r < total && m < total && lo < hi <= total
    ensures CommonTurn(r, m, total, lo, hi) ==
            CommonTurn(r, m, total, lo, hi - 1) + if InTurn(r, m, total, hi - 1) then 1 else 0
  {}

  lemma {:induction false} ShareInCycle(total: nat, counter: nat, lo: nat, hi: nat)
    requires 0 < total <= U32 && lo <= hi <= total
    ensures HitsBetween(total, counter, total, lo, hi) ==
            (hi - lo) + Again(total, counter, lo, hi) - Lost(total, counter, lo, hi)
    decreases hi - lo
  {
    if lo < hi {
      ShareInCycle(total, counter, lo, hi - 1);
      HitsInCycle(total, counter, hi - 1);
      TurnGrows(U32 % total, Overrun(total, counter), total, lo, hi);
      CommonGrows(lo, hi, Overrun(total, counter));
    }
  }

  /** Each entry is chosen as often as its weight says, over one cycle from this counter value. */
  predicate Fair(splits: seq<Split>, counter: nat)
    requires Total(splits) > 0
  {
    forall i | 0 <= i < |splits| :: Chosen(splits, counter, Total(splits), i) == splits[i].weight
  }

  /** How often an entry is chosen in any cycle. */
  lemma ChosenInCycle(splits: seq<Split>, counter: nat, i: nat)
    requires 0 < Total(splits) <= U32 && i < |splits|
    ensures var total, lo, hi := Total(splits), Cumulative(splits, i), Cumulative(splits, i + 1);
            Chosen(splits, counter, total, i) ==
            splits[i].weight + Again(total, counter, lo, hi) - Lost(total, counter, lo, hi)
  {
    ChosenIsHits(splits, counter, Total(splits), i);
    CumulativeMonotone(splits, i + 1, |splits|);
    ShareInCycle(Total(splits), counter, Cumulative(splits, i), Cumulative(splits, i + 1));
  }

  /** The i-th share gains as many points at the turnover as it loses. */
  predicate BreaksEven(splits: seq<Split>, counter: nat, i: nat)
    requires Total(splits) > 0 && i < |splits|
  {
    Again(Total(splits), counter, Cumulative(splits, i), Cumulative(splits, i + 1)) ==
    Lost(Total(splits), counter, Cumulative(splits, i), Cumulative(splits, i + 1))
  }

  /** This split is fair in this cycle if and only if each share gains as many points at the turnover as it loses. */
  lemma FairIffSharesBreakEven(splits: seq<Split>, counter: nat)
    requires 0 < Total(splits) <= U32
    ensures Fair(splits, counter) <==> forall i | 0 <= i < |splits| :: BreaksEven(splits, counter, i)
  {
    forall i | 0 <= i < |splits|
      ensures Chosen(splits, counter, Total(splits), i) == splits[i].weight <==> BreaksEven(splits, counter, i)
    {
      ChosenInCycle(splits, counter, i);
    }
  }

  // -------------------------------------------------------------------------
  // Every split of a total
  // -------------------------------------------------------------------------

  lemma TotalBound(total: nat, counter: nat)
    requires 0 < total && Aligned(total, counter)
    ensures total <= U32
  {
    if total > U32 {
      Small(U32, total);
    }
  }

  /** Over one aligned cycle of selections, each entry is chosen exactly as often as its weight says. */
  lemma SplitIsFair(splits: seq<Split>, counter: nat)
    requires Total(splits) > 0 && Aligned(Total(splits), counter)
    ensures Fair(splits, counter)
  {
    var total := Total(splits);
    TotalBound(total, counter);
    forall i | 0 <= i < |splits| ensures Chosen(splits, counter, total, i) == splits[i].weight {
      ChosenInCycle(splits, counter, i);
    }
  }

  /** One entry of weight one per point. */
  function Units(n: nat): seq<Split> {
    seq(n, _ => Split("", 1))
  }

  lemma {:induction false} UnitsCumulate(n: nat, k: nat)
    requires k <= n
    ensures Cumulative(Units(n), k) == k
  {
    if k > 0 {
      UnitsCumulate(n, k - 1);
    }
  }

  lemma {:induction false} NeverHit(total: nat, counter: nat, n: nat, point: nat)
    requires total > U32 && point >= U32
    ensures Hits(total, counter, n, point) == 0
  {
    if n > 0 {
      NeverHit(total, counter, n - 1, point);
      Small((counter + n - 1) % U32, total);
    }
  }

  /** In a cycle that is not aligned, some point is not hit at all. */
  lemma UnalignedMisses(total: nat, counter: nat) returns (p: nat)
    requires 0 < total && !Aligned(total, counter)
    ensures p < total && Hits(total, counter, total, p) == 0
  {
    if total > U32 {
      p := total - 1;
      NeverHit(total, counter, total, p);
    } else {
      var r, m := U32 % total, Overrun(total, counter);
      p := if r >= m then r else m;
      HitsInCycle(total, counter, p);
    }
  }

  /**
   Every split of this total is fair in this cycle if and only if the cycle is
   aligned: it does not run past a multiple of 2^32, or the total divides 2^32.
   */
  lemma AllFairIffAligned(total: nat, counter: nat)
    requires total > 0
    ensures (forall splits | Total(splits) == total :: Fair(splits, counter)) <==> Aligned(total, counter)
  {
    if Aligned(total, counter) {
      forall splits | Total(splits) == total ensures Fair(splits, counter) {
        SplitIsFair(splits, counter);
      }
    } else {
      var p := UnalignedMisses(total, counter);
      UnitsCumulate(total, total);
      UnitsCumulate(total, p);
      UnitsCumulate(total, p + 1);
      var splits := Units(total);
      ChosenIsHits(splits, counter, total, p);
      assert Chosen(splits, counter, total, p) == 0 != splits[p].weight;
    }
  }

  /** Three equal shares, as the 32-bit counter turns over: the first is chosen twice and the last not at all. */
  lemma TurnoverIsUnfair()
    ensures var splits := [Split("a", 1), Split("b", 1), Split("c", 1)];
            && Total(splits) == 3 && !Aligned(3, U32 - 1)
            && Chosen(splits, U32 - 1, 3, 0) == 2 && Chosen(splits, U32 - 1, 3, 2) == 0
  {
    var splits := [Split("a", 1), Split("b", 1), Split("c", 1)];
    assert Cumulative(splits, 1) == 1 && Cumulative(splits, 2) == 2 && Cumulative(splits, 3) == 3;
    ChosenInCycle(splits, U32 - 1, 0);
    ChosenInCycle(splits, U32 - 1, 2);
  }

  /** A cycle that is not aligned may still be fair to one split: here all three points are one share. */
  lemma TurnoverMayBeFair()
    ensures Total([Split("a", 3)]) == 3 && Fair([Split("a", 3)], U32 - 1)
  {
    var splits := [Split("a", 3)];
    assert Cumulative(splits, 1) == 3;
    ChosenInCycle(splits, U32 - 1, 0);
  }
}
