/**
 Latency statistics per target, as the two storage backends keep them
 (src/store/memory.rs, src/store/persistent.rs): an exponential moving average
 in both; a sum in memory and a running average, rounded down each time, on disk.
 */
module Feedback {
  import opened Arithmetic

  datatype Outcome = Outcome(success: bool, latency: nat)

  /** One update of the moving average; an average of zero starts over. */
  function Ema(ema: nat, latency: nat): nat {
    if ema == 0 then latency else (latency * 2 + ema * 8) / 10
  }

  /** One update of the average kept on disk; `total` counts this sample. */
  function Average(average: nat, total: nat, latency: nat): nat
    requires total > 0
  {
    NonNegative(average, total - 1);
    Rounding(average * (total - 1) + latency, total);
    (average * (total - 1) + latency) / total
  }

  function EmaOf(os: seq<Outcome>): nat {
    if os == [] then 0 else Ema(EmaOf(os[..|os| - 1]), os[|os| - 1].latency)
  }

  function AverageOf(os: seq<Outcome>): nat {
    if os == [] then 0 else Average(AverageOf(os[..|os| - 1]), |os|, os[|os| - 1].latency)
  }

  function Sum(os: seq<Outcome>): nat {
    if os == [] then 0 else Sum(os[..|os| - 1]) + os[|os| - 1].latency
  }

  function Successes(os: seq<Outcome>): nat {
    if os == [] then 0 else Successes(os[..|os| - 1]) + if os[|os| - 1].success then 1 else 0
  }

  class MemoryStats {
    var total: nat
    var successes: nat
    var failures: nat
    var sumLatency: nat
    var emaLatency: nat
    ghost var outcomes: seq<Outcome>

    constructor ()
      ensures Valid() && outcomes == []
    {
      total, successes, failures, sumLatency, emaLatency := 0, 0, 0, 0, 0;
      outcomes := [];
    }

    ghost predicate Valid()
      reads this
    {
      && total == |outcomes| && successes == Successes(outcomes) && successes + failures == total
      && sumLatency == Sum(outcomes) && emaLatency == EmaOf(outcomes)
    }

    method RecordOutcome(o: Outcome)
      requires Valid()
      modifies this
      ensures Valid() && outcomes == old(outcomes) + [o]
    {
      total := total + 1;
      if o.success {
        successes := successes + 1;
      } else {
        failures := failures + 1;
      }
      sumLatency := sumLatency + o.latency;
      if emaLatency == 0 {
        emaLatency := o.latency;
      } else {
        emaLatency := (o.latency * 2 + emaLatency * 8) / 10;
      }
      ghost var before := outcomes;
      outcomes := outcomes + [o];
      assert outcomes[..|before|] == before;
    }

    /** The average reported by `target_stats`. */
    method AverageLatency() returns (a: nat)
      requires Valid()
      ensures a == MemoryAverage(outcomes)
    {
      a := if total > 0 then sumLatency / total else 0;
    }
  }

  class PersistentStats {
    var total: nat
    var successes: nat
    var failures: nat
    var averageLatency: nat
    var emaLatency: nat
    ghost var outcomes: seq<Outcome>

    constructor ()
      ensures Valid() && outcomes == []
    {
      total, successes, failures, averageLatency, emaLatency := 0, 0, 0, 0, 0;
      outcomes := [];
    }

    ghost predicate Valid()
      reads this
    {
      && total == |outcomes| && successes == Successes(outcomes) && successes + failures == total
      && averageLatency == AverageOf(outcomes) && emaLatency == EmaOf(outcomes)
    }

    method RecordOutcome(o: Outcome)
      requires Valid()
      modifies this
      ensures Valid() && outcomes == old(outcomes) + [o]
    {
      total := total + 1;
      if o.success {
        successes := successes + 1;
      } else {
        failures := failures + 1;
      }
      if emaLatency == 0 {
        emaLatency := o.latency;
      } else {
        emaLatency := (o.latency * 2 + emaLatency * 8) / 10;
      }
      averageLatency := Average(averageLatency, total, o.latency);
      ghost var before := outcomes;
      outcomes := outcomes + [o];
      assert outcomes[..|before|] == before;
    }
  }

  /**
   Fed the same outcomes, both backends report the same counts and the same
   moving average; their plain averages differ by less than half the samples.
   */
  method BackendsAgree(os: seq<Outcome>) returns (memory: MemoryStats, disk: PersistentStats, average: nat)
    ensures memory.Valid() && disk.Valid() && memory.outcomes == disk.outcomes == os
    ensures memory.emaLatency == disk.emaLatency && memory.total == disk.total
    ensures memory.successes == disk.successes && memory.failures == disk.failures
    ensures os != [] ==> disk.averageLatency <= average <= disk.averageLatency + (|os| - 1) / 2
  {
    memory := new MemoryStats();
    disk := new PersistentStats();
    for i := 0 to |os|
      invariant memory.Valid() && disk.Valid() && fresh(memory) && fresh(disk)
      invariant memory.outcomes == disk.outcomes == os[..i]
    {
      memory.RecordOutcome(os[i]);
      disk.RecordOutcome(os[i]);
    }
    assert os[..|os|] == os;
    average := memory.AverageLatency();
    if os != [] {
      AverageGap(os);
    }
  }

  /** The exact average, rounded down once. */
  function MemoryAverage(os: seq<Outcome>): nat {
    if |os| > 0 then Sum(os) / |os| else 0
  }

  // -------------------------------------------------------------------------
  // The moving average
  // -------------------------------------------------------------------------

  predicate Within(os: seq<Outcome>, lo: nat, hi: nat) {
    forall i | 0 <= i < |os| :: lo <= os[i].latency <= hi
  }

  /** The moving average never leaves the range of the samples. */
  lemma {:induction false} EmaStaysInRange(os: seq<Outcome>, lo: nat, hi: nat)
    requires os != [] && Within(os, lo, hi)
    ensures lo <= EmaOf(os) <= hi
  {
    var rest, x := os[..|os| - 1], os[|os| - 1].latency;
    if rest != [] {
      EmaStaysInRange(rest, lo, hi);
    }
  }

  // -------------------------------------------------------------------------
  // The running average
  // -------------------------------------------------------------------------

  /** 0 + 1 + ... + (n - 1). */
  function Triangle(n: nat): nat {
    if n == 0 then 0 else Triangle(n - 1) + (n - 1)
  }

  lemma {:induction false} TriangleIs(n: nat)
    ensures 2 * Triangle(n) == n * (n - 1)
  {
    if n > 0 {
      TriangleIs(n - 1);
      assert n * (n - 1) == (n - 1) * (n - 2) + 2 * (n - 1);
    }
  }

  lemma AverageStep(average: nat, n: nat, x: nat)
    requires n > 0
    ensures Average(average, n, x) * n <= average * (n - 1) + x <= Average(average, n, x) * n + (n - 1)
  {
    NonNegative(average, n - 1);
    Rounding(average * (n - 1) + x, n);
  }

  /** Each update loses less than one unit per sample so far: n * a <= S <= n * a + n * (n - 1) / 2. */
  lemma {:induction false} AverageLosesLittle(os: seq<Outcome>)
    ensures AverageOf(os) * |os| <= Sum(os) <= AverageOf(os) * |os| + Triangle(|os|)
  {
    if os != [] {
      var n := |os|;
      AverageLosesLittle(os[..n - 1]);
      AverageStep(AverageOf(os[..n - 1]), n, os[n - 1].latency);
    }
  }

  /** So the average on disk is at most the exact one, and behind it by at most half the number of samples. */
  lemma AverageGap(os: seq<Outcome>)
    requires os != []
    ensures AverageOf(os) <= MemoryAverage(os) <= AverageOf(os) + (|os| - 1) / 2
  {
    var n, a, s := |os|, AverageOf(os), Sum(os);
    AverageLosesLittle(os);
    Rounding(s, n);
    GapOf(n, a, s, s / n);
  }

  lemma GapOf(n: nat, a: nat, s: nat, m: nat)
    requires n > 0 && a * n <= s <= a * n + Triangle(n) && m * n <= s < m * n + n
    ensures a <= m <= a + (n - 1) / 2
  {
    var k := (n - 1) / 2;
    NotBelow(n, a, s, m);
    HalfSteps(n, k);
    Distributes(a, k, n);
    NotBelow(n, m, m * n, a + k);
  }

  lemma Distributes(a: nat, k: nat, n: nat)
    ensures (a + k) * n == a * n + k * n
  {}

  lemma NotBelow(n: nat, a: nat, s: int, m: nat)
    requires n > 0 && a * n <= s && s < m * n + n
    ensures a <= m
  {
    if m < a {
      Apart(m, a, n);
    }
  }

  lemma HalfSteps(n: nat, k: nat)
    requires n > 0 && k == (n - 1) / 2
    ensures k * n + n > Triangle(n)
  {
    TriangleIs(n);
    assert 2 * k + 2 >= n;
    Apart(n - 1, 2 * k + 2, n);
    assert 2 * (k * n + n) == (2 * k + 2) * n;
    assert (n - 1) * n == n * (n - 1);
  }

  /** The bound is reached for every number of samples. */
  lemma {:induction false} AverageBoundIsReached(n: nat) returns (os: seq<Outcome>)
    ensures |os| == n && Sum(os) == AverageOf(os) * n + Triangle(n)
  {
    if n == 0 {
      return [];
    }
    var rest := AverageBoundIsReached(n - 1);
    var x, q := WorstSample(AverageOf(rest), n);
    os := rest + [Outcome(true, x)];
    assert os[..n - 1] == rest;
  }

  /** The sample whose remainder is as large as can be. */
  lemma WorstSample(a: nat, n: nat) returns (x: nat, q: nat)
    requires n > 0
    ensures Average(a, n, x) == q && a * (n - 1) + x == q * n + (n - 1)
  {
    NonNegative(a, n - 1);
    var y := a * (n - 1);
    Rounding(y, n);
    q := y / n;
    x := q * n + (n - 1) - y;
    QuotientIs(y + x, n, q, n - 1);
  }

  // -------------------------------------------------------------------------
  // How fast the moving average follows
  // -------------------------------------------------------------------------

  /** Each sample pulls the moving average a fifth of the way towards itself, rounded down; from zero, all the way. */
  lemma SampleWeighsOneFifth(os: seq<Outcome>, o: Outcome)
    ensures var before, after := EmaOf(os), EmaOf(os + [o]);
            if before == 0 then after == o.latency
            else 5 * after <= 4 * before + o.latency < 5 * after + 5
  {
    assert (os + [o])[..|os|] == os;
  }
}
