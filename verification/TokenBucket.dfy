/**
 The token bucket (src/filter/ratelimit.rs) under sequential calls and a
 monotone clock. Times are nanoseconds; a refill is rounded down to whole
 tokens, and the time behind the discarded fraction is forgotten with it.
 */
module TokenBucket {
  const SECOND: nat := 1_000_000_000

  datatype Config = Config(rate: nat, capacity: nat)

  datatype State = State(tokens: nat, lastRefill: nat)

  function Init(c: Config, start: nat): State {
    State(c.capacity, start)
  }

  function Min(a: nat, b: nat): nat {
    if a <= b then a else b
  }

  /** Whole tokens earned since the last refill; none if the clock has not moved. */
  function Earned(c: Config, s: State, now: nat): nat {
    if now <= s.lastRefill then 0 else (now - s.lastRefill) * c.rate / SECOND
  }

  function Refill(c: Config, s: State, now: nat): State {
    if Earned(c, s, now) > 0 then State(Min(s.tokens + Earned(c, s, now), c.capacity), now) else s
  }

  predicate Admits(c: Config, s: State, now: nat) {
    Refill(c, s, now).tokens > 0
  }

  function Acquire(c: Config, s: State, now: nat): State {
    var r := Refill(c, s, now);
    if r.tokens == 0 then r else r.(tokens := r.tokens - 1)
  }

  class Bucket {
    const config: Config
    var tokens: nat
    var lastRefill: nat

    constructor (config: Config, now: nat)
      ensures this.config == config && View() == Init(config, now)
    {
      this.config := config;
      tokens := config.capacity;
      lastRefill := now;
    }

    function View(): State
      reads this
    {
      State(tokens, lastRefill)
    }

    /** Between sequential calls the compare-exchange succeeds at once. */
    method TryAcquire(now: nat) returns (admitted: bool)
      modifies this
      ensures admitted == Admits(config, old(View()), now)
      ensures View() == Acquire(config, old(View()), now)
    {
      var elapsed := if now >= lastRefill then now - lastRefill else 0;
      var newTokens := elapsed * config.rate / SECOND;
      if newTokens > 0 {
        var current := tokens;
        var newTotal := if current + newTokens <= config.capacity then current + newTokens else config.capacity;
        tokens := newTotal;
        lastRefill := now;
      }
      var current := tokens;
      if current == 0 {
        return false;
      }
      tokens := current - 1;
      return true;
    }
  }

  // -------------------------------------------------------------------------
  // Runs
  // -------------------------------------------------------------------------

  /** Calls at these times, on a bucket made at `start`. */
  predicate Run(start: nat, times: seq<nat>) {
    && (forall i | 0 <= i < |times| :: start <= times[i])
    && (forall i, j | 0 <= i < j < |times| :: times[i] <= times[j])
  }

  function After(c: Config, start: nat, times: seq<nat>): State {
    if times == [] then Init(c, start)
    else Acquire(c, After(c, start, times[..|times| - 1]), times[|times| - 1])
  }

  /** Calls admitted at or after `from`. */
  function Admitted(c: Config, start: nat, times: seq<nat>, from: nat): nat {
    if times == [] then 0
    else
      var n := |times| - 1;
      Admitted(c, start, times[..n], from) +
      if times[n] >= from && Admits(c, After(c, start, times[..n]), times[n]) then 1 else 0
  }

  function Last(start: nat, times: seq<nat>): nat {
    if times == [] then start else times[|times| - 1]
  }

  /** A refill earns no more than the rate allows; without one, less than a token is due. */
  lemma EarnedIsRounded(c: Config, s: State, now: nat)
    requires s.lastRefill <= now
    ensures Earned(c, s, now) * SECOND <= (now - s.lastRefill) * c.rate < (Earned(c, s, now) + 1) * SECOND
  {
    var x := (now - s.lastRefill) * c.rate;
    assert x == (x / SECOND) * SECOND + x % SECOND;
  }

  lemma {:induction false} Bounds(c: Config, start: nat, times: seq<nat>)
    requires Run(start, times)
    ensures var s := After(c, start, times);
            s.tokens <= c.capacity && start <= s.lastRefill <= Last(start, times)
  {
    if times != [] {
      var n := |times| - 1;
      Bounds(c, start, times[..n]);
      assert Last(start, times[..n]) <= times[n];
    }
  }

  /** One call after an earlier one: the credit, in nanotokens, never grows by more than the time passed. */
  lemma StepCredit(c: Config, s: State, now: nat, admitted: nat, credit: int)
    requires s.lastRefill <= now && (admitted + s.tokens) * SECOND <= credit + s.lastRefill * c.rate
    ensures var s' := Acquire(c, s, now);
            (admitted + (if Admits(c, s, now) then 1 else 0) + s'.tokens) * SECOND <= credit + s'.lastRefill * c.rate
  {
    EarnedIsRounded(c, s, now);
    assert (now - s.lastRefill) * c.rate == now * c.rate - s.lastRefill * c.rate;
  }

  /** From the start on: tokens given out and tokens left are paid for by the capacity and the time passed. */
  lemma {:induction false} CreditFromStart(c: Config, start: nat, times: seq<nat>)
    requires Run(start, times)
    ensures var s := After(c, start, times);
            (Admitted(c, start, times, start) + s.tokens) * SECOND <=
            c.capacity * SECOND - start * c.rate + s.lastRefill * c.rate
  {
    if times != [] {
      var n := |times| - 1;
      CreditFromStart(c, start, times[..n]);
      Bounds(c, start, times[..n]);
      assert Last(start, times[..n]) <= times[n];
      StepCredit(c, After(c, start, times[..n]), times[n], Admitted(c, start, times[..n], start),
                 c.capacity * SECOND - start * c.rate);
    }
  }

  lemma Scaled(a: nat, b: nat, rate: nat)
    requires a <= b
    ensures a * rate <= b * rate && (b - a) * rate == b * rate - a * rate
  {
    assert (b - a) * rate >= 0;
  }

  /** In the first t seconds, at most capacity + rate * t calls are admitted. */
  lemma AdmittedFromStart(c: Config, start: nat, times: seq<nat>, end: nat)
    requires Run(start, times) && Last(start, times) <= end
    ensures Admitted(c, start, times, start) * SECOND <= c.capacity * SECOND + c.rate * (end - start)
  {
    CreditFromStart(c, start, times);
    Bounds(c, start, times);
    Scaled(After(c, start, times).lastRefill, end, c.rate);
    Scaled(start, end, c.rate);
  }

  /** The first call of a window: what is left is at most the capacity, less than one token short of the clock. */
  lemma FirstCredit(c: Config, s: State, now: nat, from: nat)
    requires s.lastRefill <= now && from <= now && s.tokens <= c.capacity
    ensures var s' := Acquire(c, s, now);
            ((if Admits(c, s, now) then 1 else 0) + s'.tokens) * SECOND <=
            (c.capacity + 1) * SECOND - 1 - from * c.rate + s'.lastRefill * c.rate
  {
    EarnedIsRounded(c, s, now);
    Scaled(s.lastRefill, now, c.rate);
    Scaled(from, now, c.rate);
  }

  lemma {:induction false} CreditFromWindow(c: Config, start: nat, times: seq<nat>, from: nat)
    requires Run(start, times) && times != [] && from <= Last(start, times)
    ensures var s := After(c, start, times);
            (Admitted(c, start, times, from) + s.tokens) * SECOND <=
            (c.capacity + 1) * SECOND - 1 - from * c.rate + s.lastRefill * c.rate
  {
    var n := |times| - 1;
    var before, now := times[..n], times[n];
    Bounds(c, start, before);
    assert Last(start, before) <= now;
    if n > 0 && from <= Last(start, before) {
      CreditFromWindow(c, start, before, from);
      StepCredit(c, After(c, start, before), now, Admitted(c, start, before, from),
                 (c.capacity + 1) * SECOND - 1 - from * c.rate);
    } else {
      NoneBefore(c, start, before, from);
      FirstCredit(c, After(c, start, before), now, from);
    }
  }

  lemma {:induction false} NoneBefore(c: Config, start: nat, times: seq<nat>, from: nat)
    requires Run(start, times) && (times != [] ==> Last(start, times) < from)
    ensures Admitted(c, start, times, from) == 0
  {
    if times != [] {
      var n := |times| - 1;
      assert n > 0 ==> times[n - 1] <= times[n];
      NoneBefore(c, start, times[..n], from);
    }
  }

  /** In any window from a to b, fewer than capacity + rate * (b - a) + 1 calls are admitted. */
  lemma AdmittedInWindow(c: Config, start: nat, times: seq<nat>, a: nat, b: nat)
    requires Run(start, times) && Last(start, times) <= b && a <= b
    ensures Admitted(c, start, times, a) * SECOND < c.capacity * SECOND + c.rate * (b - a) + SECOND
  {
    Scaled(a, b, c.rate);
    if times == [] || Last(start, times) < a {
      NoneBefore(c, start, times, a);
      assert c.rate * (b - a) >= 0;
    } else {
      CreditFromWindow(c, start, times, a);
      Bounds(c, start, times);
      Scaled(After(c, start, times).lastRefill, b, c.rate);
    }
  }

  /** A call is refused only if the bucket can hold nothing, or less than one token was due since the last refill. */
  lemma RefusedOnlyWhenEmpty(c: Config, start: nat, times: seq<nat>, now: nat)
    requires Run(start, times) && Last(start, times) <= now
    requires !Admits(c, After(c, start, times), now)
    ensures c.capacity == 0 ||
            (After(c, start, times).tokens == 0 && c.rate * (now - After(c, start, times).lastRefill) < SECOND)
  {
    var s := After(c, start, times);
    Bounds(c, start, times);
    EarnedIsRounded(c, s, now);
  }

  // -------------------------------------------------------------------------
  // Idle time refills the bucket
  // -------------------------------------------------------------------------

  function Burst(now: nat, n: nat): seq<nat> {
    seq(n, _ => now)
  }

  lemma NextCall(c: Config, start: nat, times: seq<nat>, now: nat, from: nat)
    ensures var s := After(c, start, times);
            && After(c, start, times + [now]) == Acquire(c, s, now)
            && Admitted(c, start, times + [now], from) ==
               Admitted(c, start, times, from) + if now >= from && Admits(c, s, now) then 1 else 0
  {
    assert (times + [now])[..|times|] == times;
  }

  /** Calls at the instant of the last refill are admitted as long as tokens last. */
  lemma {:induction false} BurstIsAdmitted(c: Config, start: nat, times: seq<nat>, now: nat, n: nat, from: nat)
    requires After(c, start, times).lastRefill == now && n <= After(c, start, times).tokens && from <= now
    ensures Admitted(c, start, times + Burst(now, n), from) == Admitted(c, start, times, from) + n
    decreases n
  {
    if n == 0 {
      assert times + Burst(now, n) == times;
    } else {
      NextCall(c, start, times, now, from);
      BurstIsAdmitted(c, start, times + [now], now, n - 1, from);
      assert times + Burst(now, n) == (times + [now]) + Burst(now, n - 1);
    }
  }

  /** After a pause long enough to earn the capacity, that many calls at once are all admitted. */
  lemma PauseRefills(c: Config, start: nat, times: seq<nat>, now: nat)
    requires Run(start, times) && Last(start, times) <= now
    requires c.rate * (now - Last(start, times)) >= c.capacity * SECOND
    ensures Admitted(c, start, times + Burst(now, c.capacity), start) == Admitted(c, start, times, start) + c.capacity
  {
    var s := After(c, start, times);
    Bounds(c, start, times);
    EnoughEarned(c, s, Last(start, times), now);
    if c.capacity == 0 {
      assert times + Burst(now, 0) == times;
    } else {
      assert Refill(c, s, now) == State(c.capacity, now);
      NextCall(c, start, times, now, start);
      BurstIsAdmitted(c, start, times + [now], now, c.capacity - 1, start);
      assert times + Burst(now, c.capacity) == (times + [now]) + Burst(now, c.capacity - 1);
    }
  }

  lemma EnoughEarned(c: Config, s: State, last: nat, now: nat)
    requires s.lastRefill <= last <= now && c.rate * (now - last) >= c.capacity * SECOND
    ensures Earned(c, s, now) >= c.capacity
  {
    EarnedIsRounded(c, s, now);
    Scaled(now - last, now - s.lastRefill, c.rate);
    assert c.rate * (now - last) == (now - last) * c.rate;
  }
}
