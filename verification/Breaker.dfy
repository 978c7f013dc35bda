/**
 The circuit breaker (src/cluster/circuit_breaker.rs) over sequential calls and
 a monotone clock. What it does is stated against the history of calls alone.
 */
module Breaker {
  import opened Wrappers

  datatype CircuitState = Closed | Open | HalfOpen

  datatype Config = Config(failureThreshold: nat, successThreshold: nat, openTimeout: nat)

  datatype State = State(state: CircuitState, failures: nat, successes: nat, openedAt: Option<nat>, openCount: nat)

  const Init: State := State(Closed, 0, 0, None, 0)

  datatype Call = Allow(time: nat) | Success(time: nat) | Failure(time: nat)

  predicate ShouldAttemptReset(c: Config, s: State, now: nat) {
    s.openedAt.Some? && now >= s.openedAt.value + c.openTimeout
  }

  predicate Allows(c: Config, s: State, now: nat) {
    !s.state.Open? || ShouldAttemptReset(c, s, now)
  }

  function ToOpen(s: State, now: nat): State {
    s.(state := Open, successes := 0, openedAt := Some(now), openCount := s.openCount + 1)
  }

  function Step(c: Config, s: State, call: Call): State {
    match call
    case Allow(now) =>
      if s.state.Open? && ShouldAttemptReset(c, s, now) then s.(state := HalfOpen, successes := 0) else s
    case Success(_) =>
      (match s.state
       case Closed => s.(failures := 0)
       case HalfOpen =>
         if s.successes + 1 >= c.successThreshold then s.(state := Closed, failures := 0, successes := 0, openedAt := None)
         else s.(successes := s.successes + 1)
       case Open => s)
    case Failure(now) =>
      (match s.state
       case Closed =>
         var s' := s.(failures := s.failures + 1);
         if s'.failures >= c.failureThreshold then ToOpen(s', now) else s'
       case HalfOpen => ToOpen(s, now)
       case Open => s)
  }

  class CircuitBreaker {
    const config: Config
    var state: CircuitState
    var failures: nat
    var successes: nat
    var openedAt: Option<nat>
    var openCount: nat

    constructor (config: Config)
      ensures this.config == config && View() == Init
    {
      this.config := config;
      state, failures, successes, openedAt, openCount := Closed, 0, 0, None, 0;
    }

    function View(): State
      reads this
    {
      State(state, failures, successes, openedAt, openCount)
    }

    method AllowRequest(now: nat) returns (allowed: bool)
      modifies this
      ensures allowed == Allows(config, old(View()), now)
      ensures View() == Step(config, old(View()), Allow(now))
    {
      match state {
        case Closed => return true;
        case HalfOpen => return true;
        case Open =>
          var attempt := openedAt.Some? && now >= openedAt.value + config.openTimeout;
          if attempt {
            TransitionToHalfOpen();
            return true;
          } else {
            return false;
          }
      }
    }

    method RecordSuccess(now: nat)
      modifies this
      ensures View() == Step(config, old(View()), Success(now))
    {
      match state {
        case Closed => failures := 0;
        case HalfOpen =>
          successes := successes + 1;
          if successes >= config.successThreshold {
            TransitionToClosed();
          }
        case Open =>
      }
    }

    method RecordFailure(now: nat)
      modifies this
      ensures View() == Step(config, old(View()), Failure(now))
    {
      match state {
        case Closed =>
          failures := failures + 1;
          if failures >= config.failureThreshold {
            TransitionToOpen(now);
          }
        case HalfOpen => TransitionToOpen(now);
        case Open =>
      }
    }

    method TransitionToClosed()
      modifies this
      ensures View() == if old(state).Closed? then old(View()) else State(Closed, 0, 0, None, old(openCount))
    {
      if !state.Closed? {
        state, failures, successes, openedAt := Closed, 0, 0, None;
      }
    }

    method TransitionToOpen(now: nat)
      modifies this
      ensures View() == if old(state).Open? then old(View())
                        else State(Open, old(failures), 0, Some(now), old(openCount) + 1)
    {
      if !state.Open? {
        state, successes, openedAt, openCount := Open, 0, Some(now), openCount + 1;
      }
    }

    method TransitionToHalfOpen()
      modifies this
      ensures View() == if old(state).Open? then old(View()).(state := HalfOpen, successes := 0) else old(View())
    {
      if state.Open? {
        state, successes := HalfOpen, 0;
      }
    }
  }

  // -------------------------------------------------------------------------
  // Histories
  // -------------------------------------------------------------------------

  function After(c: Config, run: seq<Call>): State {
    if run == [] then Init else Step(c, After(c, run[..|run| - 1]), run[|run| - 1])
  }

  predicate Monotone(run: seq<Call>) {
    forall i, j | 0 <= i < j < |run| :: run[i].time <= run[j].time
  }

  predicate IsOpen(c: Config, run: seq<Call>, n: nat)
    requires n <= |run|
  {
    After(c, run[..n]).state.Open?
  }

  /** The i-th call opens the circuit. */
  predicate Opens(c: Config, run: seq<Call>, i: nat)
    requires i < |run|
  {
    !IsOpen(c, run, i) && IsOpen(c, run, i + 1)
  }

  lemma AfterNext(c: Config, run: seq<Call>, n: nat)
    requires n < |run|
    ensures After(c, run[..n + 1]) == Step(c, After(c, run[..n]), run[n])
  {
    assert run[..n + 1][..n] == run[..n];
  }

  // -------------------------------------------------------------------------
  // Open: no request for the timeout
  // -------------------------------------------------------------------------

  lemma {:induction false} StaysOpen(c: Config, run: seq<Call>, i: nat, j: nat)
    requires Monotone(run) && i < j <= |run| && Opens(c, run, i)
    requires run[j - 1].time < run[i].time + c.openTimeout || j == i + 1
    ensures After(c, run[..j]).state.Open? && After(c, run[..j]).openedAt == Some(run[i].time)
  {
    AfterNext(c, run, j - 1);
    if j == i + 1 {
      AfterNext(c, run, i);
    } else {
      assert run[j - 2].time <= run[j - 1].time;
      StaysOpen(c, run, i, j - 1);
    }
  }

  /** No request is allowed within the timeout of an opening. */
  lemma NothingAllowedWhileOpen(c: Config, run: seq<Call>, i: nat, j: nat)
    requires Monotone(run) && i < j < |run| && Opens(c, run, i)
    requires run[j].time < run[i].time + c.openTimeout
    ensures !Allows(c, After(c, run[..j]), run[j].time)
  {
    assert run[j - 1].time <= run[j].time;
    StaysOpen(c, run, i, j);
  }

  // -------------------------------------------------------------------------
  // Closed: consecutive failures
  // -------------------------------------------------------------------------

  /** Failures since the last success, or since the beginning. */
  function TrailingFailures(run: seq<Call>): nat {
    if run == [] then 0
    else
      var rest, last := run[..|run| - 1], run[|run| - 1];
      match last
      case Allow(_) => TrailingFailures(rest)
      case Success(_) => 0
      case Failure(_) => TrailingFailures(rest) + 1
  }

  function Threshold(t: nat): nat {
    if t == 0 then 1 else t
  }

  /** While closed, the failure count is the current run of failures, and below the threshold. */
  lemma {:induction false} ClosedCountsFailures(c: Config, run: seq<Call>)
    requires After(c, run).state.Closed?
    ensures After(c, run).failures == TrailingFailures(run) < Threshold(c.failureThreshold)
  {
    if run != [] {
      var rest := run[..|run| - 1];
      if After(c, rest).state.Closed? {
        ClosedCountsFailures(c, rest);
      }
    }
  }

  /** A call opens the circuit exactly if it is the failure that completes the run, or any failure on trial. */
  lemma OpensIff(c: Config, run: seq<Call>, i: nat)
    requires i < |run|
    ensures Opens(c, run, i) <==>
            && run[i].Failure?
            && match After(c, run[..i]).state
               case Closed => TrailingFailures(run[..i]) + 1 >= c.failureThreshold
               case HalfOpen => true
               case Open => false
  {
    AfterNext(c, run, i);
    if After(c, run[..i]).state.Closed? {
      ClosedCountsFailures(c, run[..i]);
    }
  }

  // -------------------------------------------------------------------------
  // Half-open: closing needs successes
  // -------------------------------------------------------------------------

  function Successes(run: seq<Call>): nat {
    if run == [] then 0 else Successes(run[..|run| - 1]) + if run[|run| - 1].Success? then 1 else 0
  }

  predicate NoFailure(run: seq<Call>) {
    forall k | 0 <= k < |run| :: !run[k].Failure?
  }

  /** The call that put the circuit on trial came just before position i. */
  predicate TrialFrom(c: Config, run: seq<Call>, i: nat)
    requires i <= |run|
  {
    i > 0 && IsOpen(c, run, i - 1) && run[i - 1].Allow? && After(c, run[..i]).state.HalfOpen?
  }

  lemma TrialGoesOn(c: Config, run: seq<Call>, i: nat)
    requires run != [] && i < |run| && TrialFrom(c, run[..|run| - 1], i)
    ensures TrialFrom(c, run, i)
  {
    var rest := run[..|run| - 1];
    assert run[..i] == rest[..i] && run[..i - 1] == rest[..i - 1];
  }

  lemma LaterCalls(run: seq<Call>, i: nat)
    requires i < |run|
    ensures var rest, last := run[..|run| - 1], run[|run| - 1];
            && Successes(run[i..]) == Successes(rest[i..]) + (if last.Success? then 1 else 0)
            && (NoFailure(run[i..]) <==> NoFailure(rest[i..]) && !last.Failure?)
  {
    var n := |run| - 1;
    assert run[i..][..n - i] == run[..n][i..];
    assert run[i..][n - i] == run[n];
    assert forall k | 0 <= k < n - i :: run[i..][k] == run[..n][i..][k];
  }

  /** While half-open, the success count is that of the calls since the trial began, among which none failed. */
  lemma {:induction false} TrialCountsSuccesses(c: Config, run: seq<Call>) returns (i: nat)
    requires After(c, run).state.HalfOpen?
    ensures i <= |run| && TrialFrom(c, run, i)
    ensures NoFailure(run[i..]) && Successes(run[i..]) == After(c, run).successes < Threshold(c.successThreshold)
  {
    var n := |run| - 1;
    var rest := run[..n];
    if After(c, rest).state.HalfOpen? {
      i := TrialCountsSuccesses(c, rest);
      TrialGoesOn(c, run, i);
      LaterCalls(run, i);
    } else {
      i := |run|;
      assert run[..|run|] == run;
      assert run[i..] == [];
    }
  }

  /** The circuit closes only on the success that completes the threshold since the trial began, with no failure between. */
  lemma ClosingNeedsSuccesses(c: Config, run: seq<Call>, n: nat) returns (i: nat)
    requires n < |run| && !After(c, run[..n]).state.Closed? && After(c, run[..n + 1]).state.Closed?
    ensures i <= n && TrialFrom(c, run, i)
    ensures NoFailure(run[i..n + 1]) && Successes(run[i..n + 1]) == Threshold(c.successThreshold)
  {
    AfterNext(c, run, n);
    var before := run[..n];
    i := TrialCountsSuccesses(c, before);
    assert before[..i] == run[..i] && before[..i - 1] == run[..i - 1];
    assert before[i..] == run[i..n];
    assert run[i..n + 1][..n - i] == run[i..n];
  }

  // -------------------------------------------------------------------------
  // Openings
  // -------------------------------------------------------------------------

  function Openings(c: Config, run: seq<Call>, n: nat): nat
    requires n <= |run|
  {
    if n == 0 then 0 else Openings(c, run, n - 1) + if Opens(c, run, n - 1) then 1 else 0
  }

  lemma CountsOpening(c: Config, s: State, call: Call)
    ensures Step(c, s, call).openCount ==
            s.openCount + if !s.state.Open? && Step(c, s, call).state.Open? then 1 else 0
  {}

  /** `open_count` counts the openings. */
  lemma {:induction false} OpenCountIsExact(c: Config, run: seq<Call>, n: nat)
    requires n <= |run|
    ensures After(c, run[..n]).openCount == Openings(c, run, n)
  {
    if n > 0 {
      OpenCountIsExact(c, run, n - 1);
      AfterNext(c, run, n - 1);
      CountsOpening(c, After(c, run[..n - 1]), run[n - 1]);
    }
  }

  lemma {:induction false} OpenSince(c: Config, run: seq<Call>, n: nat) returns (i: nat)
    requires n <= |run| && IsOpen(c, run, n)
    ensures i < n && Opens(c, run, i) && (forall k: nat | i < k < n :: !Opens(c, run, k))
    ensures After(c, run[..n]).openedAt == Some(run[i].time)
  {
    assert n > 0;
    AfterNext(c, run, n - 1);
    if IsOpen(c, run, n - 1) {
      i := OpenSince(c, run, n - 1);
    } else {
      i := n - 1;
      assert Opens(c, run, i);
    }
  }

  /** An open circuit lets a request through if and only if the timeout since its last opening is over. */
  lemma OpenAllowsIff(c: Config, run: seq<Call>, n: nat, now: nat) returns (i: nat)
    requires n <= |run| && IsOpen(c, run, n)
    ensures i < n && Opens(c, run, i) && (forall k: nat | i < k < n :: !Opens(c, run, k))
    ensures Allows(c, After(c, run[..n]), now) <==> now >= run[i].time + c.openTimeout
  {
    i := OpenSince(c, run, n);
  }

  // -------------------------------------------------------------------------
  // The way back
  // -------------------------------------------------------------------------

  /** The first request after the timeout since the last opening puts the circuit on trial; an earlier one leaves it open. */
  lemma TimeoutPutsOnTrial(c: Config, run: seq<Call>, n: nat) returns (i: nat)
    requires n < |run| && IsOpen(c, run, n) && run[n].Allow?
    ensures i < n && Opens(c, run, i) && (forall k: nat | i < k < n :: !Opens(c, run, k))
    ensures if run[n].time >= run[i].time + c.openTimeout then TrialFrom(c, run, n + 1) else IsOpen(c, run, n + 1)
  {
    i := OpenSince(c, run, n);
    AfterNext(c, run, n);
  }

  /**
   As long as no call fails, a trial goes on until as many succeeded as the
   threshold asks for, and from then on the circuit is closed.
   */
  lemma {:induction false} TrialCloses(c: Config, run: seq<Call>, i: nat)
    requires i <= |run| && TrialFrom(c, run, i) && NoFailure(run[i..])
    ensures var s := After(c, run);
            if Successes(run[i..]) < Threshold(c.successThreshold)
            then s.state.HalfOpen? && s.successes == Successes(run[i..])
            else s.state.Closed? && s.failures == 0
    decreases |run|
  {
    if i == |run| {
      assert run[..i] == run && run[i..] == [];
      AfterNext(c, run, i - 1);
    } else {
      var rest := run[..|run| - 1];
      assert rest[..i] == run[..i] && rest[..i - 1] == run[..i - 1];
      LaterCalls(run, i);
      TrialCloses(c, rest, i);
    }
  }
}
