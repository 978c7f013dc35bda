/**
 The firewall's rate conditions over a whole run of checks against one table
 entry. The table is keyed by rate key and value alone, so all the conditions on
 one rate key share the entry, each bringing its own window and threshold.
 */
module FirewallRates {
  import opened Wrappers
  import opened Firewall

  datatype RateCondition = RateCondition(window: nat, threshold: nat)

  datatype RateCheck = RateCheck(time: nat, condition: RateCondition)

  /** The table entry after these checks. */
  function EntryAfter(checks: seq<RateCheck>): Option<RateState> {
    if checks == [] then None
    else
      var last := checks[|checks| - 1];
      Some(Count(EntryAfter(checks[..|checks| - 1]), last.condition.window, last.time))
  }

  /** Whether the last check stayed within its condition's threshold. */
  predicate Within(checks: seq<RateCheck>)
    requires checks != []
  {
    EntryAfter(checks).value.count <= checks[|checks| - 1].condition.threshold
  }

  /** Checks by one condition, at or after `from`, that stayed within its threshold. */
  function Admitted(checks: seq<RateCheck>, who: RateCondition, from: nat): nat {
    if checks == [] then 0
    else
      var last := checks[|checks| - 1];
      Admitted(checks[..|checks| - 1], who, from) +
      if last.condition == who && last.time >= from && Within(checks) then 1 else 0
  }

  predicate Monotone(checks: seq<RateCheck>) {
    forall i, j | 0 <= i < j < |checks| :: checks[i].time <= checks[j].time
  }

  predicate DrawnFrom(checks: seq<RateCheck>, conditions: set<RateCondition>) {
    forall i | 0 <= i < |checks| :: checks[i].condition in conditions
  }

  /** All the checks happen before a stretch of time as long as the window is over. */
  predicate EndsBy(checks: seq<RateCheck>, from: nat, window: nat) {
    forall i | 0 <= i < |checks| :: checks[i].time < from + window
  }

  function Min(a: nat, b: nat): nat {
    if a <= b then a else b
  }

  /** One less, if there is one. */
  function Less(a: nat): nat {
    if a == 0 then 0 else a - 1
  }

  // -------------------------------------------------------------------------
  // When the bound holds
  // -------------------------------------------------------------------------

  /**
   A condition that cannot start the shared window anew too early for `who`: its
   own window is no shorter. With a threshold of two, one tick shorter will do.
   */
  predicate Harmless(c: RateCondition, who: RateCondition) {
    c.window >= who.window || (who.threshold == 2 && c.window >= 1 && c.window + 1 >= who.window)
  }

  /** Something to be read off the configured conditions on one rate key. */
  predicate Protected(conditions: set<RateCondition>, who: RateCondition) {
    who.threshold <= 1 || forall c | c in conditions :: Harmless(c, who)
  }

  /** The most that may be admitted while the entry stands like this. */
  function Allowance(e: RateState, threshold: nat, from: nat): nat {
    if e.windowStart < from then Less(Min(e.count, threshold))
    else if e.windowStart == from then Min(e.count, threshold)
    else Less(threshold) + Min(e.count, threshold)
  }

  /** What holds of the entry and the admissions so far. */
  predicate Accounted(e: RateState, admitted: nat, who: RateCondition, from: nat) {
    && e.count > 0
    && admitted <= Allowance(e, who.threshold, from)
    && (e.windowStart < from && admitted > 0 ==> from < e.windowStart + who.window)
  }

  /** One check more. */
  lemma CheckIsAccounted(e: RateState, admitted: nat, who: RateCondition, from: nat, c: RateCheck)
    requires Accounted(e, admitted, who, from) && e.windowStart <= c.time < from + who.window && Harmless(c.condition, who)
    requires c.time < from ==> admitted == 0
    ensures var e' := Count(Some(e), c.condition.window, c.time);
            var one := if c.condition == who && c.time >= from && e'.count <= who.threshold then 1 else 0;
            Accounted(e', admitted + one, who, from) && e'.windowStart <= c.time
  {}

  lemma {:induction false} RunIsAccounted(checks: seq<RateCheck>, who: RateCondition, from: nat)
    requires checks != [] && Monotone(checks) && EndsBy(checks, from, who.window)
    requires forall i | 0 <= i < |checks| :: Harmless(checks[i].condition, who)
    ensures var e := EntryAfter(checks).value;
            Accounted(e, Admitted(checks, who, from), who, from) && e.windowStart <= checks[|checks| - 1].time
    ensures checks[|checks| - 1].time < from ==> Admitted(checks, who, from) == 0
  {
    var n := |checks| - 1;
    var before := checks[..n];
    if n == 0 {
      assert Admitted(before, who, from) == 0;
    } else {
      assert before[n - 1].time <= checks[n].time;
      RunIsAccounted(before, who, from);
      CheckIsAccounted(EntryAfter(before).value, Admitted(before, who, from), who, from, checks[n]);
    }
  }

  /** With a threshold of one, only the check that starts a window is admitted, and its own window must be over for the next. */
  lemma {:induction false} AdmittedOnce(checks: seq<RateCheck>, who: RateCondition, from: nat)
    requires checks != [] && Monotone(checks) && EndsBy(checks, from, who.window) && who.threshold <= 1
    ensures Admitted(checks, who, from) <= who.threshold && EntryAfter(checks).value.count > 0
    ensures Admitted(checks, who, from) > 0 ==> from <= EntryAfter(checks).value.windowStart
    ensures EntryAfter(checks).value.windowStart <= checks[|checks| - 1].time
  {
    var n := |checks| - 1;
    var before := checks[..n];
    if n == 0 {
      assert Admitted(before, who, from) == 0;
    } else {
      assert before[n - 1].time <= checks[n].time;
      AdmittedOnce(before, who, from);
    }
  }

  /**
   In any stretch of time shorter than its window, a condition whose rate key it
   shares with harmless conditions only admits fewer than twice its threshold.
   */
  lemma RateIsBounded(checks: seq<RateCheck>, conditions: set<RateCondition>, who: RateCondition, from: nat)
    requires DrawnFrom(checks, conditions) && Protected(conditions, who)
    requires Monotone(checks) && EndsBy(checks, from, who.window)
    ensures Admitted(checks, who, from) <= Less(2 * who.threshold)
  {
    if checks != [] {
      if who.threshold <= 1 {
        AdmittedOnce(checks, who, from);
      } else {
        RunIsAccounted(checks, who, from);
      }
    }
  }

  // -------------------------------------------------------------------------
  // Runs built check by check
  // -------------------------------------------------------------------------

  /** Where a run of checks has got to. */
  ghost predicate Stands(checks: seq<RateCheck>, conditions: set<RateCondition>, who: RateCondition, from: nat,
                         entry: RateState, admitted: nat, now: nat)
  {
    && checks != [] && DrawnFrom(checks, conditions) && Monotone(checks)
    && (forall i | 0 <= i < |checks| :: checks[i].time <= now)
    && EntryAfter(checks) == Some(entry) && Admitted(checks, who, from) == admitted
  }

  lemma FirstCheck(conditions: set<RateCondition>, who: RateCondition, from: nat, c: RateCondition, now: nat)
    requires c in conditions && (c != who || now < from)
    ensures Stands([RateCheck(now, c)], conditions, who, from, RateState(1, now), 0, now)
  {
    assert [RateCheck(now, c)][..0] == [];
  }

  lemma NextCheck(checks: seq<RateCheck>, conditions: set<RateCondition>, who: RateCondition, from: nat,
                  entry: RateState, admitted: nat, now: nat, c: RateCheck)
    requires Stands(checks, conditions, who, from, entry, admitted, now) && c.condition in conditions && c.time >= now
    ensures var e := Count(Some(entry), c.condition.window, c.time);
            var one := if c.condition == who && c.time >= from && e.count <= who.threshold then 1 else 0;
            Stands(checks + [c], conditions, who, from, e, admitted + one, c.time)
  {
    assert (checks + [c])[..|checks|] == checks;
  }

  /** Checks inside a window that has room for them are all admitted. */
  lemma {:induction false} BurstIsAdmitted(checks: seq<RateCheck>, conditions: set<RateCondition>, who: RateCondition,
                                           from: nat, entry: RateState, admitted: nat, now: nat, t: nat, n: nat)
    returns (all: seq<RateCheck>)
    requires Stands(checks, conditions, who, from, entry, admitted, now) && who in conditions
    requires now <= t && from <= t && entry.windowStart <= t < entry.windowStart + who.window
    requires entry.count + n <= who.threshold
    ensures Stands(all, conditions, who, from, entry.(count := entry.count + n), admitted + n, t)
    decreases n
  {
    if n == 0 {
      all := checks;
    } else {
      var more := BurstIsAdmitted(checks, conditions, who, from, entry, admitted, now, t, n - 1);
      NextCheck(more, conditions, who, from, entry.(count := entry.count + n - 1), admitted + n - 1, t, RateCheck(t, who));
      all := more + [RateCheck(t, who)];
    }
  }

  /** The bound is reached for every threshold: a burst at the end of one window, another as the next begins. */
  lemma RateBoundIsReached(conditions: set<RateCondition>, who: RateCondition) returns (checks: seq<RateCheck>)
    requires who in conditions && who.window >= 2 && who.threshold >= 1
    ensures Stands(checks, conditions, who, who.window - 1, RateState(who.threshold, who.window),
                   2 * who.threshold - 1, who.window)
  {
    var w, t := who.window, who.threshold;
    FirstCheck(conditions, who, w - 1, who, 0);
    var late := BurstIsAdmitted([RateCheck(0, who)], conditions, who, w - 1, RateState(1, 0), 0, 0, w - 1, t - 1);
    NextCheck(late, conditions, who, w - 1, RateState(t, 0), t - 1, w - 1, RateCheck(w, who));
    checks := BurstIsAdmitted(late + [RateCheck(w, who)], conditions, who, w - 1, RateState(1, w), t, w, w, t - 1);
  }

  // -------------------------------------------------------------------------
  // When it fails
  // -------------------------------------------------------------------------

  /** A run from these conditions that admits twice the threshold within the window. */
  ghost predicate Breaks(checks: seq<RateCheck>, conditions: set<RateCondition>, who: RateCondition, from: nat) {
    && DrawnFrom(checks, conditions) && Monotone(checks) && EndsBy(checks, from, who.window)
    && Admitted(checks, who, from) >= 2 * who.threshold
  }

  /** Another condition without a window of its own starts over at every check. */
  lemma {:induction false} WindowlessBreaks(conditions: set<RateCondition>, who: RateCondition, d: RateCondition, n: nat)
    returns (checks: seq<RateCheck>)
    requires who in conditions && d in conditions && d.window == 0 && who.window > 0 && who.threshold >= 2 && n > 0
    ensures exists e :: Stands(checks, conditions, who, 0, e, n, 0)
  {
    if n == 1 {
      var first := [RateCheck(0, d)];
      FirstCheck(conditions, who, 0, d, 0);
      NextCheck(first, conditions, who, 0, RateState(1, 0), 0, 0, RateCheck(0, who));
      checks := first + [RateCheck(0, who)];
    } else {
      var before := WindowlessBreaks(conditions, who, d, n - 1);
      var e :| Stands(before, conditions, who, 0, e, n - 1, 0);
      var e1 := Count(Some(e), 0, 0);
      NextCheck(before, conditions, who, 0, e, n - 1, 0, RateCheck(0, d));
      assert e.windowStart == 0 by {
        StartsByNow(before);
      }
      NextCheck(before + [RateCheck(0, d)], conditions, who, 0, e1, n - 1, 0, RateCheck(0, who));
      checks := before + [RateCheck(0, d)] + [RateCheck(0, who)];
    }
  }

  lemma {:induction false} StartsByNow(checks: seq<RateCheck>)
    requires checks != []
    ensures exists i :: 0 <= i < |checks| && EntryAfter(checks).value.windowStart == checks[i].time
  {
    var n := |checks| - 1;
    var before := checks[..n];
    if n > 0 && EntryAfter(checks).value.windowStart != checks[n].time {
      StartsByNow(before);
      var i :| 0 <= i < n && EntryAfter(before).value.windowStart == before[i].time;
      assert checks[i] == before[i];
    } else {
      assert EntryAfter(checks).value.windowStart == checks[n].time;
    }
  }

  /** A window at least two ticks shorter fits one more start into the stretch. */
  lemma ShorterWindowBreaks(conditions: set<RateCondition>, who: RateCondition, d: RateCondition)
    returns (checks: seq<RateCheck>)
    requires who in conditions && d in conditions && 0 < d.window && d.window + 2 <= who.window && who.threshold >= 2
    ensures Breaks(checks, conditions, who, who.window - 1)
  {
    var w, t, v := who.window, who.threshold, d.window;
    var reached := RateBoundIsReached(conditions, who);
    NextCheck(reached, conditions, who, w - 1, RateState(t, w), 2 * t - 1, w, RateCheck(w + v, d));
    checks := BurstIsAdmitted(reached + [RateCheck(w + v, d)], conditions, who, w - 1, RateState(1, w + v), 2 * t - 1,
                              w + v, w + v, 1);
  }

  /** A window one tick shorter starts anew at both ends of the stretch. */
  lemma NextShorterWindowBreaks(conditions: set<RateCondition>, who: RateCondition, d: RateCondition)
    returns (checks: seq<RateCheck>)
    requires who in conditions && d in conditions && 0 < d.window && d.window + 1 == who.window && who.threshold >= 3
    ensures Breaks(checks, conditions, who, d.window)
  {
    var t, v := who.threshold, d.window;
    FirstCheck(conditions, who, v, who, 0);
    var a := BurstIsAdmitted([RateCheck(0, who)], conditions, who, v, RateState(1, 0), 0, 0, v, t - 1);
    NextCheck(a, conditions, who, v, RateState(t, 0), t - 1, v, RateCheck(v, d));
    var b := BurstIsAdmitted(a + [RateCheck(v, d)], conditions, who, v, RateState(1, v), t - 1, v, v, t - 1);
    NextCheck(b, conditions, who, v, RateState(t, v), 2 * (t - 1), v, RateCheck(2 * v, d));
    checks := BurstIsAdmitted(b + [RateCheck(2 * v, d)], conditions, who, v, RateState(1, 2 * v), 2 * (t - 1),
                              2 * v, 2 * v, t - 1);
  }

  lemma UnprotectedBreaks(conditions: set<RateCondition>, who: RateCondition) returns (checks: seq<RateCheck>, from: nat)
    requires who in conditions && !Protected(conditions, who)
    ensures Breaks(checks, conditions, who, from)
  {
    var d :| d in conditions && !Harmless(d, who);
    if d.window == 0 {
      from := 0;
      checks := WindowlessBreaks(conditions, who, d, 2 * who.threshold);
    } else if d.window + 2 <= who.window {
      from := who.window - 1;
      checks := ShorterWindowBreaks(conditions, who, d);
    } else {
      from := d.window;
      checks := NextShorterWindowBreaks(conditions, who, d);
    }
  }

  /** Whatever is checked and whenever, the condition keeps below twice its threshold in any stretch shorter than its window. */
  ghost predicate AlwaysBounded(conditions: set<RateCondition>, who: RateCondition) {
    forall checks, from: nat
      | DrawnFrom(checks, conditions) && Monotone(checks) && EndsBy(checks, from, who.window)
      :: Admitted(checks, who, from) <= Less(2 * who.threshold)
  }

  /**
   A rate condition is always bounded if and only if the conditions it shares its
   rate key with leave its window alone.
   */
  lemma BoundedIffProtected(conditions: set<RateCondition>, who: RateCondition)
    requires who in conditions
    ensures AlwaysBounded(conditions, who) <==> Protected(conditions, who)
  {
    if Protected(conditions, who) {
      forall checks, from: nat
        | DrawnFrom(checks, conditions) && Monotone(checks) && EndsBy(checks, from, who.window)
        ensures Admitted(checks, who, from) <= Less(2 * who.threshold)
      {
        RateIsBounded(checks, conditions, who, from);
      }
    } else {
      var checks, from := UnprotectedBreaks(conditions, who);
      assert Admitted(checks, who, from) > Less(2 * who.threshold);
    }
  }
}
