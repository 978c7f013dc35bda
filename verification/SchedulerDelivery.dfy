/**
 That the scheduler delivers: what is due is handed out as far as the limit
 goes, a recurring schedule comes back in its next slot until its limit is used
 up, and none is retired before that.
 */
module SchedulerDelivery {
  import opened Wrappers
  import opened Scheduler

  // -------------------------------------------------------------------------
  // Times
  // -------------------------------------------------------------------------

  /** An hour has sixty minutes, a day twenty-four hours, a week seven days and a month thirty. */
  lemma PeriodsAre()
    ensures Period(Minutely) == 60 && Period(Hourly) == 60 * Period(Minutely) && Period(Daily) == 24 * Period(Hourly)
    ensures Period(Weekly) == 7 * Period(Daily) && Period(Monthly) == 30 * Period(Daily)
  {}

  // -------------------------------------------------------------------------
  // What is due is handed out
  // -------------------------------------------------------------------------

  /** A waiting message whose time has come is handed out, unless as many as the limit allows are. */
  lemma {:induction false} DueIsHandedOut(order: seq<Scheduled>, limit: nat, now: int, m: Scheduled)
    requires m in order && m.status == Pending && m.scheduledAt <= now
    ensures var p := TakeDue(order, limit, now);
            |p.due| <= limit && (m.(status := Delivering) in p.due || |p.due| == limit)
  {
    var rest, last := order[..|order| - 1], order[|order| - 1];
    var p := TakeDue(rest, limit, now);
    DueWithin(order, limit, now);
    if m in rest {
      DueIsHandedOut(rest, limit, now, m);
      DueWithin(rest, limit, now);
    } else {
      assert m == last by {
        assert order == rest + [last];
      }
      DueWithin(rest, limit, now);
      if |p.due| < limit {
        assert TakeDue(order, limit, now).due[|p.due|] == m.(status := Delivering);
      }
    }
  }

  lemma DueAreHandedOut(queue: seq<Scheduled>, order: seq<Scheduled>, limit: nat, now: int)
    requires multiset(order) == multiset(queue)
    ensures forall m | m in queue && m.status == Pending && m.scheduledAt <= now ::
              m.(status := Delivering) in TakeDue(order, limit, now).due || |TakeDue(order, limit, now).due| == limit
  {
    forall m | m in queue && m.status == Pending && m.scheduledAt <= now
      ensures m.(status := Delivering) in TakeDue(order, limit, now).due || |TakeDue(order, limit, now).due| == limit
    {
      assert m in multiset(queue);
      DueIsHandedOut(order, limit, now, m);
    }
  }

  lemma {:induction false} DueWithin(order: seq<Scheduled>, limit: nat, now: int)
    ensures |TakeDue(order, limit, now).due| <= limit
  {
    if order != [] {
      DueWithin(order[..|order| - 1], limit, now);
    }
  }

  // -------------------------------------------------------------------------
  // Marking a delivery
  // -------------------------------------------------------------------------

  /** Each message retired by marking counts as delivered for good. */
  lemma {:induction false} MarkCounts(order: seq<Scheduled>, byEsme: map<string, seq<string>>, marked: string)
    requires |Held(order, marked)| <= 1
    ensures MarkAll(order, byEsme, marked).delivered == if Completes(Held(order, marked)) then 1 else 0
  {
    if order != [] {
      var rest, m := order[..|order| - 1], order[|order| - 1];
      assert Held(order, marked) == Held(rest, marked) + if m.id == marked then [m] else [];
      MarkCounts(rest, byEsme, marked);
    }
  }

  /** The schedule after its n-th hand-out was marked: in its next slot, or gone. */
  predicate ComesBack(o: Scheduled, n: nat) {
    o.recurrence.Some? && (o.maxDeliveries == 0 || n < o.maxDeliveries)
  }

  function InSlot(o: Scheduled, n: nat): Scheduled {
    o.(scheduledAt := Slot(o, n), deliveryCount := n, status := Pending)
  }

  lemma MarkedComesBack(seen: Seen, held: seq<Scheduled>, id: string)
    requires Good(seen, held, id) && |held| == 1 && held[0].status == Delivering
    ensures seen.origin.Some? && seen.handed > 0
    ensures AfterMark(held) == if ComesBack(seen.origin.value, seen.handed) then [InSlot(seen.origin.value, seen.handed)] else []
    ensures Completes(held) <==> !ComesBack(seen.origin.value, seen.handed)
  {}

  /**
   In every run, marking a schedule that is being delivered, for the n-th time,
   puts it back waiting for its n-th slot if and only if it recurs and its limit
   is not used up; otherwise it is no longer queued and counts as delivered for
   good. No other schedule changes.
   */
  lemma MarkingReturnsOrRetires(c: Config, run: seq<Action>, s: State, order: seq<Scheduled>, m: Scheduled)
    requires Reaches(c, Init, run, s) && multiset(order) == multiset(s.queue)
    requires m in s.queue && m.status == Delivering
    ensures Origin(s.log, m.id).Some?
    ensures var o, n := Origin(s.log, m.id).value, HandedOut(s.log, m.id);
            var s' := Apply(c, s, MarkDelivered(order, m.id));
            && (forall x: Scheduled | x.id == m.id :: x in s'.queue <==> ComesBack(o, n) && x == InSlot(o, n))
            && (forall x: Scheduled | x.id != m.id :: x in s'.queue <==> x in s.queue)
            && s'.totalDelivered == s.totalDelivered + if ComesBack(o, n) then 0 else 1
  {
    RunKeepsInv(c, Init, run, s);
    var s' := Apply(c, s, MarkDelivered(order, m.id));
    TheHeld(c, s, m);
    HeldPermuted(s.queue, order, m.id);
    HeldMark(order, s.byEsme, m.id, m.id);
    MarkCounts(order, s.byEsme, m.id);
    MarkedComesBack(See(s.log, m.id), Held(s.queue, m.id), m.id);
    forall x: Scheduled | x.id == m.id ensures x in s'.queue <==> x in AfterMark([m]) {
      HeldContains(s'.queue, m.id, x);
    }
    forall x: Scheduled | x.id != m.id ensures x in s'.queue <==> x in s.queue {
      OthersKept(c, s, order, m.id, x);
    }
  }

  /** A queued message is the one held under its id. */
  lemma TheHeld(c: Config, s: State, m: Scheduled)
    requires Scheduler.Inv(c, s) && m in s.queue
    ensures Held(s.queue, m.id) == [m] && Good(See(s.log, m.id), [m], m.id)
  {
    assert GoodFor(s, "", m.id);
    HeldContains(s.queue, m.id, m);
    assert m in Held(s.queue, m.id);
  }

  lemma OthersKept(c: Config, s: State, order: seq<Scheduled>, marked: string, x: Scheduled)
    requires Scheduler.Inv(c, s) && multiset(order) == multiset(s.queue) && x.id != marked
    ensures x in Apply(c, s, MarkDelivered(order, marked)).queue <==> x in s.queue
  {
    Unique(c, s, x.id);
    HeldPermuted(s.queue, order, x.id);
    HeldMark(order, s.byEsme, marked, x.id);
    HeldContains(s.queue, x.id, x);
    HeldContains(MarkAll(order, s.byEsme, marked).queue, x.id, x);
  }

  /**
   In every run, an accepted schedule that is no longer queued and was not
   cancelled has been handed out exactly as often as it may be: a one-shot once,
   a recurring one with limit m exactly m times. One without limit stays queued.
   */
  lemma RetiredOnlyWhenUsedUp(c: Config, run: seq<Action>, s: State, id: string)
    requires Reaches(c, Init, run, s)
    requires Origin(s.log, id).Some? && !WasCancelled(s.log, id) && !exists m :: m in s.queue && m.id == id
    ensures var o := Origin(s.log, id).value;
            if o.recurrence.None? then HandedOut(s.log, id) == 1
            else o.maxDeliveries > 0 && HandedOut(s.log, id) == o.maxDeliveries
  {
    RunKeepsInv(c, Init, run, s);
    assert GoodFor(s, "", id);
    HeldExists(s.queue, id);
  }

  // -------------------------------------------------------------------------
  // Nothing stands in the way of the last delivery
  // -------------------------------------------------------------------------

  /** Hands out all that has come by the time the message is due, and marks it delivered if it is being delivered. */
  function NextTurn(s: State, m: Scheduled): Action {
    if m.status == Delivering then MarkDelivered(s.queue, m.id) else GetDue(s.queue, |s.queue| + 1, m.scheduledAt)
  }

  lemma {:induction false} ReachesNext(c: Config, s: State, run: seq<Action>, m: State, a: Action)
    requires Reaches(c, s, run, m) && Enabled(m, a)
    ensures Reaches(c, s, run + [a], Apply(c, m, a))
    decreases |run|
  {
    if run == [] {
      assert (run + [a])[1..] == [];
    } else {
      ReachesNext(c, Apply(c, s, run[0]), run[1..], m, a);
      assert (run + [a])[0] == run[0] && (run + [a])[1..] == run[1..] + [a];
    }
  }

  /** With a limit past the queue's length, a waiting message is handed out when its time comes. */
  lemma WaitingIsTaken(queue: seq<Scheduled>, m: Scheduled)
    requires m in queue && m.status == Pending && Held(queue, m.id) == [m]
    ensures var p := TakeDue(queue, |queue| + 1, m.scheduledAt);
            Held(p.due, m.id) == [m.(status := Delivering)] && m.(status := Delivering) in p.queue
  {
    var limit := |queue| + 1;
    var p := TakeDue(queue, limit, m.scheduledAt);
    DueIsHandedOut(queue, limit, m.scheduledAt, m);
    DueIsShort(queue, limit, m.scheduledAt);
    HeldDue(queue, limit, m.scheduledAt, m.id);
    HeldContains(p.due, m.id, m.(status := Delivering));
    HeldContains(p.queue, m.id, m.(status := Delivering));
  }

  lemma HandedOnce(log: seq<Entry>, due: seq<Scheduled>, id: string)
    requires |Held(due, id)| == 1
    ensures See(log + [Handed(due)], id) == See(log, id).(handed := HandedOut(log, id) + 1)
  {
    LogPush(log, Handed(due), id);
  }

  /** The waiting message is handed out: it is now being delivered. */
  lemma WaitingIsHandedOut(c: Config, run: seq<Action>, s: State, m: Scheduled)
    requires Reaches(c, Init, run, s) && m in s.queue && m.status == Pending
    ensures var s' := Apply(c, s, NextTurn(s, m));
            && m.(status := Delivering) in s'.queue
            && See(s'.log, m.id) == See(s.log, m.id).(handed := HandedOut(s.log, m.id) + 1)
  {
    HeldAt(c, run, s, m);
    WaitingIsTaken(s.queue, m);
    HandedOnce(s.log, TakeDue(s.queue, |s.queue| + 1, m.scheduledAt).due, m.id);
  }

  lemma HeldAt(c: Config, run: seq<Action>, s: State, m: Scheduled)
    requires Reaches(c, Init, run, s) && m in s.queue
    ensures Held(s.queue, m.id) == [m]
  {
    RunKeepsInv(c, Init, run, s);
    TheHeld(c, s, m);
  }

  lemma {:induction false} DueIsShort(order: seq<Scheduled>, limit: nat, now: int)
    ensures |TakeDue(order, limit, now).due| <= |order|
  {
    if order != [] {
      DueIsShort(order[..|order| - 1], limit, now);
    }
  }

  /** Handing out, or marking this schedule. */
  predicate IsTurn(a: Action, id: string) {
    a.GetDue? || (a.MarkDelivered? && a.id == id)
  }

  /** The run goes on by such turns alone until the schedule, handed out this often, is no longer queued. */
  ghost predicate Served(c: Config, run: seq<Action>, all: seq<Action>, end: State, id: string, times: nat) {
    && Reaches(c, Init, all, end) && run <= all
    && (forall i | |run| <= i < |all| :: IsTurn(all[i], id))
    && HandedOut(end.log, id) == times
    && forall x | x in end.queue :: x.id != id
  }

  lemma ServedSooner(c: Config, run: seq<Action>, a: Action, all: seq<Action>, end: State, id: string, times: nat)
    requires Served(c, run + [a], all, end, id, times) && IsTurn(a, id)
    ensures Served(c, run, all, end, id, times)
  {
    assert all[|run|] == (run + [a])[|run|];
  }

  /**
   From every reachable state, a queued schedule with a limit can be handed out
   until it is used up, by nothing but handing out and marking: then it has been
   handed out exactly as often as it may be.
   */
  lemma {:induction false} ServedToTheEnd(c: Config, run: seq<Action>, s: State, m: Scheduled, o: Scheduled, times: nat)
    returns (all: seq<Action>, end: State)
    requires Reaches(c, Init, run, s) && m in s.queue
    requires Origin(s.log, m.id) == Some(o) && o.Limit() == Some(times)
    ensures Served(c, run, all, end, m.id, times)
    decreases times + 1 - m.deliveryCount, m.status == Pending
  {
    RunKeepsInv(c, Init, run, s);
    TheHeld(c, s, m);
    var a := NextTurn(s, m);
    var s' := Apply(c, s, a);
    ReachesNext(c, Init, run, s, a);
    if m.status == Pending {
      WaitingIsHandedOut(c, run, s, m);
      all, end := ServedToTheEnd(c, run + [a], s', m.(status := Delivering), o, times);
      ServedSooner(c, run, a, all, end, m.id, times);
    } else {
      MarkedTurn(c, run, s, m);
      var n := HandedOut(s.log, m.id);
      if ComesBack(o, n) {
        all, end := ServedToTheEnd(c, run + [a], s', InSlot(o, n), o, times);
        ServedSooner(c, run, a, all, end, m.id, times);
      } else {
        all, end := run + [a], s';
      }
    }
  }

  /** Marked, a message comes back in its next slot, or has been handed out as often as it may be. */
  lemma MarkedTurn(c: Config, run: seq<Action>, s: State, m: Scheduled)
    requires Reaches(c, Init, run, s) && m in s.queue && m.status == Delivering
    ensures Origin(s.log, m.id).Some?
    ensures var o, n := Origin(s.log, m.id).value, HandedOut(s.log, m.id);
            var s' := Apply(c, s, NextTurn(s, m));
            && n == m.deliveryCount + 1
            && Origin(s'.log, m.id) == Some(o) && HandedOut(s'.log, m.id) == n
            && if ComesBack(o, n) then InSlot(o, n) in s'.queue && InSlot(o, n).id == m.id
               else o.Limit() == Some(n) && forall x | x in s'.queue :: x.id != m.id
  {
    RunKeepsInv(c, Init, run, s);
    TheHeld(c, s, m);
    MarkingReturnsOrRetires(c, run, s, s.queue, m);
    LogPush(s.log, Marked(m.id), m.id);
    var o, n := Origin(s.log, m.id).value, HandedOut(s.log, m.id);
    if ComesBack(o, n) {
      assert InSlot(o, n).id == m.id;
    } else {
      UsedUp(o, n, See(s.log, m.id), m);
    }
  }

  lemma UsedUp(o: Scheduled, n: nat, seen: Seen, m: Scheduled)
    requires Good(seen, [m], m.id) && m.status == Delivering && seen.origin == Some(o) && seen.handed == n
    requires !ComesBack(o, n)
    ensures o.Limit() == Some(n)
  {}
}
