/**
 The pipeline under traffic that never stops: sessions go on submitting and the
 rest of the gateway goes on publishing. If each processor and each forwarding
 task keeps getting its turn, every submitted message is answered all the same.
 */
module PipelineTraffic {
  import opened Wrappers
  import opened Events
  import opened Pipeline
  import opened PipelineInvariant
  import opened PipelineLiveness

  // -------------------------------------------------------------------------
  // Who has answered how much
  // -------------------------------------------------------------------------

  /** Answers the filter has published: what it read, less what it passed on or still holds. */
  function FilterAnswers(who: Who, s: State): int
    requires Cursors(s)
  {
    Count(who, Submits, s.bus[..s.filter.cursor]) - Count(who, Accepts, s.bus)
    - Count(who, Accepts, s.filter.outbox) - Count(who, Answers, s.filter.outbox)
  }

  function RouterAnswers(who: Who, s: State): int
    requires Cursors(s)
  {
    Count(who, Accepts, s.bus[..s.router.cursor]) - Count(who, Routes, s.bus)
    - Count(who, Routes, s.router.outbox) - Count(who, Answers, s.router.outbox)
  }

  /** Answers of finished tasks: what the forwarder read, less what is still running. */
  function TaskAnswersOf(who: Who, s: State): int
    requires Cursors(s)
  {
    Count(who, Routes, s.bus[..s.forwarder]) - CountTasks(who, s.tasks)
  }

  lemma CountSplit(who: Who, kind: Kind, bus: seq<Event>, n: nat)
    requires n <= |bus|
    ensures Count(who, kind, bus) == Count(who, kind, bus[..n]) + Count(who, kind, bus[n..])
  {
    CountAppend(who, kind, bus[..n], bus[n..]);
    assert bus[..n] + bus[n..] == bus;
  }

  /** Every answer on the bus is one of these. */
  lemma AnswersSplit(who: Who, s: State)
    requires Cursors(s) && Conserved(who, s)
    ensures Answered(who, s) == FilterAnswers(who, s) + RouterAnswers(who, s) + TaskAnswersOf(who, s)
  {
    CountSplit(who, Submits, s.bus, s.filter.cursor);
    CountSplit(who, Accepts, s.bus, s.router.cursor);
    CountSplit(who, Routes, s.bus, s.forwarder);
  }

  /** No step takes an answer back, unreads an event or unpublishes one. */
  predicate FlowsOn(who: Who, s: State, s': State)
    requires Cursors(s) && Cursors(s')
  {
    && FilterAnswers(who, s) <= FilterAnswers(who, s')
    && RouterAnswers(who, s) <= RouterAnswers(who, s')
    && TaskAnswersOf(who, s) <= TaskAnswersOf(who, s')
  }

  lemma CountEnd(who: Who, kind: Kind, bus: seq<Event>, e: Event)
    ensures Count(who, kind, bus + [e]) == Count(who, kind, bus) + CountIn(who, kind, e)
  {
    CountAppend(who, kind, bus, [e]);
    assert Count(who, kind, [e]) == CountIn(who, kind, e);
  }

  lemma CountHead(who: Who, kind: Kind, es: seq<Event>)
    requires es != []
    ensures Count(who, kind, es) == CountIn(who, kind, es[0]) + Count(who, kind, es[1..])
  {}

  /** One event more on the bus, and nothing else. */
  lemma AppendFlow(who: Who, s: State, e: Event)
    requires Cursors(s)
    ensures var s' := s.(bus := s.bus + [e]);
            && Cursors(s')
            && FilterAnswers(who, s') == FilterAnswers(who, s) - CountIn(who, Accepts, e)
            && RouterAnswers(who, s') == RouterAnswers(who, s) - CountIn(who, Routes, e)
            && TaskAnswersOf(who, s') == TaskAnswersOf(who, s)
  {
    var bus := s.bus + [e];
    assert bus[..s.filter.cursor] == s.bus[..s.filter.cursor];
    assert bus[..s.router.cursor] == s.bus[..s.router.cursor];
    assert bus[..s.forwarder] == s.bus[..s.forwarder];
    CountEnd(who, Accepts, s.bus, e);
    CountEnd(who, Routes, s.bus, e);
  }

  lemma FilterFlows(who: Who, s: State)
    requires Cursors(s) && Outboxes(s) && (s.filter.outbox != [] || s.filter.cursor < |s.bus|)
    ensures Cursors(StepFilter(s)) && FlowsOn(who, s, StepFilter(s))
  {
    if s.filter.outbox != [] {
      var e := s.filter.outbox[0];
      assert e in s.filter.outbox;
      AppendFlow(who, s, e);
      CountHead(who, Accepts, s.filter.outbox);
      CountHead(who, Answers, s.filter.outbox);
    } else {
      CountSnoc(who, Submits, s.bus, s.filter.cursor);
      FilterReactCounts(who, s.bus[s.filter.cursor]);
    }
  }

  lemma RouterReadFlows(who: Who, s: State, route: Option<RouteResult>)
    requires Cursors(s) && s.router.outbox == [] && s.router.cursor < |s.bus|
    ensures Cursors(StepRouter(s, route)) && FlowsOn(who, s, StepRouter(s, route))
  {
    var e := s.bus[s.router.cursor];
    CountSnoc(who, Accepts, s.bus, s.router.cursor);
    if e.MessageAccepted? {
      RouterReactCounts(who, e.envelope, route);
    }
  }

  lemma RouterFlows(who: Who, s: State, route: Option<RouteResult>)
    requires Cursors(s) && Outboxes(s) && (s.router.outbox != [] || s.router.cursor < |s.bus|)
    ensures Cursors(StepRouter(s, route)) && FlowsOn(who, s, StepRouter(s, route))
  {
    if s.router.outbox != [] {
      var e := s.router.outbox[0];
      assert e in s.router.outbox;
      AppendFlow(who, s, e);
      CountHead(who, Routes, s.router.outbox);
      CountHead(who, Answers, s.router.outbox);
    } else {
      RouterReadFlows(who, s, route);
    }
  }

  lemma ForwarderFlows(who: Who, s: State)
    requires Cursors(s) && s.forwarder < |s.bus|
    ensures Cursors(StepForwarder(s)) && FlowsOn(who, s, StepForwarder(s))
  {
    var e := s.bus[s.forwarder];
    CountSnoc(who, Routes, s.bus, s.forwarder);
    if e.MessageRouted? {
      CountTasksAppend(who, s.tasks, [NewTask(e)]);
      assert CountTasks(who, [NewTask(e)]) == Hit(who, KeyOf(e.envelope));
    }
  }

  lemma TaskFlows(who: Who, s: State, i: nat, reply: Reply, canRetry: bool)
    requires Cursors(s) && i < |s.tasks| && TaskShape(s.tasks[i]) && PossibleReply(reply)
    ensures var s' := StepTask(s, i, reply, canRetry); Cursors(s') && FlowsOn(who, s, s')
  {
    var (t', published) := TaskNext(s.tasks[i], reply, canRetry);
    TaskAnswers(who, s.tasks[i], reply, canRetry);
    TaskCount(who, s, i, reply, canRetry);
    if published == [] {
      assert s.bus + published == s.bus;
    } else {
      assert s.bus + published == s.bus + [published[0]];
      AppendFlow(who, s, published[0]);
    }
  }

  lemma GatewayFlows(who: Who, permits: nat, s: State, step: Step)
    requires Cursors(s) && !IsPipeline(step) && Enabled(permits, s, step)
    ensures var s' := Apply(permits, s, step); Cursors(s') && FlowsOn(who, s, s')
  {
    if step.Submit? || step.PublishOther? {
      AppendFlow(who, s, Apply(permits, s, step).bus[|s.bus|]);
    }
  }

  lemma StepFlows(who: Who, permits: nat, s: State, step: Step)
    requires Structural(s) && Enabled(permits, s, step)
    ensures var s' := Apply(permits, s, step); Cursors(s') && FlowsOn(who, s, s')
  {
    if step.FilterStep? {
      FilterFlows(who, s);
    } else if step.RouterStep? {
      RouterFlows(who, s, step.route);
    } else if step.ForwarderStep? {
      ForwarderFlows(who, s);
    } else if step.TaskStep? {
      TaskFlows(who, s, step.index, step.reply, step.canRetry);
    } else if step.ResponderStep? {
      ResponderPlaces(who, s);
    } else {
      GatewayFlows(who, permits, s, step);
    }
  }

  // -------------------------------------------------------------------------
  // Endless runs
  // -------------------------------------------------------------------------

  /** The k-th step leads from the k-th state to the next. */
  ghost predicate RunsAt(permits: nat, f: nat -> State, step: nat -> Step, k: nat) {
    Enabled(permits, f(k), step(k)) && f(k + 1) == Apply(permits, f(k), step(k))
  }

  /** In an endless run any actor may act, sessions and the rest of the gateway included. */
  ghost predicate Runs(permits: nat, f: nat -> State, step: nat -> Step) {
    forall k: nat :: RunsAt(permits, f, step, k)
  }

  lemma StepGrows(permits: nat, s: State, step: Step)
    requires Enabled(permits, s, step)
    ensures s.bus <= Apply(permits, s, step).bus
  {
    if step.TaskStep? {
      var published := TaskNext(s.tasks[step.index], step.reply, step.canRetry).1;
      assert Apply(permits, s, step).bus == s.bus + published;
    }
  }

  /** The bus only grows. */
  lemma {:induction false} BusGrows(permits: nat, f: nat -> State, step: nat -> Step, i: nat, j: nat)
    requires Runs(permits, f, step) && i <= j
    ensures f(i).bus <= f(j).bus
    decreases j - i
  {
    if i < j {
      BusGrows(permits, f, step, i, j - 1);
      assert RunsAt(permits, f, step, j - 1);
      StepGrows(permits, f(j - 1), step(j - 1));
    }
  }

  lemma {:induction false} InvAt(permits: nat, f: nat -> State, step: nat -> Step, i: nat)
    requires Inv(f(0)) && Runs(permits, f, step)
    ensures Inv(f(i))
  {
    if i > 0 {
      InvAt(permits, f, step, i - 1);
      assert RunsAt(permits, f, step, i - 1);
      StepKeepsInv(permits, f(i - 1), step(i - 1));
    }
  }

  ghost predicate Onward(who: Who, s: State, s': State) {
    Cursors(s) && Cursors(s') && FlowsOn(who, s, s')
  }

  lemma StepOnward(who: Who, permits: nat, s: State, step: Step)
    requires Inv(s) && Enabled(permits, s, step)
    ensures Onward(who, s, Apply(permits, s, step))
  {
    StepFlows(who, permits, s, step);
  }

  lemma OnwardTrans(who: Who, s: State, m: State, s': State)
    requires Onward(who, s, m) && Onward(who, m, s')
    ensures Onward(who, s, s')
  {}

  ghost predicate OnwardAt(who: Who, f: nat -> State, i: nat) {
    Onward(who, f(i), f(i)) && Onward(who, f(i), f(i + 1))
  }

  lemma OnwardNow(who: Who, permits: nat, f: nat -> State, step: nat -> Step, i: nat)
    requires Inv(f(0)) && Runs(permits, f, step)
    ensures OnwardAt(who, f, i)
  {
    InvAt(permits, f, step, i);
    assert RunsAt(permits, f, step, i);
    StepOnward(who, permits, f(i), step(i));
  }

  lemma {:induction false} OnwardLater(who: Who, f: nat -> State, i: nat, j: nat)
    requires i <= j && forall k: nat :: OnwardAt(who, f, k)
    ensures Onward(who, f(i), f(j))
    decreases j - i
  {
    assert OnwardAt(who, f, i);
    if i < j {
      OnwardLater(who, f, i + 1, j);
      OnwardTrans(who, f(i), f(i + 1), f(j));
    }
  }

  /** No answer is taken back. */
  lemma FlowsLater(who: Who, permits: nat, f: nat -> State, step: nat -> Step, i: nat, j: nat)
    requires Inv(f(0)) && Runs(permits, f, step) && i <= j
    ensures Onward(who, f(i), f(j))
  {
    forall k: nat ensures OnwardAt(who, f, k) {
      OnwardNow(who, permits, f, step, k);
    }
    OnwardLater(who, f, i, j);
  }

  // -------------------------------------------------------------------------
  // Fairness
  // -------------------------------------------------------------------------

  /** It happens at moment i or later. */
  ghost predicate After(p: nat -> bool, i: nat) {
    exists j: nat :: i <= j && p(j)
  }

  /** It does not happen from i on until just before k. */
  ghost predicate NotBetween(p: nat -> bool, i: nat, k: nat) {
    forall m: nat | i <= m < k :: !p(m)
  }

  lemma {:induction false} FirstTime(p: nat -> bool, i: nat, j: nat) returns (k: nat)
    requires i <= j && p(j)
    ensures i <= k <= j && p(k) && NotBetween(p, i, k)
    decreases j - i
  {
    if p(i) {
      k := i;
    } else {
      k := FirstTime(p, i + 1, j);
    }
  }

  lemma NextTime(p: nat -> bool, i: nat) returns (k: nat)
    requires After(p, i)
    ensures i <= k && p(k) && NotBetween(p, i, k)
  {
    var j: nat :| i <= j && p(j);
    k := FirstTime(p, i, j);
  }

  ghost function FilterTurns(step: nat -> Step): nat -> bool {
    (k: nat) => step(k).FilterStep?
  }

  ghost function RouterTurns(step: nat -> Step): nat -> bool {
    (k: nat) => step(k).RouterStep?
  }

  ghost function ForwarderTurns(step: nat -> Step): nat -> bool {
    (k: nat) => step(k).ForwarderStep?
  }

  ghost function ResponderTurns(step: nat -> Step): nat -> bool {
    (k: nat) => step(k).ResponderStep?
  }

  /** The task that has been running longest moves. */
  ghost function HeadTurns(step: nat -> Step): nat -> bool {
    (k: nat) => step(k).TaskStep? && step(k).index == 0
  }

  /** The forwarder moves, or could not: it has nothing to read, or no permit for what it reads. */
  ghost function ForwarderServed(permits: nat, f: nat -> State, step: nat -> Step): nat -> bool {
    (k: nat) => step(k).ForwarderStep? || !Enabled(permits, f(k), ForwarderStep)
  }

  predicate FilterBusy(s: State) {
    s.filter.outbox != [] || s.filter.cursor < |s.bus|
  }

  predicate RouterBusy(s: State) {
    s.router.outbox != [] || s.router.cursor < |s.bus|
  }

  predicate ResponderBusy(s: State) {
    s.responder < |s.bus|
  }

  ghost predicate FairAt(permits: nat, f: nat -> State, step: nat -> Step, i: nat) {
    && (FilterBusy(f(i)) ==> After(FilterTurns(step), i))
    && (RouterBusy(f(i)) ==> After(RouterTurns(step), i))
    && (ResponderBusy(f(i)) ==> After(ResponderTurns(step), i))
    && (f(i).tasks != [] ==> After(HeadTurns(step), i))
    && After(ForwarderServed(permits, f, step), i)
  }

  /**
   Each processor with something to do gets its turn, and so does the oldest
   running task. The forwarder, which may have to wait for a permit, only gets a
   turn if it stays able to take one.
   */
  ghost predicate Fair(permits: nat, f: nat -> State, step: nat -> Step) {
    forall i: nat :: FairAt(permits, f, step, i)
  }

  // -------------------------------------------------------------------------
  // Each processor catches up
  // -------------------------------------------------------------------------

  lemma {:induction false} FilterStays(permits: nat, f: nat -> State, step: nat -> Step, i: nat, k: nat)
    requires Runs(permits, f, step) && i <= k && NotBetween(FilterTurns(step), i, k)
    ensures f(k).filter == f(i).filter
    decreases k - i
  {
    if i < k {
      FilterStays(permits, f, step, i, k - 1);
      assert RunsAt(permits, f, step, k - 1);
      assert !FilterTurns(step)(k - 1);
    }
  }

  function FilterLag(s: State, n: nat): nat {
    |s.filter.outbox| + if s.filter.cursor < n then 3 * (n - s.filter.cursor) else 0
  }

  /** A turn of the filter, when nothing but the bus has changed since s0. */
  lemma FilterTurn(permits: nat, s0: State, s: State, step: Step, n: nat)
    requires s.filter == s0.filter && n <= |s0.bus| <= |s.bus| && FilterLag(s0, n) > 0
    requires step.FilterStep? && Enabled(permits, s, step)
    ensures FilterLag(Apply(permits, s, step), n) < FilterLag(s0, n)
  {}

  lemma FilterMoves(permits: nat, f: nat -> State, step: nat -> Step, i: nat, n: nat) returns (k: nat)
    requires Runs(permits, f, step) && After(FilterTurns(step), i) && n <= |f(i).bus| && FilterLag(f(i), n) > 0
    ensures k > i && FilterLag(f(k), n) < FilterLag(f(i), n)
  {
    var j := NextTime(FilterTurns(step), i);
    FilterStays(permits, f, step, i, j);
    BusGrows(permits, f, step, i, j);
    assert RunsAt(permits, f, step, j);
    FilterTurn(permits, f(i), f(j), step(j), n);
    k := j + 1;
  }

  /** The filter comes to have read the first n events and published all that follows from them. */
  lemma {:induction false} FilterCatchesUp(permits: nat, f: nat -> State, step: nat -> Step, i: nat, n: nat) returns (t: nat)
    requires Runs(permits, f, step) && Fair(permits, f, step) && n <= |f(i).bus|
    ensures t >= i && f(t).filter.cursor >= n && f(t).filter.outbox == []
    decreases FilterLag(f(i), n)
  {
    if FilterLag(f(i), n) == 0 {
      return i;
    }
    assert FairAt(permits, f, step, i);
    var k := FilterMoves(permits, f, step, i, n);
    BusGrows(permits, f, step, i, k);
    t := FilterCatchesUp(permits, f, step, k, n);
  }

  lemma {:induction false} RouterStays(permits: nat, f: nat -> State, step: nat -> Step, i: nat, k: nat)
    requires Runs(permits, f, step) && i <= k && NotBetween(RouterTurns(step), i, k)
    ensures f(k).router == f(i).router
    decreases k - i
  {
    if i < k {
      RouterStays(permits, f, step, i, k - 1);
      assert RunsAt(permits, f, step, k - 1);
      assert !RouterTurns(step)(k - 1);
    }
  }

  function RouterLag(s: State, n: nat): nat {
    |s.router.outbox| + if s.router.cursor < n then 3 * (n - s.router.cursor) else 0
  }

  lemma RouterTurn(permits: nat, s0: State, s: State, step: Step, n: nat)
    requires s.router == s0.router && n <= |s0.bus| <= |s.bus| && RouterLag(s0, n) > 0
    requires step.RouterStep? && Enabled(permits, s, step)
    ensures RouterLag(Apply(permits, s, step), n) < RouterLag(s0, n)
  {}

  lemma RouterMoves(permits: nat, f: nat -> State, step: nat -> Step, i: nat, n: nat) returns (k: nat)
    requires Runs(permits, f, step) && After(RouterTurns(step), i) && n <= |f(i).bus| && RouterLag(f(i), n) > 0
    ensures k > i && RouterLag(f(k), n) < RouterLag(f(i), n)
  {
    var j := NextTime(RouterTurns(step), i);
    RouterStays(permits, f, step, i, j);
    BusGrows(permits, f, step, i, j);
    assert RunsAt(permits, f, step, j);
    RouterTurn(permits, f(i), f(j), step(j), n);
    k := j + 1;
  }

  lemma {:induction false} RouterCatchesUp(permits: nat, f: nat -> State, step: nat -> Step, i: nat, n: nat) returns (t: nat)
    requires Runs(permits, f, step) && Fair(permits, f, step) && n <= |f(i).bus|
    ensures t >= i && f(t).router.cursor >= n && f(t).router.outbox == []
    decreases RouterLag(f(i), n)
  {
    if RouterLag(f(i), n) == 0 {
      return i;
    }
    assert FairAt(permits, f, step, i);
    var k := RouterMoves(permits, f, step, i, n);
    BusGrows(permits, f, step, i, k);
    t := RouterCatchesUp(permits, f, step, k, n);
  }

  lemma {:induction false} ResponderStays(permits: nat, f: nat -> State, step: nat -> Step, i: nat, k: nat)
    requires Runs(permits, f, step) && i <= k && NotBetween(ResponderTurns(step), i, k)
    ensures f(k).responder == f(i).responder
    decreases k - i
  {
    if i < k {
      ResponderStays(permits, f, step, i, k - 1);
      assert RunsAt(permits, f, step, k - 1);
      assert !ResponderTurns(step)(k - 1);
    }
  }

  lemma ResponderMoves(permits: nat, f: nat -> State, step: nat -> Step, i: nat) returns (k: nat)
    requires Runs(permits, f, step) && After(ResponderTurns(step), i)
    ensures k > i && f(k).responder == f(i).responder + 1
  {
    var j := NextTime(ResponderTurns(step), i);
    ResponderStays(permits, f, step, i, j);
    assert RunsAt(permits, f, step, j);
    k := j + 1;
  }

  lemma {:induction false} ResponderCatchesUp(permits: nat, f: nat -> State, step: nat -> Step, i: nat, n: nat)
    returns (t: nat)
    requires Runs(permits, f, step) && Fair(permits, f, step) && n <= |f(i).bus|
    ensures t >= i && f(t).responder >= n
    decreases n - f(i).responder
  {
    if f(i).responder >= n {
      return i;
    }
    assert FairAt(permits, f, step, i);
    var k := ResponderMoves(permits, f, step, i);
    BusGrows(permits, f, step, i, k);
    t := ResponderCatchesUp(permits, f, step, k, n);
  }

  // -------------------------------------------------------------------------
  // The forwarder gets its permit
  // -------------------------------------------------------------------------

  lemma TaskStepWorks(s: State, i: nat, reply: Reply, canRetry: bool)
    requires i < |s.tasks| && TaskShape(s.tasks[i])
    ensures TaskWork(StepTask(s, i, reply, canRetry).tasks) < TaskWork(s.tasks)
  {
    TaskWorkAfter(s, i, reply, canRetry);
    TaskCostDrops(s.tasks[i], reply, canRetry);
  }

  /** A step that is not the forwarder's leaves its place and gives the tasks no more work. */
  lemma OtherStepWaits(permits: nat, s: State, step: Step)
    requires TaskShapes(s) && Enabled(permits, s, step) && !step.ForwarderStep?
    ensures var s' := Apply(permits, s, step);
            s'.forwarder == s.forwarder && TaskWork(s'.tasks) <= TaskWork(s.tasks)
    ensures step.TaskStep? ==> TaskWork(Apply(permits, s, step).tasks) < TaskWork(s.tasks)
  {
    if step.TaskStep? {
      assert s.tasks[step.index] in s.tasks;
      TaskStepWorks(s, step.index, step.reply, step.canRetry);
    }
  }

  lemma ShapesAt(permits: nat, f: nat -> State, step: nat -> Step, i: nat)
    requires Inv(f(0)) && Runs(permits, f, step)
    ensures TaskShapes(f(i))
  {
    InvAt(permits, f, step, i);
  }

  lemma WaitsStep(permits: nat, f: nat -> State, step: nat -> Step, k: nat)
    requires Inv(f(0)) && Runs(permits, f, step) && !step(k).ForwarderStep?
    ensures f(k + 1).forwarder == f(k).forwarder && TaskWork(f(k + 1).tasks) <= TaskWork(f(k).tasks)
    ensures step(k).TaskStep? ==> TaskWork(f(k + 1).tasks) < TaskWork(f(k).tasks)
  {
    assert RunsAt(permits, f, step, k);
    ShapesAt(permits, f, step, k);
    OtherStepWaits(permits, f(k), step(k));
  }

  /** Without a turn of the forwarder, its place stays and the work of the tasks only shrinks. */
  lemma {:induction false} ForwarderWaits(permits: nat, f: nat -> State, step: nat -> Step, i: nat, k: nat)
    requires Inv(f(0)) && Runs(permits, f, step) && i <= k && NotBetween(ForwarderTurns(step), i, k)
    ensures f(k).forwarder == f(i).forwarder && TaskWork(f(k).tasks) <= TaskWork(f(i).tasks)
    decreases k - i
  {
    if i < k {
      ForwarderWaits(permits, f, step, i, k - 1);
      assert !ForwarderTurns(step)(k - 1);
      WaitsStep(permits, f, step, k - 1);
    }
  }

  /** If the forwarder never moves again, the tasks in its way lose work. */
  lemma TasksInTheWay(permits: nat, f: nat -> State, step: nat -> Step, i: nat) returns (k: nat)
    requires Inv(f(0)) && Runs(permits, f, step) && Fair(permits, f, step)
    requires permits > 0 && f(i).forwarder < |f(i).bus| && !After(ForwarderTurns(step), i)
    ensures k >= i && TaskWork(f(k).tasks) < TaskWork(f(i).tasks)
  {
    assert FairAt(permits, f, step, i);
    var j := NextTime(ForwarderServed(permits, f, step), i);
    assert !ForwarderTurns(step)(j);
    ForwarderWaits(permits, f, step, i, j);
    BusGrows(permits, f, step, i, j);
    assert f(j).tasks != [];
    assert FairAt(permits, f, step, j);
    var l := NextTime(HeadTurns(step), j);
    assert !ForwarderTurns(step)(l);
    ForwarderWaits(permits, f, step, i, l);
    WaitsStep(permits, f, step, l);
    k := l + 1;
  }

  lemma {:induction false} ForwarderGoes(permits: nat, f: nat -> State, step: nat -> Step, i: nat)
    requires Inv(f(0)) && Runs(permits, f, step) && Fair(permits, f, step)
    requires permits > 0 && f(i).forwarder < |f(i).bus|
    ensures After(ForwarderTurns(step), i)
    decreases TaskWork(f(i).tasks)
  {
    if !After(ForwarderTurns(step), i) {
      var k := TasksInTheWay(permits, f, step, i);
      assert NotBetween(ForwarderTurns(step), i, k);
      ForwarderWaits(permits, f, step, i, k);
      BusGrows(permits, f, step, i, k);
      ForwarderGoes(permits, f, step, k);
    }
  }

  lemma ForwarderMoves(permits: nat, f: nat -> State, step: nat -> Step, i: nat) returns (k: nat)
    requires Inv(f(0)) && Runs(permits, f, step) && After(ForwarderTurns(step), i)
    ensures k > i && f(k).forwarder == f(i).forwarder + 1
  {
    var j := NextTime(ForwarderTurns(step), i);
    ForwarderWaits(permits, f, step, i, j);
    assert RunsAt(permits, f, step, j);
    k := j + 1;
  }

  lemma {:induction false} ForwarderCatchesUp(permits: nat, f: nat -> State, step: nat -> Step, i: nat, n: nat)
    returns (t: nat)
    requires Inv(f(0)) && Runs(permits, f, step) && Fair(permits, f, step) && permits > 0 && n <= |f(i).bus|
    ensures t >= i && f(t).forwarder >= n
    decreases n - f(i).forwarder
  {
    if f(i).forwarder >= n {
      return i;
    }
    ForwarderGoes(permits, f, step, i);
    var k := ForwarderMoves(permits, f, step, i);
    BusGrows(permits, f, step, i, k);
    t := ForwarderCatchesUp(permits, f, step, k, n);
  }

  // -------------------------------------------------------------------------
  // The running tasks finish
  // -------------------------------------------------------------------------

  /** What the forwarder has read, less the tasks after the first m: the answers to come are not counted. */
  function Settled(who: Who, s: State, m: nat): int
    requires Cursors(s) && m <= |s.tasks|
  {
    Count(who, Routes, s.bus[..s.forwarder]) - CountTasks(who, s.tasks[m..])
  }

  /** Of m old tasks, those that are left after a step. */
  function OldLeft(s: State, step: Step, m: nat): nat {
    if step.TaskStep? && step.index < m && step.index < |s.tasks|
       && TaskNext(s.tasks[step.index], step.reply, step.canRetry).0.None? then m - 1 else m
  }

  lemma {:induction false} TaskWorkPrefix(a: seq<Task>, m: nat)
    requires m <= |a|
    ensures TaskWork(a) == TaskWork(a[..m]) + TaskWork(a[m..])
  {
    TaskWorkAppend(a[..m], a[m..]);
    assert a[..m] + a[m..] == a;
  }

  lemma OldTaskStep(s: State, i: nat, reply: Reply, canRetry: bool, m: nat)
    requires Cursors(s) && m <= |s.tasks| && i < m && TaskShape(s.tasks[i])
    ensures var s' := StepTask(s, i, reply, canRetry);
            var m' := OldLeft(s, TaskStep(i, reply, canRetry), m);
            && m' <= |s'.tasks| && s'.tasks[m'..] == s.tasks[m..]
            && TaskWork(s'.tasks[..m']) < TaskWork(s.tasks[..m])
  {
    var s' := StepTask(s, i, reply, canRetry);
    var m' := OldLeft(s, TaskStep(i, reply, canRetry), m);
    assert s'.tasks[m'..] == s.tasks[m..];
    TaskWorkPrefix(s.tasks, m);
    TaskWorkPrefix(s'.tasks, m');
    TaskStepWorks(s, i, reply, canRetry);
  }

  lemma CountReplaced(who: Who, ts: seq<Task>, j: nat, t: Task)
    requires j < |ts| && t.envelope == ts[j].envelope
    ensures CountTasks(who, ts[j := t]) == CountTasks(who, ts)
  {
    CountTasksSplit(who, ts, j);
    CountTasksSplit(who, ts[j := t], j);
    assert ts[j := t][..j] == ts[..j] && ts[j := t][j + 1..] == ts[j + 1..];
  }

  lemma CountRemoved(who: Who, ts: seq<Task>, j: nat)
    requires j < |ts|
    ensures CountTasks(who, ts[..j] + ts[j + 1..]) <= CountTasks(who, ts)
  {
    CountTasksSplit(who, ts, j);
    CountTasksAppend(who, ts[..j], ts[j + 1..]);
  }

  lemma NewTaskStep(who: Who, s: State, i: nat, reply: Reply, canRetry: bool, m: nat)
    requires m <= i < |s.tasks|
    ensures var s' := StepTask(s, i, reply, canRetry);
            && m <= |s'.tasks| && s'.tasks[..m] == s.tasks[..m]
            && CountTasks(who, s'.tasks[m..]) <= CountTasks(who, s.tasks[m..])
  {
    var s' := StepTask(s, i, reply, canRetry);
    var t' := TaskNext(s.tasks[i], reply, canRetry).0;
    var young := s.tasks[m..];
    if t'.Some? {
      assert s'.tasks[m..] == young[i - m := t'.value];
      SameEnvelope(s.tasks[i], reply, canRetry);
      CountReplaced(who, young, i - m, t'.value);
    } else {
      assert s'.tasks[m..] == young[..i - m] + young[i - m + 1..];
      CountRemoved(who, young, i - m);
    }
  }

  lemma SameEnvelope(t: Task, reply: Reply, canRetry: bool)
    ensures var t' := TaskNext(t, reply, canRetry).0; t'.Some? ==> t'.value.envelope == t.envelope
  {}

  lemma ForwarderSettles(who: Who, s: State, m: nat)
    requires Cursors(s) && s.forwarder < |s.bus| && m <= |s.tasks|
    ensures var s' := StepForwarder(s);
            Cursors(s') && m <= |s'.tasks| && s'.tasks[..m] == s.tasks[..m] && Settled(who, s', m) == Settled(who, s, m)
  {
    var e, s' := s.bus[s.forwarder], StepForwarder(s);
    CountSnoc(who, Routes, s.bus, s.forwarder);
    if e.MessageRouted? {
      assert s'.tasks[m..] == s.tasks[m..] + [NewTask(e)];
      CountTasksAppend(who, s.tasks[m..], [NewTask(e)]);
      assert CountTasks(who, [NewTask(e)]) == Hit(who, KeyOf(e.envelope));
    }
  }

  /** The first m tasks of s have come down to the first m' of s', and what is settled has not shrunk. */
  ghost predicate Settles(who: Who, s: State, m: nat, s': State, m': nat) {
    && Cursors(s) && Cursors(s') && m <= |s.tasks| && m' <= |s'.tasks|
    && Settled(who, s, m) <= Settled(who, s', m')
    && TaskWork(s'.tasks[..m']) <= TaskWork(s.tasks[..m])
  }

  lemma SettlesTrans(who: Who, s: State, m: nat, s': State, m': nat, s'': State, m'': nat)
    requires Settles(who, s, m, s', m') && Settles(who, s', m', s'', m'')
    ensures Settles(who, s, m, s'', m'')
  {}

  lemma TaskStepSettles(who: Who, s: State, i: nat, reply: Reply, canRetry: bool, m: nat)
    requires Cursors(s) && m <= |s.tasks| && i < |s.tasks| && TaskShape(s.tasks[i])
    ensures var s', m' := StepTask(s, i, reply, canRetry), OldLeft(s, TaskStep(i, reply, canRetry), m);
            && Settles(who, s, m, s', m')
            && (i < m ==> TaskWork(s'.tasks[..m']) < TaskWork(s.tasks[..m]))
  {
    var s' := StepTask(s, i, reply, canRetry);
    assert s'.bus[..s.forwarder] == s.bus[..s.forwarder];
    if i < m {
      OldTaskStep(s, i, reply, canRetry, m);
    } else {
      NewTaskStep(who, s, i, reply, canRetry, m);
    }
  }

  lemma OtherStepSettles(who: Who, permits: nat, s: State, step: Step, m: nat)
    requires Enabled(permits, s, step) && Cursors(s) && Cursors(Apply(permits, s, step)) && m <= |s.tasks|
    requires !step.ForwarderStep? && !step.TaskStep?
    ensures Settles(who, s, m, Apply(permits, s, step), m)
  {
    var s' := Apply(permits, s, step);
    StepGrows(permits, s, step);
    assert s'.bus[..s.forwarder] == s.bus[..s.forwarder];
  }

  /** A step keeps the old tasks in front, and what is settled. */
  lemma StepSettles(who: Who, permits: nat, s: State, step: Step, m: nat)
    requires Enabled(permits, s, step) && Inv(s) && Inv(Apply(permits, s, step)) && m <= |s.tasks|
    ensures var s', m' := Apply(permits, s, step), OldLeft(s, step, m);
            && Settles(who, s, m, s', m')
            && (step.TaskStep? && step.index < m ==> TaskWork(s'.tasks[..m']) < TaskWork(s.tasks[..m]))
  {
    if step.ForwarderStep? {
      ForwarderSettles(who, s, m);
    } else if step.TaskStep? {
      assert s.tasks[step.index] in s.tasks;
      TaskStepSettles(who, s, step.index, step.reply, step.canRetry, m);
    } else {
      OtherStepSettles(who, permits, s, step, m);
    }
  }

  lemma SettlesNext(who: Who, permits: nat, f: nat -> State, step: nat -> Step, i: nat, m: nat) returns (left: nat)
    requires Inv(f(0)) && Runs(permits, f, step) && m <= |f(i).tasks|
    ensures Settles(who, f(i), m, f(i + 1), left)
    ensures HeadTurns(step)(i) && m > 0 ==> TaskWork(f(i + 1).tasks[..left]) < TaskWork(f(i).tasks[..m])
  {
    InvAt(permits, f, step, i);
    InvAt(permits, f, step, i + 1);
    assert RunsAt(permits, f, step, i);
    StepSettles(who, permits, f(i), step(i), m);
    left := OldLeft(f(i), step(i), m);
  }

  lemma SettlesNow(who: Who, permits: nat, f: nat -> State, step: nat -> Step, i: nat, m: nat)
    requires Inv(f(0)) && Runs(permits, f, step) && m <= |f(i).tasks|
    ensures Settles(who, f(i), m, f(i), m)
  {
    InvAt(permits, f, step, i);
  }

  lemma {:induction false} OldTasksShrink(who: Who, permits: nat, f: nat -> State, step: nat -> Step, i: nat, j: nat, m: nat)
    returns (left: nat)
    requires Inv(f(0)) && Runs(permits, f, step) && i <= j && m <= |f(i).tasks|
    ensures Settles(who, f(i), m, f(j), left)
    decreases j - i
  {
    if i == j {
      left := m;
      SettlesNow(who, permits, f, step, i, m);
    } else {
      var before := OldTasksShrink(who, permits, f, step, i, j - 1, m);
      left := SettlesNext(who, permits, f, step, j - 1, before);
      SettlesTrans(who, f(i), m, f(j - 1), before, f(j), left);
    }
  }

  /** By the next turn of the oldest task, the m oldest have less work left, or are gone. */
  lemma OldTasksMove(who: Who, permits: nat, f: nat -> State, step: nat -> Step, i: nat, m: nat)
    returns (k: nat, left: nat)
    requires Inv(f(0)) && Runs(permits, f, step) && 0 < m <= |f(i).tasks| && After(HeadTurns(step), i)
    ensures k >= i && Settles(who, f(i), m, f(k), left)
    ensures left == 0 || TaskWork(f(k).tasks[..left]) < TaskWork(f(i).tasks[..m])
  {
    k := NextTime(HeadTurns(step), i);
    left := OldTasksShrink(who, permits, f, step, i, k, m);
    if left > 0 {
      var l := SettlesNext(who, permits, f, step, k, left);
      SettlesTrans(who, f(i), m, f(k), left, f(k + 1), l);
      k, left := k + 1, l;
    }
  }

  /** The m oldest tasks finish, however many new ones are started. */
  lemma {:induction false} TasksFinish(who: Who, permits: nat, f: nat -> State, step: nat -> Step, i: nat, m: nat)
    returns (t: nat)
    requires Inv(f(0)) && Runs(permits, f, step) && Fair(permits, f, step) && m <= |f(i).tasks|
    ensures t >= i && Settles(who, f(i), m, f(t), 0)
    decreases m > 0, TaskWork(f(i).tasks[..m])
  {
    if m == 0 {
      SettlesNow(who, permits, f, step, i, 0);
      return i;
    }
    assert FairAt(permits, f, step, i);
    var k, left := OldTasksMove(who, permits, f, step, i, m);
    t := TasksFinish(who, permits, f, step, k, left);
    SettlesTrans(who, f(i), m, f(k), left, f(t), 0);
  }

  // -------------------------------------------------------------------------
  // Every submit
  // -------------------------------------------------------------------------

  lemma CountGrows(who: Who, kind: Kind, a: seq<Event>, b: seq<Event>, n: nat)
    requires a <= b && |a| <= n <= |b|
    ensures Count(who, kind, a) <= Count(who, kind, b[..n])
  {
    assert b[..n] == a + b[|a|..n];
    CountAppend(who, kind, a, b[|a|..n]);
  }

  lemma AllReadByFilter(who: Who, permits: nat, f: nat -> State, step: nat -> Step, i: nat) returns (t: nat)
    requires Inv(f(0)) && Runs(permits, f, step) && Fair(permits, f, step)
    ensures t >= i && Cursors(f(t))
    ensures Submitted(who, f(i)) <= FilterAnswers(who, f(t)) + Count(who, Accepts, f(t).bus)
  {
    t := FilterCatchesUp(permits, f, step, i, |f(i).bus|);
    BusGrows(permits, f, step, i, t);
    FlowsLater(who, permits, f, step, t, t);
    CountGrows(who, Submits, f(i).bus, f(t).bus, f(t).filter.cursor);
  }

  lemma AllReadByRouter(who: Who, permits: nat, f: nat -> State, step: nat -> Step, i: nat) returns (t: nat)
    requires Inv(f(0)) && Runs(permits, f, step) && Fair(permits, f, step)
    ensures t >= i && Cursors(f(t))
    ensures Count(who, Accepts, f(i).bus) <= RouterAnswers(who, f(t)) + Count(who, Routes, f(t).bus)
  {
    t := RouterCatchesUp(permits, f, step, i, |f(i).bus|);
    BusGrows(permits, f, step, i, t);
    FlowsLater(who, permits, f, step, t, t);
    CountGrows(who, Accepts, f(i).bus, f(t).bus, f(t).router.cursor);
  }

  /** With every task counted as old, what is settled is all that the forwarder has read. */
  lemma AllOld(who: Who, s: State)
    requires Cursors(s)
    ensures Settled(who, s, |s.tasks|) == Count(who, Routes, s.bus[..s.forwarder])
    ensures Settled(who, s, 0) == TaskAnswersOf(who, s)
  {
    assert s.tasks[|s.tasks|..] == [] && s.tasks[0..] == s.tasks;
  }

  lemma AllForwarded(who: Who, permits: nat, f: nat -> State, step: nat -> Step, i: nat) returns (t: nat)
    requires Inv(f(0)) && Runs(permits, f, step) && Fair(permits, f, step) && permits > 0
    ensures t >= i && Cursors(f(t)) && Count(who, Routes, f(i).bus) <= TaskAnswersOf(who, f(t))
  {
    var u := ForwarderCatchesUp(permits, f, step, i, |f(i).bus|);
    BusGrows(permits, f, step, i, u);
    t := TasksFinish(who, permits, f, step, u, |f(u).tasks|);
    CountGrows(who, Routes, f(i).bus, f(u).bus, f(u).forwarder);
    AllOld(who, f(u));
    AllOld(who, f(t));
  }

  lemma ConservedAt(who: Who, permits: nat, f: nat -> State, step: nat -> Step, i: nat)
    requires Inv(f(0)) && Runs(permits, f, step)
    ensures Cursors(f(i)) && Conserved(who, f(i))
  {
    InvAt(permits, f, step, i);
  }

  /** From any moment on, there is one by which all that was submitted so far has been answered. */
  lemma AllAnsweredLater(who: Who, permits: nat, f: nat -> State, step: nat -> Step, i: nat) returns (t: nat)
    requires Inv(f(0)) && Runs(permits, f, step) && Fair(permits, f, step) && permits > 0
    ensures t >= i && Submitted(who, f(i)) <= Answered(who, f(t))
  {
    var a := AllReadByFilter(who, permits, f, step, i);
    var b := AllReadByRouter(who, permits, f, step, a);
    t := AllForwarded(who, permits, f, step, b);
    FlowsLater(who, permits, f, step, a, t);
    FlowsLater(who, permits, f, step, b, t);
    ConservedAt(who, permits, f, step, t);
    AnswersSplit(who, f(t));
  }

  /** Answers handed to the session registry, whether it could place them or not. */
  function HandedOver(who: Who, s: State): nat {
    CountResponses(who, s.sent) + CountResponses(who, s.dropped)
  }

  lemma HandedOverAt(who: Who, permits: nat, f: nat -> State, step: nat -> Step, i: nat)
    requires Inv(f(0)) && Runs(permits, f, step)
    ensures f(i).responder <= |f(i).bus| && HandedOver(who, f(i)) == Count(who, Answers, f(i).bus[..f(i).responder])
    ensures Answered(who, f(i)) <= Submitted(who, f(i))
  {
    InvAt(permits, f, step, i);
    assert Conserved(who, f(i));
  }

  /**
   While traffic goes on: from every start, in every endless run in which each
   processor and the oldest task keep getting their turn, for every moment and
   every (session, sequence) pair there is a later moment by which the pair has
   been answered as often as it had been submitted, and these answers handed to
   the session registry. It is never answered more often than submitted.
   */
  lemma SubmitsAreAnsweredUnderTraffic(permits: nat, f: nat -> State, step: nat -> Step, i: nat, key: Key) returns (t: nat)
    requires Starts(f(0)) && Runs(permits, f, step) && Fair(permits, f, step) && permits > 0
    ensures t >= i && Submitted(Some(key), f(i)) <= HandedOver(Some(key), f(t))
    ensures HandedOver(Some(key), f(t)) <= Answered(Some(key), f(t)) <= Submitted(Some(key), f(t))
  {
    var who := Some(key);
    StartIsGood(f(0));
    var a := AllAnsweredLater(who, permits, f, step, i);
    t := ResponderCatchesUp(permits, f, step, a, |f(a).bus|);
    BusGrows(permits, f, step, a, t);
    HandedOverAt(who, permits, f, step, t);
    CountGrows(who, Answers, f(a).bus, f(t).bus, f(t).responder);
    CountGrows(who, Answers, f(t).bus[..f(t).responder], f(t).bus, |f(t).bus|);
    assert f(t).bus[..|f(t).bus|] == f(t).bus;
  }
}
