/**
 The pipeline always comes to rest: each of its steps decreases a lexicographic
 measure, something can step until it is at rest, and at rest every submitted
 message has been answered exactly once.
 */
module PipelineLiveness {
  import opened Wrappers
  import opened Events
  import opened Pipeline
  import opened PipelineInvariant

  // -------------------------------------------------------------------------
  // Measure
  // -------------------------------------------------------------------------

  /** Work left in a task, counting the reads its events will cause. */
  function TaskCost(t: Task): nat {
    match t.phase
    case Trying => 7 * |t.todo| + 14
    case Awaiting => 7 * |t.todo| + 9
    case Finishing => 6 * |t.outbox|
  }

  function TaskWork(ts: seq<Task>): nat {
    if ts == [] then 0 else TaskCost(ts[0]) + TaskWork(ts[1..])
  }

  function RouteCost(e: Event): nat {
    if e.MessageRouted? then TaskCost(NewTask(e)) else 0
  }

  function RouteWork(es: seq<Event>): nat {
    if es == [] then 0 else RouteCost(es[0]) + RouteWork(es[1..])
  }

  /** Messages not routed yet; how many clusters each will need is not known before. */
  function Early(s: State): nat
    requires Cursors(s)
  {
    4 * Count(None, Submits, s.bus[s.filter.cursor..])
    + 3 * Count(None, Accepts, s.filter.outbox)
    + 2 * Count(None, Accepts, s.bus[s.router.cursor..])
  }

  /** Everything else: unread events, events about to be published, and forwarding. */
  function Late(s: State): nat
    requires Cursors(s)
  {
    4 * |s.bus| - s.filter.cursor - s.router.cursor - s.forwarder - s.responder
    + 6 * |s.filter.outbox| + 6 * |s.router.outbox|
    + RouteWork(s.router.outbox) + RouteWork(s.bus[s.forwarder..])
    + TaskWork(s.tasks)
  }

  predicate Less(s': State, s: State)
    requires Cursors(s) && Cursors(s')
  {
    Early(s') < Early(s) || (Early(s') == Early(s) && Late(s') < Late(s))
  }

  lemma {:induction false} RouteWorkAppend(a: seq<Event>, b: seq<Event>)
    ensures RouteWork(a + b) == RouteWork(a) + RouteWork(b)
  {
    if a == [] {
      assert a + b == b;
    } else {
      RouteWorkAppend(a[1..], b);
      assert (a + b)[1..] == a[1..] + b;
    }
  }

  lemma {:induction false} TaskWorkAppend(a: seq<Task>, b: seq<Task>)
    ensures TaskWork(a + b) == TaskWork(a) + TaskWork(b)
  {
    if a == [] {
      assert a + b == b;
    } else {
      TaskWorkAppend(a[1..], b);
      assert (a + b)[1..] == a[1..] + b;
    }
  }

  lemma TaskWorkSplit(ts: seq<Task>, i: nat)
    requires i < |ts|
    ensures TaskWork(ts) == TaskWork(ts[..i]) + TaskCost(ts[i]) + TaskWork(ts[i + 1..])
  {
    assert ts == ts[..i] + ts[i..];
    TaskWorkAppend(ts[..i], ts[i..]);
    assert ts[i..][1..] == ts[i + 1..];
  }

  /** What publishing alone does to the measure. */
  lemma PublishMeasure(s: State, e: Event)
    requires Cursors(s)
    ensures var s' := s.(bus := s.bus + [e]);
            && Early(s') == Early(s) + 4 * CountIn(None, Submits, e) + 2 * CountIn(None, Accepts, e)
            && Late(s') == Late(s) + 4 + RouteCost(e)
  {
    CountPublish(None, Submits, s.bus, s.filter.cursor, e);
    CountPublish(None, Accepts, s.bus, s.router.cursor, e);
    assert (s.bus + [e])[s.forwarder..] == s.bus[s.forwarder..] + [e];
    RouteWorkAppend(s.bus[s.forwarder..], [e]);
    assert RouteWork([e]) == RouteCost(e);
  }

  // -------------------------------------------------------------------------
  // Every pipeline step decreases it
  // -------------------------------------------------------------------------

  lemma FilterDecreases(s: State)
    requires Structural(s) && (s.filter.outbox != [] || s.filter.cursor < |s.bus|)
    ensures Cursors(StepFilter(s)) && Less(StepFilter(s), s)
  {
    if s.filter.outbox != [] {
      var e := s.filter.outbox[0];
      assert e in s.filter.outbox;
      PublishMeasure(s, e);
    } else {
      CountRead(None, Submits, s.bus, s.filter.cursor);
      FilterReactCounts(None, s.bus[s.filter.cursor]);
    }
  }

  lemma RouterDecreases(s: State, route: Option<RouteResult>)
    requires Structural(s) && (s.router.outbox != [] || s.router.cursor < |s.bus|)
    ensures Cursors(StepRouter(s, route)) && Less(StepRouter(s, route), s)
  {
    if s.router.outbox != [] {
      var e := s.router.outbox[0];
      assert e in s.router.outbox;
      PublishMeasure(s, e);
    } else {
      CountRead(None, Accepts, s.bus, s.router.cursor);
    }
  }

  lemma ForwarderDecreases(s: State)
    requires Cursors(s) && s.forwarder < |s.bus|
    ensures Cursors(StepForwarder(s)) && Less(StepForwarder(s), s)
  {
    var e := s.bus[s.forwarder];
    assert s.bus[s.forwarder..][1..] == s.bus[s.forwarder + 1..];
    if e.MessageRouted? {
      TaskWorkAppend(s.tasks, [NewTask(e)]);
      assert TaskWork([NewTask(e)]) == TaskCost(NewTask(e));
    }
  }

  lemma TaskWorkAfter(s: State, i: nat, reply: Reply, canRetry: bool)
    requires i < |s.tasks|
    ensures var (t', _) := TaskNext(s.tasks[i], reply, canRetry);
            TaskWork(StepTask(s, i, reply, canRetry).tasks) ==
            TaskWork(s.tasks) - TaskCost(s.tasks[i]) + if t'.Some? then TaskCost(t'.value) else 0
  {
    var s' := StepTask(s, i, reply, canRetry);
    TaskWorkSplit(s.tasks, i);
    if TaskNext(s.tasks[i], reply, canRetry).0.Some? {
      TaskWorkSplit(s'.tasks, i);
      assert s'.tasks[..i] == s.tasks[..i] && s'.tasks[i + 1..] == s.tasks[i + 1..];
    } else {
      TaskWorkAppend(s.tasks[..i], s.tasks[i + 1..]);
    }
  }

  /** Only the tasks, and at most one event that starts no stage, have changed. */
  lemma TaskMeasure(s: State, published: seq<Event>, s': State)
    requires Cursors(s) && s' == s.(bus := s.bus + published, tasks := s'.tasks) && |published| <= 1
    requires published != [] ==>
               CountIn(None, Submits, published[0]) == CountIn(None, Accepts, published[0]) == 0
               && RouteCost(published[0]) == 0
    ensures Cursors(s') && Early(s') == Early(s)
    ensures Late(s') == Late(s) + 4 * |published| + TaskWork(s'.tasks) - TaskWork(s.tasks)
  {
    if published == [] {
      assert s'.bus == s.bus;
    } else {
      assert s'.bus == s.bus + [published[0]];
      PublishMeasure(s, published[0]);
    }
  }

  lemma TaskDecreases(s: State, i: nat, reply: Reply, canRetry: bool)
    requires Structural(s) && i < |s.tasks| && PossibleReply(reply)
    ensures var s' := StepTask(s, i, reply, canRetry); Cursors(s') && Less(s', s)
  {
    var t := s.tasks[i];
    var (t', published) := TaskNext(t, reply, canRetry);
    TaskAnswers(None, t, reply, canRetry);
    TaskWorkAfter(s, i, reply, canRetry);
    TaskCostDrops(t, reply, canRetry);
    TaskMeasure(s, published, StepTask(s, i, reply, canRetry));
  }

  lemma TaskCostDrops(t: Task, reply: Reply, canRetry: bool)
    requires TaskShape(t)
    ensures var (t', published) := TaskNext(t, reply, canRetry);
            (if t'.Some? then TaskCost(t'.value) else 0) + 4 * |published| < TaskCost(t)
  {}

  /** Each step of a processor or a task strictly decreases the measure. */
  lemma StepDecreases(permits: nat, s: State, step: Step)
    requires Structural(s) && IsPipeline(step) && Enabled(permits, s, step)
    ensures var s' := Apply(permits, s, step); Cursors(s') && Less(s', s)
  {
    match step
    case FilterStep => FilterDecreases(s);
    case RouterStep(route) => RouterDecreases(s, route);
    case ForwarderStep => ForwarderDecreases(s);
    case ResponderStep =>
    case TaskStep(i, reply, canRetry) => TaskDecreases(s, i, reply, canRetry);
  }

  // -------------------------------------------------------------------------
  // Rest
  // -------------------------------------------------------------------------

  predicate AtRest(s: State) {
    && s.filter == Processor(|s.bus|, [])
    && s.router == Processor(|s.bus|, [])
    && s.forwarder == s.responder == |s.bus|
    && s.tasks == []
  }

  /** With at least one forwarding permit, the pipeline is never stuck. */
  lemma NeverStuck(permits: nat, s: State) returns (step: Step)
    requires Cursors(s) && permits > 0 && !AtRest(s)
    ensures IsPipeline(step) && Enabled(permits, s, step)
  {
    if s.tasks != [] {
      step := TaskStep(0, Accepted(""), false);
    } else if s.filter != Processor(|s.bus|, []) {
      step := FilterStep;
    } else if s.router != Processor(|s.bus|, []) {
      step := RouterStep(None);
    } else if s.forwarder != |s.bus| {
      step := ForwarderStep;
    } else {
      step := ResponderStep;
    }
  }

  /** What the rest of the gateway does without publishing: sessions come, go and read, messages are stored and forgotten. */
  predicate IsQuiet(step: Step) {
    step.Register? || step.Unregister? || step.CloseReceiver? || step.Consume? || step.StoreOther? || step.Forget?
  }

  ghost predicate PipelineMove(permits: nat, s: State, s': State) {
    exists step :: IsPipeline(step) && Enabled(permits, s, step) && s' == Apply(permits, s, step)
  }

  /** One step of a gateway that publishes nothing new: of the pipeline, of the rest, or none. */
  ghost predicate Moves(permits: nat, s: State, s': State) {
    || s' == s
    || PipelineMove(permits, s, s')
    || exists step :: IsQuiet(step) && Enabled(permits, s, step) && s' == Apply(permits, s, step)
  }

  lemma QuietKeeps(permits: nat, s: State, step: Step)
    requires Cursors(s) && IsQuiet(step) && Enabled(permits, s, step)
    ensures var s' := Apply(permits, s, step);
            && Cursors(s') && Early(s') == Early(s) && Late(s') == Late(s)
            && (AtRest(s') <==> AtRest(s)) && s'.bus == s.bus
  {}

  predicate NotMore(s': State, s: State)
    requires Cursors(s) && Cursors(s')
  {
    Less(s', s) || (Early(s') == Early(s) && Late(s') == Late(s))
  }

  ghost predicate SameSubmits(s': State, s: State) {
    forall who: Who :: Submitted(who, s') == Submitted(who, s)
  }

  lemma PipelineMoveKeeps(permits: nat, s: State, s': State)
    requires Inv(s) && PipelineMove(permits, s, s')
    ensures Inv(s') && Less(s', s) && SameSubmits(s', s)
  {
    var step :| IsPipeline(step) && Enabled(permits, s, step) && s' == Apply(permits, s, step);
    StepKeepsInv(permits, s, step);
    StepDecreases(permits, s, step);
    forall who: Who ensures Submitted(who, s') == Submitted(who, s) {
      StepSubmitsNothing(who, permits, s, step);
    }
  }

  /** What one step, and so any number of them, keeps. */
  ghost predicate Follows(s': State, s: State) {
    Inv(s) && Inv(s') && NotMore(s', s) && SameSubmits(s', s) && (AtRest(s) ==> AtRest(s'))
  }

  lemma MoveFollows(permits: nat, s: State, s': State)
    requires Inv(s) && Moves(permits, s, s')
    ensures Follows(s', s)
  {
    if PipelineMove(permits, s, s') {
      PipelineMoveKeeps(permits, s, s');
      forall step | IsPipeline(step) && AtRest(s) ensures !Enabled(permits, s, step) {
        NothingMovesAtRest(permits, s, step);
      }
    } else if s' != s {
      var step :| IsQuiet(step) && Enabled(permits, s, step) && s' == Apply(permits, s, step);
      StepKeepsInv(permits, s, step);
      QuietKeeps(permits, s, step);
    }
  }

  lemma NothingMovesAtRest(permits: nat, s: State, step: Step)
    requires AtRest(s) && IsPipeline(step)
    ensures !Enabled(permits, s, step)
  {}

  lemma FollowsOn(s: State, m: State, s': State)
    requires Follows(m, s) && Follows(s', m)
    ensures Follows(s', s)
  {
    forall who: Who ensures Submitted(who, s') == Submitted(who, s) {
      assert Submitted(who, m) == Submitted(who, s);
    }
  }

  lemma StepSubmitsNothing(who: Who, permits: nat, s: State, step: Step)
    requires Structural(s) && IsPipeline(step) && Enabled(permits, s, step)
    ensures Submitted(who, Apply(permits, s, step)) == Submitted(who, s)
  {
    match step
    case FilterStep =>
      if s.filter.outbox != [] {
        assert s.filter.outbox[0] in s.filter.outbox;
        CountAppend(who, Submits, s.bus, [s.filter.outbox[0]]);
      }
    case RouterStep(_) =>
      if s.router.outbox != [] {
        assert s.router.outbox[0] in s.router.outbox;
        CountAppend(who, Submits, s.bus, [s.router.outbox[0]]);
      }
    case TaskStep(i, reply, canRetry) =>
      TaskAnswers(who, s.tasks[i], reply, canRetry);
      CountAppend(who, Submits, s.bus, TaskNext(s.tasks[i], reply, canRetry).1);
    case _ =>
  }

  /** At rest nothing is in flight, so every pair was answered as often as it was submitted. */
  lemma RestIsComplete(s: State, key: Key)
    requires Inv(s) && AtRest(s)
    ensures Answered(Some(key), s) == Submitted(Some(key), s)
    ensures CountResponses(Some(key), s.sent) + CountResponses(Some(key), s.dropped) == Submitted(Some(key), s)
  {
    assert Conserved(Some(key), s);
    assert s.bus[..|s.bus|] == s.bus;
  }

  ghost predicate MovesAt(permits: nat, f: nat -> State, k: nat) {
    Moves(permits, f(k), f(k + 1))
  }

  /** An endless sequence of states, each following from the one before. */
  ghost predicate Behaviour(permits: nat, f: nat -> State) {
    forall k: nat :: MovesAt(permits, f, k)
  }

  /** What a behaviour keeps from one moment to a later one. */
  lemma {:induction false} LaterFollows(permits: nat, f: nat -> State, i: nat, j: nat)
    requires i <= j && Inv(f(i)) && Behaviour(permits, f)
    ensures Follows(f(j), f(i))
    decreases j - i
  {
    if i < j {
      var k := j - 1;
      LaterFollows(permits, f, i, k);
      assert MovesAt(permits, f, k);
      MoveFollows(permits, f(k), f(k + 1));
      FollowsOn(f(i), f(k), f(k + 1));
    }
  }

  /** The pipeline is never left standing for good while it has work. */
  ghost predicate KeepsGoing(permits: nat, f: nat -> State) {
    forall i: nat | !AtRest(f(i)) :: GoesOnAfter(permits, f, i)
  }

  ghost predicate GoesOnAfter(permits: nat, f: nat -> State, i: nat) {
    exists j: nat :: i <= j && GoesAt(permits, f, j)
  }

  ghost predicate GoesAt(permits: nat, f: nat -> State, j: nat) {
    PipelineMove(permits, f(j), f(j + 1))
  }

  lemma LessTrans(s: State, m: State, s': State)
    requires Cursors(s) && Cursors(m) && Cursors(s') && NotMore(m, s) && Less(s', m)
    ensures Less(s', s)
  {}

  lemma GoesOn(permits: nat, f: nat -> State, i: nat) returns (k: nat)
    requires Inv(f(i)) && GoesOnAfter(permits, f, i) && Behaviour(permits, f)
    ensures k > i && Inv(f(k)) && Less(f(k), f(i))
  {
    var j: nat :| i <= j && GoesAt(permits, f, j);
    LaterFollows(permits, f, i, j);
    PipelineMoveKeeps(permits, f(j), f(j + 1));
    LessTrans(f(i), f(j), f(j + 1));
    k := j + 1;
  }

  /** Every behaviour reaches rest after finitely many steps. */
  lemma {:induction false} ReachesRest(permits: nat, f: nat -> State, i: nat) returns (n: nat)
    requires Inv(f(i)) && KeepsGoing(permits, f) && Behaviour(permits, f)
    ensures n >= i && AtRest(f(n))
    decreases Early(f(i)), Late(f(i))
  {
    if AtRest(f(i)) {
      return i;
    }
    var k := GoesOn(permits, f, i);
    n := ReachesRest(permits, f, k);
  }

  /** All that was submitted has been answered, and the answers handed to the session registry. */
  predicate AllAnswered(s: State, submitted: State, key: Key) {
    && Answered(Some(key), s) == Submitted(Some(key), submitted)
    && CountResponses(Some(key), s.sent) + CountResponses(Some(key), s.dropped) == Submitted(Some(key), submitted)
  }

  /**
   Whatever ran before and however the scheduler interleaves the rest, while
   sessions come, go and read their channels and other messages are stored: once
   nothing more is published from outside, and as long as the pipeline is not
   left standing, it comes to rest. From then on each (session, sequence) pair
   has been answered exactly as often as it was submitted.
   */
  lemma EverySubmitIsAnswered(permits: nat, start: State, run: seq<Step>, f: nat -> State)
    requires Starts(start) && Reaches(permits, start, run, f(0))
    requires KeepsGoing(permits, f) && Behaviour(permits, f)
    ensures exists n: nat :: DoneFrom(f, n)
  {
    StartIsGood(start);
    RunKeepsInv(permits, start, run, f(0));
    var n := DoneAtLast(permits, f);
  }

  lemma DoneAtLast(permits: nat, f: nat -> State) returns (n: nat)
    requires Inv(f(0)) && KeepsGoing(permits, f) && Behaviour(permits, f)
    ensures DoneFrom(f, n)
  {
    n := ReachesRest(permits, f, 0);
    forall m: nat | m >= n ensures Done(f(m), f(0)) {
      DoneAfterRest(permits, f, n, m);
    }
  }

  lemma DoneAfterRest(permits: nat, f: nat -> State, n: nat, m: nat)
    requires Inv(f(0)) && Behaviour(permits, f) && AtRest(f(n)) && n <= m
    ensures Done(f(m), f(0))
  {
    LaterFollows(permits, f, 0, n);
    LaterFollows(permits, f, n, m);
    FollowsOn(f(0), f(n), f(m));
    RestIsDone(f(m), f(0));
  }

  /** At rest, with every pair answered as often as it was submitted in `submitted`. */
  ghost predicate Done(s: State, submitted: State) {
    AtRest(s) && forall key: Key :: AllAnswered(s, submitted, key)
  }

  ghost predicate DoneFrom(f: nat -> State, n: nat) {
    forall m: nat | m >= n :: Done(f(m), f(0))
  }

  lemma RestIsDone(s: State, submitted: State)
    requires Follows(s, submitted) && AtRest(s)
    ensures Done(s, submitted)
  {
    forall key: Key ensures AllAnswered(s, submitted, key) {
      RestIsComplete(s, key);
      assert Submitted(Some(key), s) == Submitted(Some(key), submitted);
    }
  }
}
