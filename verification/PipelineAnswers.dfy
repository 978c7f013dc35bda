/**
 What the pipeline answers, over every run: which submits are accepted, which
 clusters a message is offered to, and where the status of each answer comes
 from. Events on the bus say most of it; what upstream clusters replied and
 what the routing table said left no event, so the run's steps are recorded.
 */
module PipelineAnswers {
  import opened Wrappers
  import opened Events
  import opened Pipeline
  import opened PipelineInvariant
  import Decimal

  datatype Record =
    | Looked(envelope: Envelope, route: Option<RouteResult>)
    // the reply of the first of `clusters`, the others not having been tried yet
    | Replied(envelope: Envelope, clusters: seq<string>, reply: Reply)

  /** What a step learns from outside. */
  function Learns(s: State, step: Step): seq<Record> {
    match step
    case RouterStep(route) =>
      if s.router.outbox == [] && s.router.cursor < |s.bus| && s.bus[s.router.cursor].MessageAccepted?
      then [Looked(s.bus[s.router.cursor].envelope, route)] else []
    case TaskStep(i, reply, _) =>
      if i < |s.tasks| && s.tasks[i].phase.Awaiting?
      then [Replied(s.tasks[i].envelope, s.tasks[i].todo, reply)] else []
    case _ => []
  }

  /** All that was learnt in a run, after `past`. */
  function History(permits: nat, s: State, run: seq<Step>, past: seq<Record>): seq<Record>
    decreases |run|
  {
    if run == [] || !Enabled(permits, s, run[0]) then past
    else History(permits, Apply(permits, s, run[0]), run[1..], past + Learns(s, run[0]))
  }

  // -------------------------------------------------------------------------
  // What an event presupposes
  // -------------------------------------------------------------------------

  /** Both addresses are there. */
  predicate Addressed(env: Envelope) {
    env.submit.destAddr != "" && env.submit.sourceAddr != ""
  }

  /** The status of an address check that fails: a missing destination comes first. */
  predicate Rejects(env: Envelope, status: nat) {
    (status == 0x0B && env.submit.destAddr == "") ||
    (status == 0x0A && env.submit.destAddr != "" && env.submit.sourceAddr == "")
  }

  /** Only the last cluster was left, and it refused with this status, or with none, which counts as throttling. */
  ghost predicate LastRefused(past: seq<Record>, env: Envelope, status: nat) {
    exists cluster, code: Option<nat>, message ::
      && Replied(env, [cluster], Refused(code, message)) in past
      && status == if code.Some? then code.value else 0x58
  }

  /** An upstream cluster accepted the message under this id. */
  ghost predicate WasAccepted(past: seq<Record>, env: Envelope, smscMessageId: string) {
    exists clusters :: Replied(env, clusters, Accepted(smscMessageId)) in past
  }

  ghost predicate Fails(bus: seq<Event>, past: seq<Record>, env: Envelope, status: nat) {
    || (MessageSubmitRequest(env) in bus && Rejects(env, status))
    || (Looked(env, None) in past && status == 0x0B)
    || LastRefused(past, env, status)
  }

  /** A response that the envelope's submit has earned. */
  ghost predicate EarnedBy(bus: seq<Event>, past: seq<Record>, env: Envelope, r: Response) {
    && r.session == env.session && r.sequence == env.sequence
    && if r.status == 0 then WasAccepted(past, env, r.messageId)
       else r.messageId == "msg_" + Decimal.Print(env.messageId) && Fails(bus, past, env, r.status)
  }

  ghost predicate Earned(bus: seq<Event>, past: seq<Record>, r: Response) {
    exists env :: EarnedBy(bus, past, env, r)
  }

  /** The cluster tried n-th, counting from one. */
  predicate TriedAt(cluster: string, fallbacks: seq<string>, n: nat, target: string) {
    (n == 1 && target == cluster) || (2 <= n <= 1 + |fallbacks| && target == fallbacks[n - 2])
  }

  ghost predicate Attempted(bus: seq<Event>, messageId: nat, target: string, attempt: nat) {
    exists env, route, cluster, fallbacks ::
      && MessageRouted(env, route, cluster, fallbacks) in bus
      && env.messageId == messageId && TriedAt(cluster, fallbacks, attempt, target)
  }

  /** What must have happened before an event is published. */
  ghost predicate Grounded(bus: seq<Event>, past: seq<Record>, e: Event) {
    match e
    case MessageAccepted(env) => MessageSubmitRequest(env) in bus && Addressed(env)
    case MessageRejected(env, _, status) => MessageSubmitRequest(env) in bus && Rejects(env, status)
    case MessageRouted(env, route, cluster, fallbacks) =>
      MessageAccepted(env) in bus && Looked(env, Some(RouteResult(route, cluster, fallbacks))) in past
    case MessageForwarding(messageId, target, attempt) => Attempted(bus, messageId, target, attempt)
    case ResponseReady(r) => Earned(bus, past, r)
    case _ => true
  }

  lemma GroundedLater(bus: seq<Event>, past: seq<Record>, bus': seq<Event>, past': seq<Record>, e: Event)
    requires bus <= bus' && past <= past' && Grounded(bus, past, e)
    ensures Grounded(bus', past', e)
  {
    if e.ResponseReady? {
      EarnedLater(bus, past, bus', past', e.response);
    }
  }

  lemma EarnedLater(bus: seq<Event>, past: seq<Record>, bus': seq<Event>, past': seq<Record>, r: Response)
    requires bus <= bus' && past <= past' && Earned(bus, past, r)
    ensures Earned(bus', past', r)
  {
    var env :| EarnedBy(bus, past, env, r);
    assert EarnedBy(bus', past', env, r);
  }

  ghost predicate AllGrounded(bus: seq<Event>, past: seq<Record>, es: seq<Event>) {
    forall e | e in es :: Grounded(bus, past, e)
  }

  lemma AllLater(bus: seq<Event>, past: seq<Record>, bus': seq<Event>, past': seq<Record>, es: seq<Event>)
    requires bus <= bus' && past <= past' && AllGrounded(bus, past, es)
    ensures AllGrounded(bus', past', es)
  {
    forall e | e in es ensures Grounded(bus', past', e) {
      GroundedLater(bus, past, bus', past', e);
    }
  }

  // -------------------------------------------------------------------------
  // Tasks
  // -------------------------------------------------------------------------

  /** The refusal that the task remembers is that of the cluster before the ones still to try. */
  predicate Remembers(past: seq<Record>, t: Task, clusters: seq<string>) {
    && |t.todo| < |clusters| && t.lastError.Some?
    && Replied(t.envelope, clusters[|clusters| - |t.todo| - 1..], Refused(t.lastCode, t.lastError.value)) in past
  }

  /** The task goes through these clusters in order. */
  predicate GoesThrough(past: seq<Record>, t: Task, clusters: seq<string>) {
    && |t.todo| <= |clusters| && t.todo == clusters[|clusters| - |t.todo|..]
    && t.attempt == |clusters| - |t.todo| + (if t.phase.Awaiting? then 1 else 0)
    && (|t.todo| == |clusters| || Remembers(past, t, clusters))
  }

  ghost predicate OnItsWay(bus: seq<Event>, past: seq<Record>, t: Task) {
    exists route, cluster, fallbacks ::
      && MessageRouted(t.envelope, route, cluster, fallbacks) in bus
      && GoesThrough(past, t, [cluster] + fallbacks)
  }

  ghost predicate TaskGrounded(bus: seq<Event>, past: seq<Record>, t: Task) {
    if t.phase.Finishing? then AllGrounded(bus, past, t.outbox)
    else OnItsWay(bus, past, t)
  }

  lemma GoesThroughLater(past: seq<Record>, past': seq<Record>, t: Task, clusters: seq<string>)
    requires past <= past' && GoesThrough(past, t, clusters)
    ensures GoesThrough(past', t, clusters)
  {
    forall x | x in past ensures x in past' {
      var i :| 0 <= i < |past| && past[i] == x;
      assert past'[i] == x;
    }
  }

  lemma OnItsWayLater(bus: seq<Event>, past: seq<Record>, bus': seq<Event>, past': seq<Record>, t: Task)
    requires bus <= bus' && past <= past' && OnItsWay(bus, past, t)
    ensures OnItsWay(bus', past', t)
  {
    var route, cluster, fallbacks :|
      MessageRouted(t.envelope, route, cluster, fallbacks) in bus && GoesThrough(past, t, [cluster] + fallbacks);
    var i :| 0 <= i < |bus| && bus[i] == MessageRouted(t.envelope, route, cluster, fallbacks);
    assert bus'[i] == bus[i];
    GoesThroughLater(past, past', t, [cluster] + fallbacks);
  }

  lemma TaskGroundedLater(bus: seq<Event>, past: seq<Record>, bus': seq<Event>, past': seq<Record>, t: Task)
    requires bus <= bus' && past <= past' && TaskGrounded(bus, past, t)
    ensures TaskGrounded(bus', past', t)
  {
    if t.phase.Finishing? {
      AllLater(bus, past, bus', past', t.outbox);
    } else {
      OnItsWayLater(bus, past, bus', past', t);
    }
  }

  /** A new task has all clusters before it: the primary one first, then the fallbacks. */
  lemma NewTaskGrounded(bus: seq<Event>, past: seq<Record>, e: Event)
    requires e.MessageRouted? && e in bus
    ensures TaskGrounded(bus, past, NewTask(e))
  {
    var t, clusters := NewTask(e), [e.cluster] + e.fallbacks;
    assert clusters[|clusters| - |t.todo|..] == clusters;
    assert MessageRouted(t.envelope, e.route, e.cluster, e.fallbacks) in bus && GoesThrough(past, t, clusters);
  }

  /** The next attempt goes to the first cluster not tried yet. */
  lemma AttemptGoesOn(past: seq<Record>, t: Task, cluster: string, fallbacks: seq<string>)
    requires t.phase.Trying? && t.todo != [] && GoesThrough(past, t, [cluster] + fallbacks)
    ensures GoesThrough(past, t.(phase := Awaiting, attempt := t.attempt + 1), [cluster] + fallbacks)
    ensures TriedAt(cluster, fallbacks, t.attempt + 1, t.todo[0])
  {}

  lemma AttemptIsNext(bus: seq<Event>, past: seq<Record>, t: Task)
    requires t.phase.Trying? && t.todo != [] && OnItsWay(bus, past, t)
    ensures OnItsWay(bus, past, t.(phase := Awaiting, attempt := t.attempt + 1))
    ensures Attempted(bus, t.envelope.messageId, t.todo[0], t.attempt + 1)
  {
    var route, cluster, fallbacks :|
      MessageRouted(t.envelope, route, cluster, fallbacks) in bus && GoesThrough(past, t, [cluster] + fallbacks);
    AttemptGoesOn(past, t, cluster, fallbacks);
  }

  lemma AttemptGrounded(bus: seq<Event>, past: seq<Record>, t: Task, reply: Reply)
    requires TaskShape(t) && t.phase.Trying? && t.todo != [] && TaskGrounded(bus, past, t)
    ensures var (t', published) := TaskNext(t, reply, false);
            t'.Some? && TaskGrounded(bus, past, t'.value) && |published| == 1 && Grounded(bus, past, published[0])
  {
    AttemptIsNext(bus, past, t);
  }

  /** A refusal is remembered, and the next cluster is tried. */
  lemma RefusalGoesOn(past: seq<Record>, t: Task, clusters: seq<string>, code: Option<nat>, message: string)
    requires t.phase.Awaiting? && t.todo != [] && GoesThrough(past, t, clusters)
    ensures var t' := t.(phase := Trying, lastError := Some(message), lastCode := code, todo := t.todo[1..]);
            GoesThrough(past + [Replied(t.envelope, t.todo, Refused(code, message))], t', clusters)
  {
    var past' := past + [Replied(t.envelope, t.todo, Refused(code, message))];
    assert past'[|past|] == Replied(t.envelope, t.todo, Refused(code, message));
  }

  lemma RefusalGrounded(bus: seq<Event>, past: seq<Record>, t: Task, code: Option<nat>, message: string)
    requires t.phase.Awaiting? && t.todo != [] && OnItsWay(bus, past, t)
    ensures var t' := t.(phase := Trying, lastError := Some(message), lastCode := code, todo := t.todo[1..]);
            OnItsWay(bus, past + [Replied(t.envelope, t.todo, Refused(code, message))], t')
  {
    var route, cluster, fallbacks :|
      MessageRouted(t.envelope, route, cluster, fallbacks) in bus && GoesThrough(past, t, [cluster] + fallbacks);
    RefusalGoesOn(past, t, [cluster] + fallbacks, code, message);
  }

  lemma AcceptanceGrounded(bus: seq<Event>, past: seq<Record>, t: Task, id: string)
    ensures AllGrounded(bus, past + [Replied(t.envelope, t.todo, Accepted(id))], DeliveredEvents(t.envelope, id))
  {
    var past' := past + [Replied(t.envelope, t.todo, Accepted(id))];
    assert past'[|past|] == Replied(t.envelope, t.todo, Accepted(id));
    var r := Response(t.envelope.session, t.envelope.sequence, id, 0);
    assert WasAccepted(past', t.envelope, id);
    assert EarnedBy(bus, past', t.envelope, r);
    forall e | e in DeliveredEvents(t.envelope, id) ensures Grounded(bus, past', e) {
      assert e.ResponseReady? ==> e.response == r;
    }
  }

  lemma ReplyGrounded(bus: seq<Event>, past: seq<Record>, t: Task, reply: Reply)
    requires TaskShape(t) && t.phase.Awaiting? && TaskGrounded(bus, past, t)
    ensures var (t', published) := TaskNext(t, reply, false);
            && t'.Some? && published == []
            && TaskGrounded(bus, past + [Replied(t.envelope, t.todo, reply)], t'.value)
  {
    match reply
    case Refused(code, message) => RefusalGrounded(bus, past, t, code, message);
    case Accepted(id) => AcceptanceGrounded(bus, past, t, id);
  }

  /** When every cluster has refused, what is remembered is the last one's refusal. */
  lemma LastIsRemembered(past: seq<Record>, t: Task, clusters: seq<string>)
    requires clusters != [] && t.todo == [] && GoesThrough(past, t, clusters)
    ensures t.lastError.Some?
    ensures Replied(t.envelope, [clusters[|clusters| - 1]], Refused(t.lastCode, t.lastError.value)) in past
  {
    assert clusters[|clusters| - 1..] == [clusters[|clusters| - 1]];
  }

  lemma ExhaustedByRefusal(bus: seq<Event>, past: seq<Record>, t: Task)
    requires t.todo == [] && OnItsWay(bus, past, t)
    ensures t.lastError.Some? && LastRefused(past, t.envelope, if t.lastCode.Some? then t.lastCode.value else 0x58)
  {
    var route, cluster, fallbacks :|
      MessageRouted(t.envelope, route, cluster, fallbacks) in bus && GoesThrough(past, t, [cluster] + fallbacks);
    LastIsRemembered(past, t, [cluster] + fallbacks);
  }

  lemma FailureIsEarned(bus: seq<Event>, past: seq<Record>, env: Envelope, status: nat)
    requires status != 0 && Fails(bus, past, env, status)
    ensures Grounded(bus, past, ResponseReady(Response(env.session, env.sequence, "msg_" + Decimal.Print(env.messageId), status)))
  {
    assert EarnedBy(bus, past, env, Response(env.session, env.sequence, "msg_" + Decimal.Print(env.messageId), status));
  }

  /** Then that is the answer. */
  lemma ExhaustedGrounded(bus: seq<Event>, past: seq<Record>, t: Task, reply: Reply)
    requires TaskShape(t) && t.phase.Trying? && t.todo == [] && TaskGrounded(bus, past, t)
    ensures var (t', published) := TaskNext(t, reply, false);
            t'.Some? && published == [] && TaskGrounded(bus, past, t'.value)
  {
    var status := if t.lastCode.Some? then t.lastCode.value else 0x58;
    ExhaustedByRefusal(bus, past, t);
    FailureIsEarned(bus, past, t.envelope, status);
    var outbox := ExhaustedEvents(t.envelope, t.lastError, t.lastCode, false);
    assert outbox == [MessageFailed(t.envelope.messageId, t.envelope.session, t.envelope.sequence, Some(status),
                                    t.lastError.value, true),
                      ResponseReady(Response(t.envelope.session, t.envelope.sequence,
                                             "msg_" + Decimal.Print(t.envelope.messageId), status))];
  }

  lemma FinishingGrounded(bus: seq<Event>, past: seq<Record>, t: Task, reply: Reply)
    requires TaskShape(t) && t.phase.Finishing? && TaskGrounded(bus, past, t)
    ensures var (t', published) := TaskNext(t, reply, false);
            && (t'.Some? ==> TaskGrounded(bus, past, t'.value))
            && |published| == 1 && Grounded(bus, past, published[0])
  {
    assert t.outbox[0] in t.outbox;
  }

  /** One step of a task, with what it learns. */
  lemma TaskNextGrounded(bus: seq<Event>, past: seq<Record>, t: Task, reply: Reply)
    requires TaskShape(t) && TaskGrounded(bus, past, t)
    ensures var (t', published) := TaskNext(t, reply, false);
            var past' := past + if t.phase.Awaiting? then [Replied(t.envelope, t.todo, reply)] else [];
            && (t'.Some? ==> TaskGrounded(bus, past', t'.value))
            && |published| <= 1 && (forall e | e in published :: Grounded(bus, past', e))
  {
    match t.phase
    case Trying =>
      assert past + [] == past;
      if t.todo == [] {
        ExhaustedGrounded(bus, past, t, reply);
      } else {
        AttemptGrounded(bus, past, t, reply);
      }
    case Awaiting => ReplyGrounded(bus, past, t, reply);
    case Finishing =>
      assert past + [] == past;
      FinishingGrounded(bus, past, t, reply);
  }

  // -------------------------------------------------------------------------
  // The whole pipeline
  // -------------------------------------------------------------------------

  ghost predicate BusGrounded(bus: seq<Event>, past: seq<Record>) {
    forall j | 0 <= j < |bus| :: Grounded(bus[..j], past, bus[j])
  }

  ghost predicate TasksGrounded(bus: seq<Event>, past: seq<Record>, ts: seq<Task>) {
    forall i | 0 <= i < |ts| :: TaskGrounded(bus, past, ts[i])
  }

  ghost predicate Good(s: State, past: seq<Record>) {
    && BusGrounded(s.bus, past)
    && AllGrounded(s.bus, past, s.filter.outbox) && AllGrounded(s.bus, past, s.router.outbox)
    && TasksGrounded(s.bus, past, s.tasks)
  }

  lemma BusGrows(bus: seq<Event>, past: seq<Record>, past': seq<Record>, published: seq<Event>)
    requires BusGrounded(bus, past) && past <= past' && |published| <= 1 && AllGrounded(bus, past', published)
    ensures BusGrounded(bus + published, past')
  {
    var bus' := bus + published;
    forall j | 0 <= j < |bus'| ensures Grounded(bus'[..j], past', bus'[j]) {
      if j < |bus| {
        assert bus'[..j] == bus[..j];
        GroundedLater(bus[..j], past, bus[..j], past', bus[j]);
      } else {
        assert bus'[..j] == bus && bus'[j] in published;
      }
    }
  }

  lemma TasksLater(bus: seq<Event>, past: seq<Record>, bus': seq<Event>, past': seq<Record>, ts: seq<Task>)
    requires bus <= bus' && past <= past' && TasksGrounded(bus, past, ts)
    ensures TasksGrounded(bus', past', ts)
  {
    forall i | 0 <= i < |ts| ensures TaskGrounded(bus', past', ts[i]) {
      TaskGroundedLater(bus, past, bus', past', ts[i]);
    }
  }

  /** At most one event is published and some facts learnt; the outboxes and tasks are left to look at. */
  lemma Rest(s: State, past: seq<Record>, published: seq<Event>, past': seq<Record>)
    requires Good(s, past) && past <= past' && |published| <= 1 && AllGrounded(s.bus, past', published)
    ensures Good(s.(bus := s.bus + published), past')
  {
    var bus' := s.bus + published;
    BusGrows(s.bus, past, past', published);
    AllLater(s.bus, past, bus', past', s.filter.outbox);
    AllLater(s.bus, past, bus', past', s.router.outbox);
    TasksLater(s.bus, past, bus', past', s.tasks);
  }

  lemma FilterReactGrounded(bus: seq<Event>, past: seq<Record>, e: Event)
    requires e in bus
    ensures AllGrounded(bus, past, FilterReact(e))
  {
    if e.MessageSubmitRequest? && !Addressed(e.envelope) {
      FailureIsEarned(bus, past, e.envelope, if e.envelope.submit.destAddr == "" then 0x0B else 0x0A);
    }
  }

  lemma RouterReactGrounded(bus: seq<Event>, past: seq<Record>, env: Envelope, route: Option<RouteResult>)
    requires MessageAccepted(env) in bus && Looked(env, route) in past
    ensures AllGrounded(bus, past, RouterReact(env, route))
  {
    if route.None? {
      FailureIsEarned(bus, past, env, 0x0B);
    }
  }

  lemma FilterStepGood(s: State, past: seq<Record>)
    requires Good(s, past) && (s.filter.outbox != [] || s.filter.cursor < |s.bus|)
    ensures Good(StepFilter(s), past)
  {
    if s.filter.outbox != [] {
      assert s.filter.outbox[0] in s.filter.outbox;
      Rest(s, past, [s.filter.outbox[0]], past);
    } else {
      FilterReactGrounded(s.bus, past, s.bus[s.filter.cursor]);
    }
  }

  lemma RouterStepGood(s: State, past: seq<Record>, route: Option<RouteResult>)
    requires Good(s, past) && (s.router.outbox != [] || s.router.cursor < |s.bus|)
    ensures Good(StepRouter(s, route), past + Learns(s, RouterStep(route)))
  {
    var past' := past + Learns(s, RouterStep(route));
    if s.router.outbox != [] {
      assert s.router.outbox[0] in s.router.outbox && past' == past;
      Rest(s, past, [s.router.outbox[0]], past);
    } else {
      var e := s.bus[s.router.cursor];
      Rest(s, past, [], past');
      assert s.bus + [] == s.bus;
      if e.MessageAccepted? {
        assert past'[|past|] == Looked(e.envelope, route);
        RouterReactGrounded(s.bus, past', e.envelope, route);
      }
    }
  }

  lemma ForwarderStepGood(s: State, past: seq<Record>)
    requires Good(s, past) && s.forwarder < |s.bus|
    ensures Good(StepForwarder(s), past)
  {
    var e := s.bus[s.forwarder];
    if e.MessageRouted? {
      NewTaskGrounded(s.bus, past, e);
    }
  }

  lemma TaskReplaced(bus: seq<Event>, past: seq<Record>, ts: seq<Task>, i: nat, t: Option<Task>)
    requires TasksGrounded(bus, past, ts) && i < |ts| && (t.Some? ==> TaskGrounded(bus, past, t.value))
    ensures TasksGrounded(bus, past, if t.Some? then ts[i := t.value] else ts[..i] + ts[i + 1..])
  {}

  lemma OtherTasksGood(s: State, past: seq<Record>, ts: seq<Task>)
    requires Good(s, past) && TasksGrounded(s.bus, past, ts)
    ensures Good(s.(tasks := ts), past)
  {}

  /** A task has gone on to `t` and published; what it learnt is in `past'`. */
  lemma TaskWentOn(s: State, past: seq<Record>, past': seq<Record>, i: nat, t: Option<Task>, published: seq<Event>)
    requires Good(s, past) && past <= past' && i < |s.tasks| && |published| <= 1
    requires AllGrounded(s.bus, past', published) && (t.Some? ==> TaskGrounded(s.bus, past', t.value))
    ensures Good(s.(bus := s.bus + published,
                    tasks := if t.Some? then s.tasks[i := t.value] else s.tasks[..i] + s.tasks[i + 1..]), past')
  {
    var bus' := s.bus + published;
    Rest(s, past, published, past');
    if t.Some? {
      TaskGroundedLater(s.bus, past', bus', past', t.value);
    }
    TaskReplaced(bus', past', s.tasks, i, t);
    OtherTasksGood(s.(bus := bus'), past', if t.Some? then s.tasks[i := t.value] else s.tasks[..i] + s.tasks[i + 1..]);
  }

  lemma TaskStepGood(s: State, past: seq<Record>, i: nat, reply: Reply)
    requires Good(s, past) && TaskShapes(s) && i < |s.tasks|
    ensures Good(StepTask(s, i, reply, false), past + Learns(s, TaskStep(i, reply, false)))
  {
    var (t', published) := TaskNext(s.tasks[i], reply, false);
    TaskNextGrounded(s.bus, past, s.tasks[i], reply);
    TaskWentOn(s, past, past + Learns(s, TaskStep(i, reply, false)), i, t', published);
  }

  lemma OtherStepGood(permits: nat, s: State, past: seq<Record>, step: Step)
    requires Good(s, past) && Enabled(permits, s, step) && (!IsPipeline(step) || step.ResponderStep?)
    ensures Good(Apply(permits, s, step), past + Learns(s, step))
  {
    assert past + [] == past;
    if step.Submit? {
      Rest(s, past, [MessageSubmitRequest(Envelope(s.counter, step.session, step.sequence, step.systemId, step.submit))], past);
    } else if step.PublishOther? {
      Rest(s, past, [step.event], past);
    }
  }

  /** A stored message never has an envelope's id, so no task can schedule a retry. */
  lemma NoRetry(permits: nat, s: State, step: Step)
    requires Ids(s) && Enabled(permits, s, step) && step.TaskStep?
    ensures !step.canRetry
  {
    assert Detached(s, s.tasks[step.index].envelope);
  }

  lemma StepGood(permits: nat, s: State, past: seq<Record>, step: Step)
    requires Inv(s) && Good(s, past) && Enabled(permits, s, step)
    ensures Good(Apply(permits, s, step), past + Learns(s, step))
  {
    if step.FilterStep? {
      FilterStepGood(s, past);
      assert past + [] == past;
    } else if step.RouterStep? {
      RouterStepGood(s, past, step.route);
    } else if step.ForwarderStep? {
      ForwarderStepGood(s, past);
      assert past + [] == past;
    } else if step.TaskStep? {
      NoRetry(permits, s, step);
      TaskStepGood(s, past, step.index, step.reply);
    } else {
      OtherStepGood(permits, s, past, step);
    }
  }

  lemma {:induction false} RunGood(permits: nat, s: State, past: seq<Record>, run: seq<Step>, s': State)
    requires Inv(s) && Good(s, past) && Reaches(permits, s, run, s')
    ensures Good(s', History(permits, s, run, past))
    decreases |run|
  {
    if run != [] {
      StepKeepsInv(permits, s, run[0]);
      StepGood(permits, s, past, run[0]);
      RunGood(permits, Apply(permits, s, run[0]), past + Learns(s, run[0]), run[1..], s');
    }
  }

  // -------------------------------------------------------------------------
  // Every run
  // -------------------------------------------------------------------------

  /**
   In every run, whatever is interleaved, each event comes after what earns it: a
   message is accepted only with both addresses and rejected only without one,
   with that check's status; it is routed as the routing table said; its n-th
   attempt goes to the n-th of the primary cluster and the fallbacks; and an
   answer is a success only with the id an upstream cluster gave, and otherwise
   carries the status of the failed check, of the missing route, or of the last
   cluster's refusal.
   */
  lemma EveryEventIsGrounded(permits: nat, start: State, run: seq<Step>, s: State, j: nat)
    requires Starts(start) && Reaches(permits, start, run, s) && j < |s.bus|
    ensures Grounded(s.bus[..j], History(permits, start, run, []), s.bus[j])
  {
    StartIsGood(start);
    RunGood(permits, start, [], run, s);
  }
}
