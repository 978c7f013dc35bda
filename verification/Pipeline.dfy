/**
 The event-driven message pipeline (src/pipeline/). Four processors read one
 broadcast bus, each at its own cursor, and the forwarder spawns one task per
 routed message. Every publish is a step of its own, so the runs below contain
 every interleaving of the processors, the tasks and the sessions.
 */
module Pipeline {
  import opened Wrappers
  import opened Events

  /** ESME_RINVSRCADR, ESME_RINVDSTADR and ESME_RTHROTTLED. */
  const INVALID_SOURCE: nat := 0x0A
  const INVALID_DESTINATION: nat := 0x0B
  const ALL_CLUSTERS_FAILED: nat := 0x58

  /** Capacity of a session's response channel. */
  const CHANNEL_CAPACITY: nat := 256

  datatype RouteResult = RouteResult(route: string, cluster: string, fallbacks: seq<string>)

  /** What `try_forward_to_cluster` reports; a refusal that carries a status carries a nonzero one. */
  datatype Reply = Accepted(smscMessageId: string) | Refused(code: Option<nat>, message: string)

  predicate PossibleReply(r: Reply) {
    r.Refused? && r.code.Some? ==> r.code.value != 0
  }

  /** A processor that is about to publish `outbox`, and otherwise reads at `cursor`. */
  datatype Processor = Processor(cursor: nat, outbox: seq<Event>)

  datatype Phase = Trying | Awaiting | Finishing

  /** One spawned `forward_message`, at the point its next await or publish is due. */
  datatype Task = Task(envelope: Envelope, todo: seq<string>, attempt: nat,
                       lastError: Option<string>, lastCode: Option<nat>,
                       phase: Phase, outbox: seq<Event>)

  datatype State = State(
    bus: seq<Event>,
    filter: Processor,
    router: Processor,
    forwarder: nat,
    responder: nat,
    tasks: seq<Task>,
    counter: nat,                       // next message id
    stored: set<nat>,                   // ids held by the message store
    sessions: map<nat, seq<Response>>,  // registered sessions and their response channels
    closed: set<nat>,                   // sessions whose receiving end is gone
    sent: seq<Response>,                // responses put into a channel
    dropped: seq<Response>)             // responses the registry could not place

  datatype Step =
    // the rest of the gateway
    | Submit(session: nat, sequence: nat, systemId: string, submit: SubmitSm)
    | PublishOther(event: Event)
    | Register(session: nat)
    | Unregister(session: nat)
    | CloseReceiver(session: nat)
    | Consume(session: nat)
    | StoreOther
    | Forget(id: nat)
    // the pipeline
    | FilterStep
    | RouterStep(route: Option<RouteResult>)
    | ForwarderStep
    | ResponderStep
    | TaskStep(index: nat, reply: Reply, canRetry: bool)

  const Init: State :=
    State([], Processor(0, []), Processor(0, []), 0, 0, [], 0, {}, map[], {}, [], [])

  /** A gateway as it starts: nothing published yet, over whatever a reopened store holds. */
  predicate Starts(s: State) {
    s == Init.(counter := s.counter, stored := s.stored) && forall id | id in s.stored :: id < s.counter
  }

  predicate IsPipeline(step: Step) {
    step.FilterStep? || step.RouterStep? || step.ForwarderStep? || step.ResponderStep? || step.TaskStep?
  }

  // -------------------------------------------------------------------------
  // What each processor does with one event
  // -------------------------------------------------------------------------

  function Reject(env: Envelope, reason: string, status: nat): seq<Event> {
    [MessageRejected(env, reason, status), ResponseReady(Error(env, status))]
  }

  /** `FilterProcessor::process_message`, and nothing for any other event. */
  function FilterReact(e: Event): seq<Event> {
    if CategoryOf(e) != Message || !e.MessageSubmitRequest? then []
    else if e.envelope.submit.destAddr == "" then
      Reject(e.envelope, "empty destination address", INVALID_DESTINATION)
    else if e.envelope.submit.sourceAddr == "" then
      Reject(e.envelope, "empty source address", INVALID_SOURCE)
    else
      [MessageAccepted(e.envelope)]
  }

  /** `RouterProcessor::route_message` after the message was stored. */
  function RouterReact(env: Envelope, result: Option<RouteResult>): seq<Event> {
    match result
    case Some(r) => [MessageRouted(env, r.route, r.cluster, r.fallbacks)]
    case None =>
      [MessageFailed(env.messageId, env.session, env.sequence, Some(INVALID_DESTINATION), "no route found", true),
       ResponseReady(Error(env, INVALID_DESTINATION))]
  }

  function NewTask(e: Event): Task
    requires e.MessageRouted?
  {
    Task(e.envelope, [e.cluster] + e.fallbacks, 0, None, None, Trying, [])
  }

  /** Events a task publishes once an upstream accepted the message. */
  function DeliveredEvents(env: Envelope, smscMessageId: string): seq<Event> {
    [MessageDelivered(env.messageId, env.session, env.sequence, smscMessageId),
     ResponseReady(Success(env, smscMessageId))]
  }

  /** Events a task publishes once every cluster failed. */
  function ExhaustedEvents(env: Envelope, lastError: Option<string>, lastCode: Option<nat>, canRetry: bool)
    : seq<Event>
  {
    var message := if lastError.Some? then lastError.value else "all clusters failed";
    var code := if lastCode.Some? then lastCode.value else ALL_CLUSTERS_FAILED;
    if canRetry then
      [MessageRetryScheduled(env.messageId, 1, 1000, message),
       ResponseReady(Success(env, IdText(env.messageId)))]
    else
      [MessageFailed(env.messageId, env.session, env.sequence, Some(code), message, true),
       ResponseReady(Error(env, code))]
  }

  /** One step of a task: the task afterwards (None once it returned) and what it published. */
  function TaskNext(t: Task, reply: Reply, canRetry: bool): (Option<Task>, seq<Event>) {
    match t.phase
    case Finishing =>
      if |t.outbox| <= 1 then (None, t.outbox)
      else (Some(t.(outbox := t.outbox[1..])), [t.outbox[0]])
    case Trying =>
      if t.todo == [] then
        (Some(t.(phase := Finishing, outbox := ExhaustedEvents(t.envelope, t.lastError, t.lastCode, canRetry))), [])
      else
        (Some(t.(phase := Awaiting, attempt := t.attempt + 1)),
         [MessageForwarding(t.envelope.messageId, t.todo[0], t.attempt + 1)])
    case Awaiting =>
      match reply {
        case Accepted(id) => (Some(t.(phase := Finishing, outbox := DeliveredEvents(t.envelope, id))), [])
        case Refused(code, message) =>
          (Some(t.(phase := Trying, lastError := Some(message), lastCode := code,
                   todo := if t.todo == [] then [] else t.todo[1..])), [])
      }
  }

  // -------------------------------------------------------------------------
  // Steps
  // -------------------------------------------------------------------------

  /** Events that no stage of the pipeline publishes by itself; the rest of the gateway may publish any of them. */
  predicate NoStage(e: Event) {
    !(e.MessageSubmitRequest? || e.MessageAccepted? || e.MessageRejected? || e.MessageRouted? || e.MessageForwarding?
      || e.ResponseReady? || e.MessageDelivered?)
  }

  /**
   When a step can happen. A forwarding task needs a permit, of which there are
   `permits`. The retry answer needs the store to hold the message under the
   envelope's id.
   */
  predicate Enabled(permits: nat, s: State, step: Step) {
    match step
    case Submit(_, _, _, _) => true
    case PublishOther(e) => NoStage(e)
    case Register(_) => true
    case Unregister(_) => true
    case CloseReceiver(_) => true
    case Consume(session) => session in s.sessions && s.sessions[session] != []
    case StoreOther => true
    case Forget(_) => true
    case FilterStep => s.filter.outbox != [] || s.filter.cursor < |s.bus|
    case RouterStep(_) => s.router.outbox != [] || s.router.cursor < |s.bus|
    case ForwarderStep =>
      s.forwarder < |s.bus| && (s.bus[s.forwarder].MessageRouted? ==> |s.tasks| < permits)
    case ResponderStep => s.responder < |s.bus|
    case TaskStep(i, reply, canRetry) =>
      i < |s.tasks| && PossibleReply(reply) && (canRetry ==> s.tasks[i].envelope.messageId in s.stored)
  }

  function StepFilter(s: State): State
    requires s.filter.outbox != [] || s.filter.cursor < |s.bus|
  {
    if s.filter.outbox != [] then
      s.(bus := s.bus + [s.filter.outbox[0]], filter := s.filter.(outbox := s.filter.outbox[1..]))
    else
      s.(filter := Processor(s.filter.cursor + 1, FilterReact(s.bus[s.filter.cursor])))
  }

  function StepRouter(s: State, route: Option<RouteResult>): State
    requires s.router.outbox != [] || s.router.cursor < |s.bus|
  {
    if s.router.outbox != [] then
      s.(bus := s.bus + [s.router.outbox[0]], router := s.router.(outbox := s.router.outbox[1..]))
    else
      var e := s.bus[s.router.cursor];
      if e.MessageAccepted? then
        s.(router := Processor(s.router.cursor + 1, RouterReact(e.envelope, route)),
           stored := s.stored + {s.counter}, counter := s.counter + 1)
      else
        s.(router := Processor(s.router.cursor + 1, []))
  }

  function StepForwarder(s: State): State
    requires s.forwarder < |s.bus|
  {
    var e := s.bus[s.forwarder];
    s.(forwarder := s.forwarder + 1,
       tasks := if e.MessageRouted? then s.tasks + [NewTask(e)] else s.tasks)
  }

  predicate Takes(sessions: map<nat, seq<Response>>, closed: set<nat>, session: nat) {
    session in sessions && session !in closed && |sessions[session]| < CHANNEL_CAPACITY
  }

  /** `SessionRegistry::send_response`: only a registered session that still listens and has room takes the response. */
  function StepResponder(s: State): State
    requires s.responder < |s.bus|
  {
    var e := s.bus[s.responder];
    var s' := s.(responder := s.responder + 1);
    if !e.ResponseReady? then s'
    else
      var r := e.response;
      if Takes(s.sessions, s.closed, r.session) then
        s'.(sessions := s.sessions[r.session := s.sessions[r.session] + [r]], sent := s.sent + [r])
      else
        s'.(dropped := s.dropped + [r])
  }

  function StepTask(s: State, i: nat, reply: Reply, canRetry: bool): State
    requires i < |s.tasks|
  {
    var (t, published) := TaskNext(s.tasks[i], reply, canRetry);
    s.(bus := s.bus + published,
       tasks := if t.Some? then s.tasks[i := t.value] else s.tasks[..i] + s.tasks[i + 1..])
  }

  function Apply(permits: nat, s: State, step: Step): State
    requires Enabled(permits, s, step)
  {
    match step
    case Submit(session, sequence, systemId, submit) =>
      var env := Envelope(s.counter, session, sequence, systemId, submit);
      s.(bus := s.bus + [MessageSubmitRequest(env)], counter := s.counter + 1)
    case PublishOther(e) => s.(bus := s.bus + [e])
    case Register(session) => s.(sessions := s.sessions[session := []], closed := s.closed - {session})
    case Unregister(session) => s.(sessions := s.sessions - {session})
    case CloseReceiver(session) => s.(closed := s.closed + {session})
    case Consume(session) => s.(sessions := s.sessions[session := s.sessions[session][1..]])
    case StoreOther => s.(stored := s.stored + {s.counter}, counter := s.counter + 1)
    case Forget(id) => s.(stored := s.stored - {id})
    case FilterStep => StepFilter(s)
    case RouterStep(route) => StepRouter(s, route)
    case ForwarderStep => StepForwarder(s)
    case ResponderStep => StepResponder(s)
    case TaskStep(i, reply, canRetry) => StepTask(s, i, reply, canRetry)
  }

  /** `s'` is reached from `s` by the steps `run`, each enabled when it is taken. */
  ghost predicate Reaches(permits: nat, s: State, run: seq<Step>, s': State)
    decreases |run|
  {
    if run == [] then s == s'
    else Enabled(permits, s, run[0]) && Reaches(permits, Apply(permits, s, run[0]), run[1..], s')
  }

  // -------------------------------------------------------------------------
  // Where the keys are
  // -------------------------------------------------------------------------

  datatype Kind = Submits | Accepts | Routes | Answers

  /** Which keys to count: one of them, or all. */
  type Who = Option<Key>

  function Hit(who: Who, key: Key): nat {
    if who.None? || who.value == key then 1 else 0
  }

  function CountIn(who: Who, kind: Kind, e: Event): nat {
    match kind
    case Submits => if e.MessageSubmitRequest? then Hit(who, KeyOf(e.envelope)) else 0
    case Accepts => if e.MessageAccepted? then Hit(who, KeyOf(e.envelope)) else 0
    case Routes => if e.MessageRouted? then Hit(who, KeyOf(e.envelope)) else 0
    case Answers =>
      if e.ResponseReady? then Hit(who, Key(e.response.session, e.response.sequence)) else 0
  }

  /** How often `who` occurs in events of one kind. */
  function Count(who: Who, kind: Kind, es: seq<Event>): nat {
    if es == [] then 0 else CountIn(who, kind, es[0]) + Count(who, kind, es[1..])
  }

  function CountTasks(who: Who, ts: seq<Task>): nat {
    if ts == [] then 0 else Hit(who, KeyOf(ts[0].envelope)) + CountTasks(who, ts[1..])
  }

  function CountResponses(who: Who, rs: seq<Response>): nat {
    if rs == [] then 0
    else CountResponses(who, rs[..|rs| - 1]) + Hit(who, Key(rs[|rs| - 1].session, rs[|rs| - 1].sequence))
  }

  function Submitted(who: Who, s: State): nat {
    Count(who, Submits, s.bus)
  }

  function Answered(who: Who, s: State): nat {
    Count(who, Answers, s.bus)
  }

  /** Occurrences still inside a stage: unread, about to be published, or being forwarded. */
  function InFlight(who: Who, s: State): nat
    requires Cursors(s)
  {
    Count(who, Submits, s.bus[s.filter.cursor..])
    + Count(who, Accepts, s.filter.outbox) + Count(who, Answers, s.filter.outbox)
    + Count(who, Accepts, s.bus[s.router.cursor..])
    + Count(who, Routes, s.router.outbox) + Count(who, Answers, s.router.outbox)
    + Count(who, Routes, s.bus[s.forwarder..])
    + CountTasks(who, s.tasks)
  }

  predicate Cursors(s: State) {
    && s.filter.cursor <= |s.bus|
    && s.router.cursor <= |s.bus|
    && s.forwarder <= |s.bus|
    && s.responder <= |s.bus|
  }

  // -------------------------------------------------------------------------
  // Invariant
  // -------------------------------------------------------------------------

  /** Both processors publish only the events of their own stage. */
  predicate Outboxes(s: State) {
    && (forall e | e in s.filter.outbox ::
          e.MessageAccepted? || e.MessageRejected? || (e.ResponseReady? && e.response.status != 0))
    && (forall e | e in s.router.outbox ::
          e.MessageRouted? || e.MessageFailed? || (e.ResponseReady? && e.response.status != 0))
  }

  /** A task that has finished publishes exactly one answer, last, with its own key. */
  predicate TaskShape(t: Task) {
    && (t.lastCode.Some? ==> t.lastCode.value != 0)
    && match t.phase
       case Trying => t.outbox == []
       case Awaiting => t.outbox == [] && t.todo != []
       case Finishing =>
         && 1 <= |t.outbox| <= 2
         && (|t.outbox| == 2 ==> NoStage(t.outbox[0]) || t.outbox[0].MessageDelivered?)
         && t.outbox[|t.outbox| - 1].ResponseReady?
         && var r := t.outbox[|t.outbox| - 1].response;
            Key(r.session, r.sequence) == KeyOf(t.envelope)
  }

  predicate TaskShapes(s: State) {
    forall i | 0 <= i < |s.tasks| :: TaskShape(s.tasks[i])
  }

  /** An envelope's id was drawn before, and is never the id of a stored message. */
  predicate Detached(s: State, env: Envelope) {
    env.messageId < s.counter && env.messageId !in s.stored
  }

  predicate EventDetached(s: State, e: Event) {
    (e.MessageSubmitRequest? || e.MessageAccepted? || e.MessageRouted?) ==> Detached(s, e.envelope)
  }

  predicate Ids(s: State) {
    && (forall id | id in s.stored :: id < s.counter)
    && (forall i | 0 <= i < |s.bus| :: EventDetached(s, s.bus[i]))
    && (forall e | e in s.filter.outbox :: EventDetached(s, e))
    && (forall e | e in s.router.outbox :: EventDetached(s, e))
    && (forall i | 0 <= i < |s.tasks| :: Detached(s, s.tasks[i].envelope))
  }

  predicate Conserved(who: Who, s: State)
    requires Cursors(s)
  {
    && Submitted(who, s) == Answered(who, s) + InFlight(who, s)
    && Count(who, Answers, s.bus[..s.responder]) == CountResponses(who, s.sent) + CountResponses(who, s.dropped)
  }

  /** A delivery event for exactly this response. */
  predicate DeliveryOf(e: Event, r: Response) {
    && e.MessageDelivered?
    && e.session == r.session && e.sequence == r.sequence
    && e.smscMessageId == r.messageId
  }

  ghost predicate Delivered(bus: seq<Event>, r: Response) {
    exists i | 0 <= i < |bus| :: DeliveryOf(bus[i], r)
  }

  /** Every success on the bus, or about to be published alone, follows its delivery. */
  ghost predicate HonestTask(bus: seq<Event>, t: Task) {
    t.phase.Finishing? && t.outbox != [] && t.outbox[|t.outbox| - 1].ResponseReady? &&
    t.outbox[|t.outbox| - 1].response.status == 0 ==>
      var r := t.outbox[|t.outbox| - 1].response;
      if |t.outbox| == 2 then DeliveryOf(t.outbox[0], r) else Delivered(bus, r)
  }

  ghost predicate Honest(s: State) {
    && (forall j | 0 <= j < |s.bus| ::
          s.bus[j].ResponseReady? && s.bus[j].response.status == 0 ==> Delivered(s.bus[..j], s.bus[j].response))
    && (forall i | 0 <= i < |s.tasks| :: HonestTask(s.bus, s.tasks[i]))
  }

  predicate Structural(s: State) {
    Cursors(s) && Outboxes(s) && TaskShapes(s) && Ids(s)
  }

  ghost predicate Inv(s: State) {
    Structural(s) && Honest(s) && forall who: Who :: Conserved(who, s)
  }
}
