/**
 Every step of the pipeline keeps the invariant, so it holds after every run:
 keys are conserved, envelope ids are never stored ids, and a success answer
 always follows a delivery.
 */
module PipelineInvariant {
  import opened Wrappers
  import opened Events
  import opened Pipeline

  // -------------------------------------------------------------------------
  // Key counting
  // -------------------------------------------------------------------------

  lemma {:induction false} CountAppend(who: Who, kind: Kind, a: seq<Event>, b: seq<Event>)
    ensures Count(who, kind, a + b) == Count(who, kind, a) + Count(who, kind, b)
  {
    if a == [] {
      assert a + b == b;
    } else {
      CountAppend(who, kind, a[1..], b);
      assert (a + b)[1..] == a[1..] + b;
    }
  }

  lemma CountTwo(who: Who, kind: Kind, a: Event, b: Event)
    ensures Count(who, kind, [a, b]) == CountIn(who, kind, a) + CountIn(who, kind, b)
  {
    assert [a, b] == [a] + [b];
    CountAppend(who, kind, [a], [b]);
  }

  /** Publishing adds one event to what a reader still has to read. */
  lemma CountPublish(who: Who, kind: Kind, bus: seq<Event>, cursor: nat, e: Event)
    requires cursor <= |bus|
    ensures Count(who, kind, (bus + [e])[cursor..]) == Count(who, kind, bus[cursor..]) + CountIn(who, kind, e)
  {
    assert (bus + [e])[cursor..] == bus[cursor..] + [e];
    CountAppend(who, kind, bus[cursor..], [e]);
  }

  lemma CountRead(who: Who, kind: Kind, bus: seq<Event>, cursor: nat)
    requires cursor < |bus|
    ensures Count(who, kind, bus[cursor..]) == CountIn(who, kind, bus[cursor]) + Count(who, kind, bus[cursor + 1..])
  {
    assert bus[cursor..][1..] == bus[cursor + 1..];
  }

  lemma {:induction false} CountTasksAppend(who: Who, a: seq<Task>, b: seq<Task>)
    ensures CountTasks(who, a + b) == CountTasks(who, a) + CountTasks(who, b)
  {
    if a == [] {
      assert a + b == b;
    } else {
      CountTasksAppend(who, a[1..], b);
      assert (a + b)[1..] == a[1..] + b;
    }
  }

  lemma CountTasksSplit(who: Who, ts: seq<Task>, i: nat)
    requires i < |ts|
    ensures CountTasks(who, ts) ==
            CountTasks(who, ts[..i]) + Hit(who, KeyOf(ts[i].envelope)) + CountTasks(who, ts[i + 1..])
  {
    assert ts == ts[..i] + ts[i..];
    CountTasksAppend(who, ts[..i], ts[i..]);
    assert ts[i..][1..] == ts[i + 1..];
  }

  /** Publishing `e` while nothing else moves. */
  lemma PublishInFlight(who: Who, s: State, e: Event)
    requires Cursors(s)
    ensures var s' := s.(bus := s.bus + [e]);
            && Submitted(who, s') == Submitted(who, s) + CountIn(who, Submits, e)
            && Answered(who, s') == Answered(who, s) + CountIn(who, Answers, e)
            && InFlight(who, s') ==
               InFlight(who, s) + CountIn(who, Submits, e) + CountIn(who, Accepts, e) + CountIn(who, Routes, e)
            && s'.bus[..s.responder] == s.bus[..s.responder]
  {
    CountPublish(who, Submits, s.bus, s.filter.cursor, e);
    CountPublish(who, Accepts, s.bus, s.router.cursor, e);
    CountPublish(who, Routes, s.bus, s.forwarder, e);
    CountAppend(who, Submits, s.bus, [e]);
    CountAppend(who, Answers, s.bus, [e]);
  }

  lemma CountResponsesPush(who: Who, rs: seq<Response>, r: Response)
    ensures CountResponses(who, rs + [r]) == CountResponses(who, rs) + Hit(who, Key(r.session, r.sequence))
  {
    assert (rs + [r])[..|rs|] == rs;
  }

  // -------------------------------------------------------------------------
  // Conservation, one actor at a time
  // -------------------------------------------------------------------------

  lemma FilterPublishConserves(who: Who, s: State)
    requires Cursors(s) && Outboxes(s) && Conserved(who, s) && s.filter.outbox != []
    ensures Cursors(StepFilter(s)) && Conserved(who, StepFilter(s))
  {
    var e := s.filter.outbox[0];
    assert e in s.filter.outbox;
    var s1 := s.(bus := s.bus + [e]);
    PublishInFlight(who, s, e);
    assert InFlight(who, s1) ==
           InFlight(who, StepFilter(s)) + CountIn(who, Accepts, e) + CountIn(who, Answers, e);
  }

  lemma FilterReactCounts(who: Who, e: Event)
    ensures var out := FilterReact(e);
            Count(who, Accepts, out) + Count(who, Answers, out) == CountIn(who, Submits, e)
  {
    var out := FilterReact(e);
    if |out| == 2 {
      CountTwo(who, Accepts, out[0], out[1]);
      CountTwo(who, Answers, out[0], out[1]);
    }
  }

  lemma FilterReadConserves(who: Who, s: State)
    requires Cursors(s) && Conserved(who, s) && s.filter.outbox == [] && s.filter.cursor < |s.bus|
    ensures Cursors(StepFilter(s)) && Conserved(who, StepFilter(s))
  {
    CountRead(who, Submits, s.bus, s.filter.cursor);
    FilterReactCounts(who, s.bus[s.filter.cursor]);
    assert InFlight(who, StepFilter(s)) == InFlight(who, s);
  }

  lemma RouterPublishConserves(who: Who, s: State, route: Option<RouteResult>)
    requires Cursors(s) && Outboxes(s) && Conserved(who, s) && s.router.outbox != []
    ensures Cursors(StepRouter(s, route)) && Conserved(who, StepRouter(s, route))
  {
    var e := s.router.outbox[0];
    assert e in s.router.outbox;
    var s1 := s.(bus := s.bus + [e]);
    PublishInFlight(who, s, e);
    assert InFlight(who, s1) ==
           InFlight(who, StepRouter(s, route)) + CountIn(who, Routes, e) + CountIn(who, Answers, e);
  }

  lemma RouterReactCounts(who: Who, env: Envelope, route: Option<RouteResult>)
    ensures var out := RouterReact(env, route);
            Count(who, Routes, out) + Count(who, Answers, out) == Hit(who, KeyOf(env))
  {
    var out := RouterReact(env, route);
    if |out| == 2 {
      CountTwo(who, Routes, out[0], out[1]);
      CountTwo(who, Answers, out[0], out[1]);
    }
  }

  lemma RouterReadConserves(who: Who, s: State, route: Option<RouteResult>)
    requires Cursors(s) && Conserved(who, s) && s.router.outbox == [] && s.router.cursor < |s.bus|
    ensures Cursors(StepRouter(s, route)) && Conserved(who, StepRouter(s, route))
  {
    var e := s.bus[s.router.cursor];
    CountRead(who, Accepts, s.bus, s.router.cursor);
    if e.MessageAccepted? {
      RouterReactCounts(who, e.envelope, route);
    }
    assert InFlight(who, StepRouter(s, route)) == InFlight(who, s);
  }

  lemma ForwarderConserves(who: Who, s: State)
    requires Cursors(s) && Conserved(who, s) && s.forwarder < |s.bus|
    ensures Cursors(StepForwarder(s)) && Conserved(who, StepForwarder(s))
  {
    var e := s.bus[s.forwarder];
    CountRead(who, Routes, s.bus, s.forwarder);
    if e.MessageRouted? {
      CountTasksAppend(who, s.tasks, [NewTask(e)]);
    }
  }

  lemma ResponderPlaces(who: Who, s: State)
    requires s.responder < |s.bus|
    ensures var s' := StepResponder(s);
            && s' == s.(responder := s.responder + 1, sessions := s'.sessions, sent := s'.sent, dropped := s'.dropped)
            && CountResponses(who, s'.sent) + CountResponses(who, s'.dropped) ==
               CountResponses(who, s.sent) + CountResponses(who, s.dropped) + CountIn(who, Answers, s.bus[s.responder])
  {
    var e := s.bus[s.responder];
    if e.ResponseReady? {
      if Takes(s.sessions, s.closed, e.response.session) {
        CountResponsesPush(who, s.sent, e.response);
      } else {
        CountResponsesPush(who, s.dropped, e.response);
      }
    }
  }

  lemma ResponderConserves(who: Who, s: State)
    requires Cursors(s) && Conserved(who, s) && s.responder < |s.bus|
    ensures Cursors(StepResponder(s)) && Conserved(who, StepResponder(s))
  {
    ResponderPlaces(who, s);
    CountSnoc(who, Answers, s.bus, s.responder);
  }

  lemma CountSnoc(who: Who, kind: Kind, bus: seq<Event>, n: nat)
    requires n < |bus|
    ensures Count(who, kind, bus[..n + 1]) == Count(who, kind, bus[..n]) + CountIn(who, kind, bus[n])
  {
    assert bus[..n + 1] == bus[..n] + [bus[n]];
    CountAppend(who, kind, bus[..n], [bus[n]]);
    assert Count(who, kind, [bus[n]]) == CountIn(who, kind, bus[n]);
  }

  lemma TaskCount(who: Who, s: State, i: nat, reply: Reply, canRetry: bool)
    requires i < |s.tasks|
    ensures var (t', published) := TaskNext(s.tasks[i], reply, canRetry);
            CountTasks(who, StepTask(s, i, reply, canRetry).tasks) ==
            CountTasks(who, s.tasks) - if t'.Some? then 0 else Hit(who, KeyOf(s.tasks[i].envelope))
  {
    var s' := StepTask(s, i, reply, canRetry);
    CountTasksSplit(who, s.tasks, i);
    if TaskNext(s.tasks[i], reply, canRetry).0.Some? {
      CountTasksSplit(who, s'.tasks, i);
      assert s'.tasks[..i] == s.tasks[..i] && s'.tasks[i + 1..] == s.tasks[i + 1..];
    } else {
      CountTasksAppend(who, s.tasks[..i], s.tasks[i + 1..]);
    }
  }

  /** A task publishes an answer exactly when it returns, and then for its own key. */
  lemma TaskAnswers(who: Who, t: Task, reply: Reply, canRetry: bool)
    requires TaskShape(t) && PossibleReply(reply)
    ensures var (t', published) := TaskNext(t, reply, canRetry);
            && |published| <= 1
            && (t'.None? ==> published != [])
            && (published != [] ==>
                  && CountIn(who, Answers, published[0]) == (if t'.None? then Hit(who, KeyOf(t.envelope)) else 0)
                  && CountIn(who, Submits, published[0]) == 0
                  && CountIn(who, Accepts, published[0]) == 0
                  && CountIn(who, Routes, published[0]) == 0)
  {}

  lemma TaskConserves(who: Who, s: State, i: nat, reply: Reply, canRetry: bool)
    requires Cursors(s) && Conserved(who, s) && i < |s.tasks| && TaskShape(s.tasks[i]) && PossibleReply(reply)
    ensures var s' := StepTask(s, i, reply, canRetry); Cursors(s') && Conserved(who, s')
  {
    var t := s.tasks[i];
    var s' := StepTask(s, i, reply, canRetry);
    TaskCount(who, s, i, reply, canRetry);
    TaskAnswers(who, t, reply, canRetry);
    var (t', published) := TaskNext(t, reply, canRetry);
    if published == [] {
      assert s'.bus == s.bus;
      assert t'.Some?;
      TaskQuietConserves(who, s, s');
    } else {
      assert s'.bus == s.bus + [published[0]];
      TaskPublishConserves(who, s, published[0], s');
    }
  }

  lemma TaskQuietConserves(who: Who, s: State, s': State)
    requires Cursors(s) && Conserved(who, s)
    requires s' == s.(tasks := s'.tasks) && CountTasks(who, s'.tasks) == CountTasks(who, s.tasks)
    ensures Cursors(s') && Conserved(who, s')
  {
    assert InFlight(who, s') == InFlight(who, s);
  }

  lemma TaskPublishConserves(who: Who, s: State, e: Event, s': State)
    requires Cursors(s) && Conserved(who, s)
    requires s' == s.(bus := s.bus + [e], tasks := s'.tasks)
    requires CountIn(who, Submits, e) == CountIn(who, Accepts, e) == CountIn(who, Routes, e) == 0
    requires CountTasks(who, s'.tasks) + CountIn(who, Answers, e) == CountTasks(who, s.tasks)
    ensures Cursors(s') && Conserved(who, s')
  {
    PublishInFlight(who, s, e);
    var s1 := s.(bus := s.bus + [e]);
    assert InFlight(who, s') == InFlight(who, s1) + CountTasks(who, s'.tasks) - CountTasks(who, s.tasks);
  }

  // -------------------------------------------------------------------------
  // Shapes, ids and honesty
  // -------------------------------------------------------------------------

  lemma TaskNextShape(t: Task, reply: Reply, canRetry: bool)
    requires TaskShape(t) && PossibleReply(reply)
    ensures var (t', published) := TaskNext(t, reply, canRetry);
            && |published| <= 1
            && (t'.Some? ==> TaskShape(t'.value) && t'.value.envelope == t.envelope)
            && (forall e | e in published :: NoStage(e) || e.MessageForwarding? || e.ResponseReady? || e.MessageDelivered?)
  {}

  lemma PublishIds(s: State, e: Event)
    requires Structural(s) && EventDetached(s, e)
    ensures Structural(s.(bus := s.bus + [e]))
  {
    var s' := s.(bus := s.bus + [e]);
    assert forall i | 0 <= i < |s'.bus| :: EventDetached(s', s'.bus[i]) by {
      assert forall i | 0 <= i < |s.bus| :: s'.bus[i] == s.bus[i] && EventDetached(s, s.bus[i]);
    }
  }

  /** Drawing an id, to store a message under it or not. */
  lemma DrawIds(s: State, keep: bool)
    requires Structural(s)
    ensures Structural(s.(counter := s.counter + 1, stored := if keep then s.stored + {s.counter} else s.stored))
  {
    var s' := s.(counter := s.counter + 1, stored := if keep then s.stored + {s.counter} else s.stored);
    assert forall e: Event | EventDetached(s, e) :: EventDetached(s', e);
  }

  lemma FilterStructural(s: State)
    requires Structural(s) && (s.filter.outbox != [] || s.filter.cursor < |s.bus|)
    ensures Structural(StepFilter(s))
  {
    if s.filter.outbox != [] {
      assert s.filter.outbox[0] in s.filter.outbox;
      PublishIds(s, s.filter.outbox[0]);
      assert forall e | e in s.filter.outbox[1..] :: e in s.filter.outbox && EventDetached(s, e);
    } else {
      assert EventDetached(s, s.bus[s.filter.cursor]);
    }
  }

  lemma RouterStructural(s: State, route: Option<RouteResult>)
    requires Structural(s) && (s.router.outbox != [] || s.router.cursor < |s.bus|)
    ensures Structural(StepRouter(s, route))
  {
    if s.router.outbox != [] {
      assert s.router.outbox[0] in s.router.outbox;
      PublishIds(s, s.router.outbox[0]);
      assert forall e | e in s.router.outbox[1..] :: e in s.router.outbox && EventDetached(s, e);
    } else {
      assert EventDetached(s, s.bus[s.router.cursor]);
      DrawIds(s, true);
    }
  }

  /** Replacing or dropping one task keeps the others as they are. */
  lemma TasksStructural(s: State, i: nat, t: Option<Task>)
    requires Structural(s) && i < |s.tasks|
    requires t.Some? ==> TaskShape(t.value) && Detached(s, t.value.envelope)
    ensures Structural(s.(tasks := if t.Some? then s.tasks[i := t.value] else s.tasks[..i] + s.tasks[i + 1..]))
  {}

  lemma TaskStructural(s: State, i: nat, reply: Reply, canRetry: bool)
    requires Structural(s) && i < |s.tasks| && PossibleReply(reply)
    ensures Structural(StepTask(s, i, reply, canRetry))
  {
    var (t', published) := TaskNext(s.tasks[i], reply, canRetry);
    TaskNextShape(s.tasks[i], reply, canRetry);
    assert Detached(s, s.tasks[i].envelope);
    if published == [] {
      assert s.bus + published == s.bus;
      TasksStructural(s, i, t');
    } else {
      assert s.bus + published == s.bus + [published[0]];
      assert published[0] in published;
      PublishIds(s, published[0]);
      TasksStructural(s.(bus := s.bus + [published[0]]), i, t');
    }
  }

  lemma ForwarderStructural(s: State)
    requires Structural(s) && s.forwarder < |s.bus|
    ensures Structural(StepForwarder(s))
  {
    assert EventDetached(s, s.bus[s.forwarder]);
  }

  lemma SubmitStructural(s: State, env: Envelope)
    requires Structural(s) && env.messageId == s.counter
    ensures Structural(s.(bus := s.bus + [MessageSubmitRequest(env)], counter := s.counter + 1))
  {
    var s1 := s.(counter := s.counter + 1);
    DrawIds(s, false);
    assert s1 == s.(counter := s.counter + 1, stored := s.stored);
    assert env.messageId !in s.stored;
    PublishIds(s1, MessageSubmitRequest(env));
  }

  /** The steps that leave the bus, the cursors and the tasks alone. */
  lemma QuietStructural(s: State, s': State)
    requires Structural(s) && s' == s.(sessions := s'.sessions, closed := s'.closed, stored := s'.stored)
    requires s'.stored <= s.stored
    ensures Structural(s')
  {
    assert forall e: Event | EventDetached(s, e) :: EventDetached(s', e);
  }

  lemma GatewayStructural(permits: nat, s: State, step: Step)
    requires Structural(s) && Enabled(permits, s, step) && !IsPipeline(step)
    ensures Structural(Apply(permits, s, step))
  {
    if step.Submit? {
      SubmitStructural(s, Envelope(s.counter, step.session, step.sequence, step.systemId, step.submit));
    } else if step.PublishOther? {
      PublishIds(s, step.event);
    } else if step.StoreOther? {
      DrawIds(s, true);
    } else {
      QuietStructural(s, Apply(permits, s, step));
    }
  }

  lemma StepStructural(permits: nat, s: State, step: Step)
    requires Structural(s) && Enabled(permits, s, step)
    ensures Structural(Apply(permits, s, step))
  {
    if step.FilterStep? {
      FilterStructural(s);
    } else if step.RouterStep? {
      RouterStructural(s, step.route);
    } else if step.ForwarderStep? {
      ForwarderStructural(s);
    } else if step.ResponderStep? {
      ResponderPlaces(None, s);
    } else if step.TaskStep? {
      TaskStructural(s, step.index, step.reply, step.canRetry);
    } else {
      GatewayStructural(permits, s, step);
    }
  }

  /** Appending events that are not unsupported successes keeps the bus honest. */
  lemma HonestAppend(s: State, e: Event)
    requires Honest(s)
    requires e.ResponseReady? && e.response.status == 0 ==> Delivered(s.bus, e.response)
    ensures Honest(s.(bus := s.bus + [e]))
  {
    var bus' := s.bus + [e];
    forall j | 0 <= j < |bus'| && bus'[j].ResponseReady? && bus'[j].response.status == 0
      ensures Delivered(bus'[..j], bus'[j].response)
    {
      assert bus'[..j] == s.bus[..j];
      if j == |s.bus| {
        assert bus'[..j] == s.bus;
      }
    }
    forall i | 0 <= i < |s.tasks|
      ensures HonestTask(bus', s.tasks[i])
    {
      HonestTaskGrows(s.bus, e, s.tasks[i]);
    }
  }

  lemma HonestTaskGrows(bus: seq<Event>, e: Event, t: Task)
    requires HonestTask(bus, t)
    ensures HonestTask(bus + [e], t)
  {
    if t.outbox != [] && t.outbox[|t.outbox| - 1].ResponseReady? {
      var r := t.outbox[|t.outbox| - 1].response;
      if Delivered(bus, r) {
        var i :| 0 <= i < |bus| && DeliveryOf(bus[i], r);
        assert DeliveryOf((bus + [e])[i], r);
      }
    }
  }

  /** A task's next step is honest as long as the store does not offer a retry. */
  lemma TaskHonest(s: State, i: nat, reply: Reply)
    requires Structural(s) && Honest(s) && i < |s.tasks| && PossibleReply(reply)
    ensures Honest(StepTask(s, i, reply, false))
  {
    var t := s.tasks[i];
    var (t', published) := TaskNext(t, reply, false);
    var s1 := if published == [] then s else s.(bus := s.bus + [published[0]]);
    TaskNextShape(t, reply, false);
    assert HonestTask(s.bus, t);
    if published != [] {
      HonestAppend(s, published[0]);
      assert s.bus + published == s1.bus;
    } else {
      assert s.bus + published == s.bus;
    }
    if t'.Some? {
      if t.phase.Finishing? && DeliveryOf(t.outbox[0], t.outbox[1].response) {
        assert DeliveryOf(s1.bus[|s.bus|], t.outbox[1].response);
      }
      assert HonestTask(s1.bus, t'.value);
    }
  }

  lemma StepHonest(permits: nat, s: State, step: Step)
    requires Structural(s) && Honest(s) && Enabled(permits, s, step)
    ensures Honest(Apply(permits, s, step))
  {
    match step
    case Submit(session, sequence, systemId, submit) =>
      HonestAppend(s, MessageSubmitRequest(Envelope(s.counter, session, sequence, systemId, submit)));
    case PublishOther(e) =>
      HonestAppend(s, e);
    case FilterStep =>
      if s.filter.outbox != [] {
        assert s.filter.outbox[0] in s.filter.outbox;
        HonestAppend(s, s.filter.outbox[0]);
      }
    case RouterStep(_) =>
      if s.router.outbox != [] {
        assert s.router.outbox[0] in s.router.outbox;
        HonestAppend(s, s.router.outbox[0]);
      }
    case TaskStep(i, reply, canRetry) =>
      assert Detached(s, s.tasks[i].envelope);
      TaskHonest(s, i, reply);
    case _ =>
  }

  lemma StepConserved(who: Who, permits: nat, s: State, step: Step)
    requires Structural(s) && Conserved(who, s) && Enabled(permits, s, step)
    ensures var s' := Apply(permits, s, step); Cursors(s') && Conserved(who, s')
  {
    if IsPipeline(step) {
      PipelineConserved(who, permits, s, step);
    } else {
      GatewayConserved(who, permits, s, step);
    }
  }

  /** Only what is on the bus and in a stage counts. */
  lemma QuietConserved(who: Who, s: State, s': State)
    requires Cursors(s) && Conserved(who, s)
    requires s' == s.(sessions := s'.sessions, closed := s'.closed, stored := s'.stored, counter := s'.counter)
    ensures Cursors(s') && Conserved(who, s')
  {
    assert InFlight(who, s') == InFlight(who, s);
  }

  /** One event more that is not an answer: a submitted key is on the bus and in flight, another event is neither. */
  lemma PublishConserved(who: Who, s: State, e: Event)
    requires Cursors(s) && Conserved(who, s) && (e.MessageSubmitRequest? || NoStage(e))
    ensures var s' := s.(bus := s.bus + [e]); Cursors(s') && Conserved(who, s')
  {
    PublishInFlight(who, s, e);
  }

  lemma GatewayConserved(who: Who, permits: nat, s: State, step: Step)
    requires Cursors(s) && Conserved(who, s) && !IsPipeline(step) && Enabled(permits, s, step)
    ensures var s' := Apply(permits, s, step); Cursors(s') && Conserved(who, s')
  {
    var s' := Apply(permits, s, step);
    if step.Submit? || step.PublishOther? {
      var e := s'.bus[|s.bus|];
      var s1 := s.(bus := s.bus + [e]);
      PublishConserved(who, s, e);
      QuietConserved(who, s1, s');
    } else {
      QuietConserved(who, s, s');
    }
  }

  lemma PipelineConserved(who: Who, permits: nat, s: State, step: Step)
    requires Cursors(s) && Outboxes(s) && TaskShapes(s)
    requires Conserved(who, s) && IsPipeline(step) && Enabled(permits, s, step)
    ensures var s' := Apply(permits, s, step); Cursors(s') && Conserved(who, s')
  {
    match step
    case FilterStep =>
      if s.filter.outbox != [] { FilterPublishConserves(who, s); } else { FilterReadConserves(who, s); }
    case RouterStep(route) =>
      if s.router.outbox != [] { RouterPublishConserves(who, s, route); } else { RouterReadConserves(who, s, route); }
    case ForwarderStep => ForwarderConserves(who, s);
    case ResponderStep => ResponderConserves(who, s);
    case TaskStep(i, reply, canRetry) => TaskConserves(who, s, i, reply, canRetry);
  }

  /** Every step of every actor keeps the invariant. */
  lemma StepKeepsInv(permits: nat, s: State, step: Step)
    requires Inv(s) && Enabled(permits, s, step)
    ensures Inv(Apply(permits, s, step))
  {
    StepStructural(permits, s, step);
    forall who: Who ensures Conserved(who, Apply(permits, s, step)) {
      StepConserved(who, permits, s, step);
    }
    StepHonest(permits, s, step);
  }

  lemma {:induction false} RunKeepsInv(permits: nat, s: State, run: seq<Step>, s': State)
    requires Inv(s) && Reaches(permits, s, run, s')
    ensures Inv(s')
    decreases |run|
  {
    if run != [] {
      StepKeepsInv(permits, s, run[0]);
      RunKeepsInv(permits, Apply(permits, s, run[0]), run[1..], s');
    }
  }

  // -------------------------------------------------------------------------
  // What holds in every run from the start of a gateway
  // -------------------------------------------------------------------------

  lemma StartIsGood(s: State)
    requires Starts(s)
    ensures Inv(s)
  {
    forall who: Who ensures Conserved(who, s) {
      assert s.bus == [] && s.tasks == [];
    }
  }

  /**
   Under every interleaving, each (session, sequence) pair was submitted exactly
   as often as it was answered on the bus and as it is still inside one stage,
   and every answer read by the response processor was either put into its
   session's channel or dropped.
   */
  lemma Conservation(permits: nat, start: State, run: seq<Step>, s: State, key: Key)
    requires Starts(start) && Reaches(permits, start, run, s)
    ensures Cursors(s)
    ensures Submitted(Some(key), s) == Answered(Some(key), s) + InFlight(Some(key), s)
    ensures Count(Some(key), Answers, s.bus[..s.responder]) ==
            CountResponses(Some(key), s.sent) + CountResponses(Some(key), s.dropped)
  {
    StartIsGood(start);
    RunKeepsInv(permits, start, run, s);
    assert Conserved(Some(key), s);
  }

  /**
   The store never holds a message under an envelope's id, so a forwarding task
   can never take the retry answer: that branch is unreachable in every run.
   */
  lemma RetryAnswerUnreachable(permits: nat, start: State, run: seq<Step>, s: State, i: nat, reply: Reply)
    requires Starts(start) && Reaches(permits, start, run, s)
    ensures !Enabled(permits, s, TaskStep(i, reply, true))
    ensures forall e | e in s.bus && (e.MessageSubmitRequest? || e.MessageAccepted? || e.MessageRouted?) ::
              e.envelope.messageId !in s.stored
  {
    StartIsGood(start);
    RunKeepsInv(permits, start, run, s);
    NoneStored(s);
    if i < |s.tasks| {
      assert Detached(s, s.tasks[i].envelope);
    }
  }

  lemma NoneStored(s: State)
    requires Ids(s)
    ensures forall e | e in s.bus && (e.MessageSubmitRequest? || e.MessageAccepted? || e.MessageRouted?) ::
              e.envelope.messageId !in s.stored
  {
    forall e | e in s.bus && (e.MessageSubmitRequest? || e.MessageAccepted? || e.MessageRouted?)
      ensures e.envelope.messageId !in s.stored
    {
      var j :| 0 <= j < |s.bus| && s.bus[j] == e;
      assert EventDetached(s, s.bus[j]);
    }
  }

  /** A client is told "success" only after some upstream accepted that very message, and gets its id. */
  lemma SuccessFollowsDelivery(permits: nat, start: State, run: seq<Step>, s: State, j: nat)
    requires Starts(start) && Reaches(permits, start, run, s)
    requires j < |s.bus| && s.bus[j].ResponseReady? && s.bus[j].response.status == 0
    ensures exists i | 0 <= i < j :: DeliveryOf(s.bus[i], s.bus[j].response)
  {
    StartIsGood(start);
    RunKeepsInv(permits, start, run, s);
    assert Delivered(s.bus[..j], s.bus[j].response);
    var i :| 0 <= i < j && DeliveryOf(s.bus[..j][i], s.bus[j].response);
    assert DeliveryOf(s.bus[i], s.bus[j].response);
  }

  // -------------------------------------------------------------------------
  // Session channels
  // -------------------------------------------------------------------------

  /** Channels stay within their capacity and hold only responses addressed to their session. */
  predicate ChannelsOwn(s: State) {
    forall session | session in s.sessions ::
      && |s.sessions[session]| <= CHANNEL_CAPACITY
      && forall r | r in s.sessions[session] :: r.session == session
  }

  /** In every run, no session is ever handed another session's response. */
  lemma {:induction false} RunKeepsChannels(permits: nat, s: State, run: seq<Step>, s': State)
    requires ChannelsOwn(s) && Reaches(permits, s, run, s')
    ensures ChannelsOwn(s')
    decreases |run|
  {
    if run != [] {
      RunKeepsChannels(permits, Apply(permits, s, run[0]), run[1..], s');
    }
  }
}
