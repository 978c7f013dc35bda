/**
 The bus, the subscriptions, the processors' handlers and the session registry
 as objects that are changed in place. Each handler publishes exactly what the
 steps of `Pipeline` say, in the same order.
 */
module Processors {
  import opened Wrappers
  import opened Events
  import opened Pipeline

  class Bus {
    var events: seq<Event>
    var receivers: nat
    var published: nat
    var dropped: nat
    var byCategory: map<Category, nat>
    ghost var offered: seq<Event>

    constructor (receivers: nat)
      ensures events == [] && offered == [] && this.receivers == receivers && Counted()
    {
      this.receivers := receivers;
      events, published, dropped, byCategory, offered := [], 0, 0, map[], [];
    }

    /** The statistics agree with what was offered to the bus and what it could deliver. */
    ghost predicate Counted()
      reads this
    {
      && published == |offered| == |events| + dropped
      && forall c :: (if c in byCategory then byCategory[c] else 0) == InCategory(offered, c)
    }

    /** Reaches every subscriber; without any, the event is dropped and counted as such. */
    method Publish(e: Event)
      modifies this
      ensures receivers == old(receivers) && offered == old(offered) + [e]
      ensures receivers > 0 ==> events == old(events) + [e] && dropped == old(dropped)
      ensures receivers == 0 ==> events == old(events) && dropped == old(dropped) + 1
      ensures old(Counted()) ==> Counted()
    {
      published := published + 1;
      var c := CategoryOf(e);
      byCategory := byCategory[c := (if c in byCategory then byCategory[c] else 0) + 1];
      ghost var before := offered;
      offered := offered + [e];
      assert offered[..|before|] == before;
      if receivers > 0 {
        events := events + [e];
      } else {
        dropped := dropped + 1;
      }
    }
  }

  function InCategory(es: seq<Event>, c: Category): nat {
    if es == [] then 0 else InCategory(es[..|es| - 1], c) + if CategoryOf(es[|es| - 1]) == c then 1 else 0
  }

  predicate Wanted(categories: seq<Category>, e: Event) {
    categories == [] || CategoryOf(e) in categories
  }

  class FilteredSubscription {
    const bus: Bus
    const categories: seq<Category>
    var cursor: nat

    constructor (bus: Bus, categories: seq<Category>)
      ensures this.bus == bus && this.categories == categories && cursor == |bus.events|
    {
      this.bus := bus;
      this.categories := categories;
      cursor := |bus.events|;
    }

    /** The next wanted event, skipping none that is wanted; nothing only when none is left. */
    method TryRecv() returns (r: Option<Event>)
      requires cursor <= |bus.events|
      modifies this
      ensures old(cursor) <= cursor <= |bus.events|
      ensures r.Some? ==> cursor > old(cursor) && bus.events[cursor - 1] == r.value && Wanted(categories, r.value)
      ensures r.None? ==> cursor == |bus.events|
      ensures forall i | old(cursor) <= i < (if r.Some? then cursor - 1 else cursor) :: !Wanted(categories, bus.events[i])
    {
      while cursor < |bus.events|
        invariant old(cursor) <= cursor <= |bus.events|
        invariant forall i | old(cursor) <= i < cursor :: !Wanted(categories, bus.events[i])
      {
        var e := bus.events[cursor];
        cursor := cursor + 1;
        if categories == [] || CategoryOf(e) in categories {
          return Some(e);
        }
      }
      return None;
    }
  }

  // -------------------------------------------------------------------------
  // Handlers; a running processor is itself subscribed
  // -------------------------------------------------------------------------

  method RejectMessage(bus: Bus, env: Envelope, reason: string, status: nat)
    requires bus.receivers > 0
    modifies bus
    ensures bus.receivers == old(bus.receivers)
    ensures bus.events == old(bus.events) + Reject(env, reason, status)
  {
    bus.Publish(MessageRejected(env, reason, status));
    bus.Publish(ResponseReady(Error(env, status)));
  }

  method ProcessMessage(bus: Bus, env: Envelope)
    requires bus.receivers > 0
    modifies bus
    ensures bus.receivers == old(bus.receivers)
    ensures bus.events == old(bus.events) + FilterReact(MessageSubmitRequest(env))
  {
    if env.submit.destAddr == "" {
      RejectMessage(bus, env, "empty destination address", INVALID_DESTINATION);
      return;
    }
    if env.submit.sourceAddr == "" {
      RejectMessage(bus, env, "empty source address", INVALID_SOURCE);
      return;
    }
    bus.Publish(MessageAccepted(env));
  }

  method RouteMessage(bus: Bus, env: Envelope, result: Option<RouteResult>)
    requires bus.receivers > 0
    modifies bus
    ensures bus.receivers == old(bus.receivers)
    ensures bus.events == old(bus.events) + RouterReact(env, result)
  {
    match result {
      case Some(r) => bus.Publish(MessageRouted(env, r.route, r.cluster, r.fallbacks));
      case None =>
        bus.Publish(MessageFailed(env.messageId, env.session, env.sequence, Some(INVALID_DESTINATION),
                                  "no route found", true));
        bus.Publish(ResponseReady(Error(env, INVALID_DESTINATION)));
    }
  }

  // -------------------------------------------------------------------------
  // Session registry
  // -------------------------------------------------------------------------

  class SessionRegistry {
    var sessions: map<nat, seq<Response>>
    var closed: set<nat>

    constructor ()
      ensures Shown(Init)
    {
      sessions, closed := map[], {};
    }

    /** The registry as the pipeline's state has it. */
    ghost predicate Shown(s: State)
      reads this
    {
      s.sessions == sessions && s.closed == closed
    }

    /** The registration step of the pipeline: an empty channel with its receiver, and no other touched. */
    method Register(session: nat)
      modifies this
      ensures forall s: State | old(Shown(s)) :: Shown(Apply(0, s, Step.Register(session)))
    {
      sessions := sessions[session := []];
      closed := closed - {session};
    }

    method Unregister(session: nat)
      modifies this
      ensures forall s: State | old(Shown(s)) :: Shown(Apply(0, s, Step.Unregister(session)))
    {
      if session in sessions {
        sessions := sessions - {session};
      } else {
        assert sessions - {session} == sessions;
      }
    }

    /** The session dropped its receiving end. */
    method CloseReceiver(session: nat)
      modifies this
      ensures forall s: State | old(Shown(s)) :: Shown(Apply(0, s, Step.CloseReceiver(session)))
    {
      closed := closed + {session};
    }

    /** Puts the response into its own session's channel and no other, or leaves all channels alone. */
    method SendResponse(r: Response) returns (sent: bool)
      modifies this
      ensures sent <==> Takes(old(sessions), old(closed), r.session)
      ensures sent <==> r.session in old(sessions) && r.session !in closed && |old(sessions)[r.session]| < 256
      ensures sessions == if sent then old(sessions)[r.session := old(sessions)[r.session] + [r]] else old(sessions)
      ensures closed == old(closed)
    {
      if r.session in sessions {
        if r.session in closed {
          return false;
        } else if |sessions[r.session]| < CHANNEL_CAPACITY {
          sessions := sessions[r.session := sessions[r.session] + [r]];
          return true;
        } else {
          return false;
        }
      } else {
        return false;
      }
    }
  }

  /** What the response processor does with one event is the responder step of the pipeline. */
  method Respond(registry: SessionRegistry, e: Event) returns (sent: bool)
    modifies registry
    ensures forall s: State | s.responder < |s.bus| && s.bus[s.responder] == e && old(registry.Shown(s)) ::
              && registry.Shown(StepResponder(s))
              && |StepResponder(s).sent| == |s.sent| + if sent then 1 else 0
  {
    if e.ResponseReady? {
      sent := registry.SendResponse(e.response);
    } else {
      sent := false;
    }
  }
}
