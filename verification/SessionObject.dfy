/**
 The session as an object whose handlers update the connection in place. Run
 without interference, the loop over any inputs is one of the runs of the step
 automaton, so everything proved about runs holds for it.
 */
module SessionObject {
  import opened Wrappers
  import opened Events
  import opened Session
  import opened SessionService

  /** Steps left until the session is back at its loop. */
  function Rank(pc: Pc): nat {
    match pc
    case Dispatch(_, _, _) => 5
    case SetUnbinding => 4
    case SetSystemId(_) => 4
    case SetBound(_) => 3
    case SendUnbindResp => 3
    case SetClosed => 2
    case Publish(_, _) => 1
    case Send(_) => 1
    case _ => 0
  }

  /** Handlers only ever get here with the bind they dispatched on. */
  predicate WellFormed(pc: Pc) {
    match pc
    case SetSystemId(bind) => bind.Bind?
    case SetBound(bind) => bind.Bind?
    case _ => true
  }

  /** The rest of one handler, run without interference. */
  function Settle(c: Config, s: State, sendOk: bool, messageId: nat): State
    requires WellFormed(s.pc)
    decreases Rank(s.pc)
  {
    if Rank(s.pc) == 0 then s else Settle(c, OnRun(c, s, sendOk, messageId), sendOk, messageId)
  }

  lemma SettleSend(c: Config, s: State, sendOk: bool, messageId: nat)
    requires s.pc == Send(true)
    ensures Settle(c, s, sendOk, messageId) == if sendOk then s.(pc := LoopTop) else Stop(s)
  {}

  lemma SettleUnbind(c: Config, s: State, sendOk: bool, messageId: nat)
    requires s.pc.SetUnbinding?
    ensures var s' := s.(log := s.log + [Unbound]);
            Settle(c, s, sendOk, messageId) ==
            if sendOk then s'.(connection := Closed, pc := LoopTop) else Stop(s'.(connection := Unbinding))
  {
    var s1 := OnRun(c, s, sendOk, messageId);
    assert Settle(c, s, sendOk, messageId) == Settle(c, s1, sendOk, messageId);
    var s2 := OnRun(c, s1, sendOk, messageId);
    assert Settle(c, s1, sendOk, messageId) == Settle(c, s2, sendOk, messageId);
    if sendOk {
      var s3 := OnRun(c, s2, sendOk, messageId);
      assert Settle(c, s2, sendOk, messageId) == Settle(c, s3, sendOk, messageId);
      assert s3 == s2.(connection := Closed, pc := LoopTop);
    }
  }

  lemma SettleBind(c: Config, s: State, sendOk: bool, messageId: nat)
    requires s.pc.SetSystemId? && s.pc.bind.Bind?
    ensures var s' := OnRun(c, OnRun(c, s, sendOk, messageId), sendOk, messageId);
            Settle(c, s, sendOk, messageId) == if sendOk then s'.(pc := LoopTop) else Stop(s')
  {
    var s1 := OnRun(c, s, sendOk, messageId);
    var s2 := OnRun(c, s1, sendOk, messageId);
    assert Settle(c, s1, sendOk, messageId) == Settle(c, s2, sendOk, messageId);
    SettleSend(c, s2, sendOk, messageId);
  }

  lemma SettleDispatch(c: Config, s: State, sendOk: bool, messageId: nat)
    requires s.pc.Dispatch?
    ensures var s' := OnDispatch(c, s, s.pc.pdu, s.pc.sequence, s.pc.seen);
            Settle(c, s, sendOk, messageId) ==
            match s'.pc {
              case Send(_) => if sendOk then s'.(pc := LoopTop) else Stop(s')
              case Publish(_, _) => OnRun(c, s', true, messageId)
              case SetSystemId(_) =>
                var b := OnRun(c, OnRun(c, s', sendOk, messageId), sendOk, messageId);
                if sendOk then b.(pc := LoopTop) else Stop(b)
              case SetUnbinding =>
                var u := s'.(log := s'.log + [Unbound]);
                if sendOk then u.(connection := Closed, pc := LoopTop) else Stop(u.(connection := Unbinding))
              case _ => s'
            }
  {
    var s' := OnDispatch(c, s, s.pc.pdu, s.pc.sequence, s.pc.seen);
    assert Settle(c, s, sendOk, messageId) == Settle(c, s', sendOk, messageId);
    match s'.pc
    case Send(_) => SettleSend(c, s', sendOk, messageId);
    case SetSystemId(_) => SettleBind(c, s', sendOk, messageId);
    case SetUnbinding => SettleUnbind(c, s', sendOk, messageId);
    case Publish(_, _) =>
      var p := OnRun(c, s', sendOk, messageId);
      assert Settle(c, s', sendOk, messageId) == Settle(c, p, sendOk, messageId) == p;
    case LoopTop =>
  }

  lemma {:induction false} SettleReaches(c: Config, s: State, sendOk: bool, messageId: nat) returns (run: seq<Action>)
    requires WellFormed(s.pc)
    ensures Reaches(c, s, run, Settle(c, s, sendOk, messageId))
    decreases Rank(s.pc)
  {
    if Rank(s.pc) == 0 {
      return [];
    }
    var a := Run(sendOk, messageId);
    var rest := SettleReaches(c, Apply(c, s, a), sendOk, messageId);
    run := [a] + rest;
    assert run[1..] == rest;
  }

  lemma ReachesFirst(c: Config, s: State, a: Action, rest: seq<Action>, t: State)
    requires Enabled(s, a) && Reaches(c, Apply(c, s, a), rest, t)
    ensures Reaches(c, s, [a] + rest, t)
  {
    assert ([a] + rest)[1..] == rest;
  }

  lemma {:induction false} ReachesAppend(c: Config, s: State, a: seq<Action>, m: State, b: seq<Action>, t: State)
    requires Reaches(c, s, a, m) && Reaches(c, m, b, t)
    ensures Reaches(c, s, a + b, t)
    decreases |a|
  {
    if a == [] {
      assert a + b == b;
    } else {
      var next := Apply(c, s, a[0]);
      ReachesAppend(c, next, a[1..], m, b, t);
      ReachesFirst(c, s, a[0], a[1..] + b, t);
      assert a + b == [a[0]] + (a[1..] + b);
    }
  }

  class SmppSession {
    const config: Config
    var connection: ConnectionState
    var systemId: Option<string>
    var closing: bool
    var pending: set<nat>
    var nextSequence: nat
    ghost var log: seq<Entry>

    constructor (c: Config)
      ensures config == c && View(LoopTop) == Init
    {
      config := c;
      connection := Open;
      systemId := None;
      closing := false;
      pending := {};
      nextSequence := 1;
      log := [];
    }

    ghost function View(pc: Pc): State
      reads this
    {
      State(connection, systemId, closing, pending, nextSequence, pc, log)
    }

    /** The three bind handlers; they differ in the bind type only. */
    method HandleBind(pdu: Pdu, sendOk: bool, ghost messageId: nat) returns (ok: bool)
      requires pdu.Bind?
      modifies this
      ensures View(Send(true)) ==
              if Authorized(config, pdu.kind, pdu.systemId, pdu.password)
              then OnRun(config, OnRun(config, old(View(SetSystemId(pdu))), sendOk, messageId), sendOk, messageId)
              else old(View(Send(true)))
      ensures ok == sendOk
    {
      ok := sendOk;
      var creds := config.validate(pdu.systemId, pdu.password);
      if creds.None? {
        return;
      }
      if !creds.value.enabled {
        return;
      }
      if !BindAllowed(creds.value, pdu.kind) {
        return;
      }
      if !IpAllowed(creds.value, config.peerIp) {
        return;
      }
      systemId := Some(pdu.systemId);
      connection := StateFor(pdu.kind);
      log := log + [Bound(pdu.kind, pdu.systemId, pdu.password)];
    }

    method HandleUnbind(sendOk: bool) returns (ok: bool)
      modifies this
      ensures ok == sendOk
      ensures View(if ok then LoopTop else SendUnbindResp) ==
              old(View(LoopTop)).(connection := if ok then Closed else Unbinding, log := old(log) + [Unbound],
                                  pc := if ok then LoopTop else SendUnbindResp)
    {
      connection := Unbinding;
      log := log + [Unbound];
      if !sendOk {
        return false;
      }
      connection := Closed;
      return true;
    }

    method HandleSubmitSm(sequence: nat, submit: Events.SubmitSm, messageId: nat)
      modifies this
      ensures View(LoopTop) == OnRun(config, old(View(Publish(sequence, submit))), true, messageId)
    {
      var clientSystemId := if systemId.Some? then systemId.value else "";
      ghost var envelope := Envelope(messageId, config.session, sequence, clientSystemId, submit);
      log := log + [Published(envelope)];
    }

    /** `handle_pdu` for a request frame. */
    method HandlePdu(pdu: Pdu, sequence: nat, sendOk: bool, messageId: nat) returns (ok: bool)
      requires !pdu.Reply?
      modifies this
      ensures var s := Settle(config, OnInput(old(View(Waiting)), Frame(pdu, sequence)), sendOk, messageId);
              if ok then View(LoopTop) == s else Stop(View(Stopped)) == s
      ensures pdu.SubmitSm? ==>
                && connection == old(connection) && systemId == old(systemId)
                && if old(connection) == BoundTx || old(connection) == BoundTrx then
                     var sender := if systemId.Some? then systemId.value else "";
                     ok && log == old(log) + [Published(Envelope(messageId, config.session, sequence, sender, pdu.submit))]
                   else ok == sendOk && log == old(log)
      ensures pdu.Bind? ==>
                && ok == sendOk
                && if old(connection) == Open && Admits(config, pdu.kind, pdu.systemId, pdu.password) then
                     && log == old(log) + [Bound(pdu.kind, pdu.systemId, pdu.password)]
                     && systemId == Some(pdu.systemId)
                     && match pdu.kind {
                          case Transmitter => connection == BoundTx
                          case Receiver => connection == BoundRx
                          case Transceiver => connection == BoundTrx
                        }
                   else log == old(log) && systemId == old(systemId) && connection == old(connection)
    {
      var seen := connection;
      if pdu.Bind? {
        AdmittedIsAuthorized(config, pdu.kind, pdu.systemId, pdu.password);
      }
      SettleDispatch(config, OnInput(View(Waiting), Frame(pdu, sequence)), sendOk, messageId);
      match pdu {
        case Bind(_, _, _) =>
          if seen != Open {
            ok := sendOk;
          } else {
            ok := HandleBind(pdu, sendOk, messageId);
          }
        case Unbind =>
          if !IsBound(connection) {
            ok := sendOk;
          } else {
            ok := HandleUnbind(sendOk);
          }
        case SubmitSm(submit) =>
          if !CanSend(connection) {
            ok := sendOk;
          } else {
            HandleSubmitSm(sequence, submit, messageId);
            ok := true;
          }
        case EnquireLink => ok := sendOk;
        case Unsupported => ok := sendOk;
      }
    }

    /** One arm of the loop's `select!`. */
    method HandleInput(input: Input, sendOk: bool, messageId: nat) returns (ok: bool)
      modifies this
      ensures var s := Settle(config, OnInput(old(View(Waiting)), input), sendOk, messageId);
              if ok then View(LoopTop) == s else Stop(View(Stopped)) == s
    {
      match input {
        case Frame(pdu, sequence) =>
          if pdu.Reply? {
            pending := pending - {sequence};
            ok := true;
          } else {
            ok := HandlePdu(pdu, sequence, sendOk, messageId);
          }
        case DecodeError => ok := false;
        case PeerClosed => ok := false;
        case IdleTimeout =>
          if IsBound(connection) {
            pending := pending + {nextSequence};
            nextSequence := nextSequence + 1;
            ok := sendOk;
          } else {
            ok := false;
          }
        case AsyncResponse(_) => ok := true;
        case Tick(timedOut) =>
          pending := pending - timedOut;
          ok := true;
      }
    }

    /** `initiate_close`: both steps of a close, with nothing in between. */
    method InitiateClose()
      modifies this
      ensures closing && connection == Closed
      ensures forall pc :: View(pc) == Apply(config, Apply(config, old(View(pc)), CloseFlag), CloseState)
    {
      log := if closing then log else log + [CloseRequested];
      closing := true;
      connection := Closed;
    }

    /** `run_loop` over the inputs it receives, with the outcome of each send and each drawn id. */
    method RunLoop(inputs: seq<Input>, sends: seq<bool>, ids: seq<nat>)
      returns (stopped: bool, ghost run: seq<Action>)
      requires |sends| == |ids| == |inputs|
      modifies this
      ensures Reaches(config, old(View(LoopTop)), run, View(if stopped then Stopped else LoopTop))
      ensures stopped ==> connection == Closed
    {
      run := [];
      stopped := false;
      for i := 0 to |inputs|
        invariant !stopped && Reaches(config, old(View(LoopTop)), run, View(LoopTop))
      {
        ghost var top := View(LoopTop);
        ghost var awake := [Run(true, 0)];
        assert awake[1..] == [];
        if closing {
          connection := Closed;
          ReachesAppend(config, old(View(LoopTop)), run, top, awake, View(Stopped));
          run := run + awake;
          return true, run;
        }
        ghost var waiting := View(Waiting);
        ReachesAppend(config, old(View(LoopTop)), run, top, awake, waiting);
        ghost var received := OnInput(waiting, inputs[i]);
        ghost var receive := [Receive(inputs[i])];
        assert receive[1..] == [];
        assert Reaches(config, waiting, receive, received);
        var ok := HandleInput(inputs[i], sends[i], ids[i]);
        ghost var settled := Settle(config, received, sends[i], ids[i]);
        ghost var rest := SettleReaches(config, received, sends[i], ids[i]);
        ReachesAppend(config, waiting, receive, received, rest, settled);
        ReachesAppend(config, old(View(LoopTop)), run + awake, waiting, receive + rest, settled);
        run := run + awake + (receive + rest);
        if !ok {
          connection := Closed;
          return true, run;
        }
      }
    }
  }

  /**
   A client binds on an open session and submits: the message is published, with
   the bound system id, if and only if the credentials admit the bind and it is
   not for receiving only.
   */
  method SubmitAfterBind(session: SmppSession, kind: BindType, systemId: string, password: string, bindSequence: nat,
                         submit: Events.SubmitSm, sequence: nat, messageId: nat)
    requires session.connection == Open
    modifies session
    ensures var admitted := Admits(session.config, kind, systemId, password);
            session.log == old(session.log)
                           + (if admitted then [Bound(kind, systemId, password)] else [])
                           + (if admitted && kind != Receiver
                              then [Published(Envelope(messageId, session.config.session, sequence, systemId, submit))]
                              else [])
  {
    var bound := session.HandlePdu(Bind(kind, systemId, password), bindSequence, true, 0);
    var served := session.HandlePdu(Pdu.SubmitSm(submit), sequence, true, messageId);
  }
}
