/**
 The SMPP session state machine (src/listener/session.rs over
 src/listener/connection.rs). A session handles one input at a time, but each
 read and write of the shared connection is a step of its own, because
 `initiate_close` may run between any two of them.
 */
module Session {
  import opened Wrappers
  import opened Events

  datatype ConnectionState = Open | BoundTx | BoundRx | BoundTrx | Unbinding | Closed

  predicate CanSend(s: ConnectionState) {
    s.BoundTx? || s.BoundTrx?
  }

  predicate IsBound(s: ConnectionState) {
    s.BoundTx? || s.BoundRx? || s.BoundTrx?
  }

  datatype BindType = Transmitter | Receiver | Transceiver

  function StateFor(kind: BindType): ConnectionState {
    match kind
    case Transmitter => BoundTx
    case Receiver => BoundRx
    case Transceiver => BoundTrx
  }

  /** A network is the set of addresses in it. */
  datatype Credentials = Credentials(systemId: string, password: string, allowedBindTypes: seq<BindType>,
                                     allowedIps: seq<set<nat>>, enabled: bool)

  predicate BindAllowed(c: Credentials, kind: BindType) {
    c.allowedBindTypes == [] || kind in c.allowedBindTypes
  }

  predicate IpAllowed(c: Credentials, ip: nat) {
    c.allowedIps == [] || exists net | net in c.allowedIps :: ip in net
  }

  /** What a session is created with; any credential store can stand behind `validate`. */
  datatype Config = Config(session: nat, peerIp: nat, validate: (string, string) -> Option<Credentials>)

  predicate Authorized(c: Config, kind: BindType, systemId: string, password: string) {
    var creds := c.validate(systemId, password);
    creds.Some? && creds.value.enabled && BindAllowed(creds.value, kind) && IpAllowed(creds.value, c.peerIp)
  }

  datatype Pdu =
    | Bind(kind: BindType, systemId: string, password: string)
    | Unbind
    | EnquireLink
    | SubmitSm(submit: Events.SubmitSm)
    | Reply             // any PDU with the response bit
    | Unsupported

  datatype Input =
    | Frame(pdu: Pdu, sequence: nat)
    | DecodeError
    | PeerClosed
    | IdleTimeout
    | AsyncResponse(response: Response)
    | Tick(timedOut: set<nat>)

  /** What the rest of the gateway can observe, in order. */
  datatype Entry =
    | Bound(kind: BindType, systemId: string, password: string)
    | Published(envelope: Envelope)
    | Unbound
    | CloseRequested

  /** The next thing the session does. */
  datatype Pc =
    | LoopTop
    | Waiting
    | Dispatch(pdu: Pdu, sequence: nat, seen: ConnectionState)
    | SetSystemId(bind: Pdu)
    | SetBound(bind: Pdu)
    | Send(stopOnError: bool)
    | SetUnbinding
    | SendUnbindResp
    | SetClosed
    | Publish(sequence: nat, submit: Events.SubmitSm)
    | Stopped

  datatype State = State(connection: ConnectionState, systemId: Option<string>, closing: bool,
                         pending: set<nat>, nextSequence: nat, pc: Pc, log: seq<Entry>)

  const Init: State := State(Open, None, false, {}, 1, LoopTop, [])

  datatype Action =
    | CloseFlag                                // first half of `initiate_close`
    | CloseState                               // second half
    | Receive(input: Input)
    | Run(sendOk: bool, messageId: nat)

  predicate Enabled(s: State, a: Action) {
    match a
    case CloseFlag => true
    case CloseState => s.closing
    case Receive(_) => s.pc.Waiting?
    case Run(_, _) => !s.pc.Waiting? && !s.pc.Stopped?
  }

  function Stop(s: State): State {
    s.(connection := Closed, pc := Stopped)
  }

  /** The `select!` arm taken for one input. */
  function OnInput(s: State, input: Input): State {
    match input
    case Frame(pdu, sequence) =>
      if pdu.Reply? then s.(pending := s.pending - {sequence}, pc := LoopTop)
      else s.(pc := Dispatch(pdu, sequence, s.connection))
    case DecodeError => Stop(s)
    case PeerClosed => Stop(s)
    case IdleTimeout =>
      if IsBound(s.connection) then
        s.(pending := s.pending + {s.nextSequence}, nextSequence := s.nextSequence + 1, pc := Send(true))
      else Stop(s)
    case AsyncResponse(_) => s.(pc := Send(false))
    case Tick(timedOut) => s.(pending := s.pending - timedOut, pc := LoopTop)
  }

  /** `handle_pdu`'s match; unbind and submit read the connection state again. */
  function OnDispatch(c: Config, s: State, pdu: Pdu, sequence: nat, seen: ConnectionState): State {
    match pdu
    case Bind(kind, systemId, password) =>
      if seen == Open && Authorized(c, kind, systemId, password) then s.(pc := SetSystemId(pdu))
      else s.(pc := Send(true))
    case Unbind => s.(pc := if IsBound(s.connection) then SetUnbinding else Send(true))
    case SubmitSm(submit) =>
      s.(pc := if CanSend(s.connection) then Publish(sequence, submit) else Send(true))
    case Reply => s.(pc := LoopTop)
    case EnquireLink => s.(pc := Send(true))
    case Unsupported => s.(pc := Send(true))
  }

  function OnRun(c: Config, s: State, sendOk: bool, messageId: nat): State {
    match s.pc
    case LoopTop => if s.closing then Stop(s) else s.(pc := Waiting)
    case Dispatch(pdu, sequence, seen) => OnDispatch(c, s, pdu, sequence, seen)
    case SetSystemId(bind) =>
      if bind.Bind? then s.(systemId := Some(bind.systemId), pc := SetBound(bind)) else s
    case SetBound(bind) =>
      if bind.Bind? then
        s.(connection := StateFor(bind.kind), pc := Send(true),
           log := s.log + [Bound(bind.kind, bind.systemId, bind.password)])
      else s
    case Send(stopOnError) => if !sendOk && stopOnError then Stop(s) else s.(pc := LoopTop)
    case SetUnbinding => s.(connection := Unbinding, pc := SendUnbindResp, log := s.log + [Unbound])
    case SendUnbindResp => if sendOk then s.(pc := SetClosed) else Stop(s)
    case SetClosed => s.(connection := Closed, pc := LoopTop)
    case Publish(sequence, submit) =>
      var systemId := if s.systemId.Some? then s.systemId.value else "";
      s.(pc := LoopTop,
         log := s.log + [Published(Envelope(messageId, c.session, sequence, systemId, submit))])
    case Waiting => s
    case Stopped => s
  }

  function Apply(c: Config, s: State, a: Action): State
    requires Enabled(s, a)
  {
    match a
    case CloseFlag => s.(closing := true, log := if s.closing then s.log else s.log + [CloseRequested])
    case CloseState => s.(connection := Closed)
    case Receive(input) => OnInput(s, input)
    case Run(sendOk, messageId) => OnRun(c, s, sendOk, messageId)
  }

  ghost predicate Reaches(c: Config, s: State, run: seq<Action>, s': State)
    decreases |run|
  {
    if run == [] then s' == s
    else Enabled(s, run[0]) && Reaches(c, Apply(c, s, run[0]), run[1..], s')
  }

  // -------------------------------------------------------------------------
  // What the log says
  // -------------------------------------------------------------------------

  /** The successful binds, in order. */
  function Binds(log: seq<Entry>): seq<Entry> {
    if log == [] then []
    else Binds(log[..|log| - 1]) + if log[|log| - 1].Bound? then [log[|log| - 1]] else []
  }

  predicate WasUnbound(log: seq<Entry>) {
    Unbound in log
  }

  /** Publishes since the close was requested. */
  function PublishedSinceClose(log: seq<Entry>): nat {
    if log == [] || CloseRequested !in log then 0
    else PublishedSinceClose(log[..|log| - 1]) + if log[|log| - 1].Published? then 1 else 0
  }

  /** The session has bound exactly once, authorized, in a sending role, as this system id, and not unbound. */
  predicate MaySubmit(c: Config, log: seq<Entry>, systemId: string) {
    && |Binds(log)| == 1
    && Binds(log)[0].Bound?
    && Binds(log)[0].kind != Receiver
    && Binds(log)[0].systemId == systemId
    && Authorized(c, Binds(log)[0].kind, Binds(log)[0].systemId, Binds(log)[0].password)
    && !WasUnbound(log)
  }

  // -------------------------------------------------------------------------
  // Invariant
  // -------------------------------------------------------------------------

  /** Still before any bind succeeded. */
  predicate Fresh(s: State) {
    Binds(s.log) == [] && !WasUnbound(s.log)
  }

  /** Bound once; the system id is that bind's. */
  predicate BoundOnce(c: Config, s: State) {
    && |Binds(s.log)| == 1
    && var b := Binds(s.log)[0];
       && b.Bound?
       && s.systemId == Some(b.systemId)
       && Authorized(c, b.kind, b.systemId, b.password)
  }

  predicate AuthorizedBind(c: Config, pdu: Pdu) {
    pdu.Bind? && Authorized(c, pdu.kind, pdu.systemId, pdu.password)
  }

  predicate ConnectionAgrees(c: Config, s: State) {
    && (Fresh(s) || BoundOnce(c, s))
    && (s.connection.Open? ==> Fresh(s))
    && (IsBound(s.connection) ==>
          BoundOnce(c, s) && !WasUnbound(s.log) && StateFor(Binds(s.log)[0].kind) == s.connection)
  }

  predicate PcAgrees(c: Config, s: State) {
    match s.pc
    case Dispatch(_, _, seen) => seen == Open ==> Fresh(s)
    case SetSystemId(bind) => Fresh(s) && AuthorizedBind(c, bind)
    case SetBound(bind) => Fresh(s) && AuthorizedBind(c, bind) && s.systemId == Some(bind.systemId)
    case SetUnbinding => BoundOnce(c, s)
    case Publish(_, _) => BoundOnce(c, s) && !WasUnbound(s.log) && Binds(s.log)[0].kind != Receiver
    case _ => true
  }

  predicate GoodAt(c: Config, log: seq<Entry>, j: nat)
    requires j < |log|
  {
    log[j].Published? ==>
      MaySubmit(c, log[..j], log[j].envelope.systemId) && log[j].envelope.session == c.session
  }

  predicate LogGood(c: Config, log: seq<Entry>) {
    forall j: nat | j < |log| :: GoodAt(c, log, j)
  }

  predicate CloseGood(s: State) {
    && (CloseRequested in s.log <==> s.closing)
    && PublishedSinceClose(s.log) <= (if s.pc.LoopTop? || s.pc.Stopped? then 1 else 0)
  }

  predicate PendingGood(s: State) {
    forall k | k in s.pending :: 1 <= k < s.nextSequence
  }

  predicate Inv(c: Config, s: State) {
    && ConnectionAgrees(c, s) && PcAgrees(c, s) && LogGood(c, s.log) && CloseGood(s)
    && PendingGood(s) && s.nextSequence >= 1
  }

  lemma LogPush(c: Config, log: seq<Entry>, e: Entry)
    ensures Binds(log + [e]) == Binds(log) + if e.Bound? then [e] else []
    ensures WasUnbound(log + [e]) <==> WasUnbound(log) || e.Unbound?
    ensures PublishedSinceClose(log + [e]) ==
            PublishedSinceClose(log) + if e.Published? && CloseRequested in log then 1 else 0
    ensures LogGood(c, log) &&
            (e.Published? ==> MaySubmit(c, log, e.envelope.systemId) && e.envelope.session == c.session)
            ==> LogGood(c, log + [e])
  {
    assert (log + [e])[..|log|] == log;
    if CloseRequested !in log {
      NothingBeforeClose(log);
    }
    if LogGood(c, log) && (e.Published? ==> MaySubmit(c, log, e.envelope.systemId) && e.envelope.session == c.session) {
      forall j: nat | j < |log| + 1 ensures GoodAt(c, log + [e], j) {
        assert (log + [e])[..j] == if j < |log| then log[..j] else log;
        if j < |log| {
          assert GoodAt(c, log, j);
        }
      }
    }
  }

  lemma NothingBeforeClose(log: seq<Entry>)
    requires CloseRequested !in log
    ensures PublishedSinceClose(log) == 0
  {}

  lemma InputKeepsInv(c: Config, s: State, input: Input)
    requires Inv(c, s) && s.pc.Waiting?
    ensures Inv(c, OnInput(s, input))
  {}

  /** Moving on without touching anything shared. */
  lemma PcKeepsInv(c: Config, s: State, s': State)
    requires Inv(c, s) && !s.pc.LoopTop? && !s.pc.Stopped?
    requires s' == s.(pc := s'.pc) && PcAgrees(c, s')
    ensures Inv(c, s')
  {
    assert ConnectionAgrees(c, s');
  }

  lemma DispatchKeepsInv(c: Config, s: State)
    requires Inv(c, s) && s.pc.Dispatch?
    ensures Inv(c, OnDispatch(c, s, s.pc.pdu, s.pc.sequence, s.pc.seen))
  {
    var s' := OnDispatch(c, s, s.pc.pdu, s.pc.sequence, s.pc.seen);
    DispatchAgrees(c, s);
    PcKeepsInv(c, s, s');
  }

  lemma DispatchAgrees(c: Config, s: State)
    requires ConnectionAgrees(c, s) && PcAgrees(c, s) && s.pc.Dispatch?
    ensures var s' := OnDispatch(c, s, s.pc.pdu, s.pc.sequence, s.pc.seen);
            s' == s.(pc := s'.pc) && PcAgrees(c, s')
  {
    match s.pc.pdu
    case Bind(_, _, _) =>
    case Unbind =>
    case SubmitSm(_) =>
    case _ =>
  }

  lemma BindKeepsInv(c: Config, s: State, sendOk: bool, messageId: nat)
    requires Inv(c, s) && (s.pc.SetBound? || s.pc.SetSystemId?)
    ensures Inv(c, OnRun(c, s, sendOk, messageId))
  {
    if s.pc.SetBound? {
      LogPush(c, s.log, Bound(s.pc.bind.kind, s.pc.bind.systemId, s.pc.bind.password));
    }
  }

  lemma UnbindKeepsInv(c: Config, s: State, sendOk: bool, messageId: nat)
    requires Inv(c, s) && s.pc.SetUnbinding?
    ensures Inv(c, OnRun(c, s, sendOk, messageId))
  {
    var log := s.log + [Unbound];
    LogPush(c, s.log, Unbound);
    UnbindAgrees(c, s, log);
    var s' := s.(connection := Unbinding, pc := SendUnbindResp, log := log);
    assert CloseGood(s') && PendingGood(s') && PcAgrees(c, s');
    assert OnRun(c, s, sendOk, messageId) == s';
  }

  lemma UnbindAgrees(c: Config, s: State, log: seq<Entry>)
    requires BoundOnce(c, s) && Binds(log) == Binds(s.log)
    ensures ConnectionAgrees(c, s.(connection := Unbinding, pc := SendUnbindResp, log := log))
  {}

  lemma UnbindRespKeepsInv(c: Config, s: State, sendOk: bool, messageId: nat)
    requires Inv(c, s) && (s.pc.SendUnbindResp? || s.pc.SetClosed?)
    ensures Inv(c, OnRun(c, s, sendOk, messageId))
  {}

  lemma PublishKeepsInv(c: Config, s: State, sendOk: bool, messageId: nat)
    requires Inv(c, s) && s.pc.Publish?
    ensures Inv(c, OnRun(c, s, sendOk, messageId))
  {
    LogPush(c, s.log, Published(Envelope(messageId, c.session, s.pc.sequence, s.systemId.value, s.pc.submit)));
  }

  /** Closing the connection for good, or going back to the loop. */
  lemma StopKeepsInv(c: Config, s: State)
    requires Inv(c, s)
    ensures Inv(c, Stop(s))
  {}

  lemma ContinueKeepsInv(c: Config, s: State)
    requires Inv(c, s) && (s.pc.LoopTop? ==> !s.closing)
    ensures Inv(c, s.(pc := if s.pc.LoopTop? then Waiting else LoopTop))
  {
    var s' := s.(pc := if s.pc.LoopTop? then Waiting else LoopTop);
    assert ConnectionAgrees(c, s');
    if s.pc.LoopTop? {
      NothingBeforeClose(s.log);
    }
  }

  lemma LoopKeepsInv(c: Config, s: State, sendOk: bool, messageId: nat)
    requires Inv(c, s) && (s.pc.LoopTop? || s.pc.Send?)
    ensures Inv(c, OnRun(c, s, sendOk, messageId))
  {
    if (s.pc.LoopTop? && s.closing) || (s.pc.Send? && !sendOk && s.pc.stopOnError) {
      StopKeepsInv(c, s);
    } else {
      ContinueKeepsInv(c, s);
    }
  }

  lemma CloseKeepsInv(c: Config, s: State)
    requires Inv(c, s)
    ensures Inv(c, Apply(c, s, CloseFlag))
    ensures s.closing ==> Inv(c, Apply(c, s, CloseState))
  {
    LogPush(c, s.log, CloseRequested);
    if !s.closing {
      NothingBeforeClose(s.log);
    }
  }

  lemma StepKeepsInv(c: Config, s: State, a: Action)
    requires Inv(c, s) && Enabled(s, a)
    ensures Inv(c, Apply(c, s, a))
  {
    match a
    case CloseFlag => CloseKeepsInv(c, s);
    case CloseState => CloseKeepsInv(c, s);
    case Receive(input) => InputKeepsInv(c, s, input);
    case Run(sendOk, messageId) =>
      if s.pc.Dispatch? {
        DispatchKeepsInv(c, s);
      } else if s.pc.SetBound? || s.pc.SetSystemId? {
        BindKeepsInv(c, s, sendOk, messageId);
      } else if s.pc.Publish? {
        PublishKeepsInv(c, s, sendOk, messageId);
      } else if s.pc.LoopTop? || s.pc.Send? {
        LoopKeepsInv(c, s, sendOk, messageId);
      } else if s.pc.SetUnbinding? {
        UnbindKeepsInv(c, s, sendOk, messageId);
      } else {
        UnbindRespKeepsInv(c, s, sendOk, messageId);
      }
  }

  lemma {:induction false} RunKeepsInv(c: Config, s: State, run: seq<Action>, s': State)
    requires Inv(c, s) && Reaches(c, s, run, s')
    ensures Inv(c, s')
    decreases |run|
  {
    if run != [] {
      StepKeepsInv(c, s, run[0]);
      RunKeepsInv(c, Apply(c, s, run[0]), run[1..], s');
    }
  }

  // -------------------------------------------------------------------------
  // Every run of a session
  // -------------------------------------------------------------------------

  /**
   Over every sequence of inputs, with a close at any point: each published
   message follows the one successful bind of the session, as transmitter or
   transceiver, with enabled credentials that allow that bind type and the
   peer's address; it carries that bind's system id and this session's id; and
   no unbind came before it.
   */
  lemma PublishesOnlyWhileBound(c: Config, run: seq<Action>, s: State, j: nat)
    requires Reaches(c, Init, run, s)
    requires j < |s.log| && s.log[j].Published?
    ensures |Binds(s.log)| == 1
    ensures MaySubmit(c, s.log[..j], s.log[j].envelope.systemId)
    ensures s.log[j].envelope.session == c.session
  {
    RunKeepsInv(c, Init, run, s);
    assert GoodAt(c, s.log, j);
    BindsGrow(s.log, j);
  }

  lemma {:induction false} BindsGrow(log: seq<Entry>, j: nat)
    requires j <= |log|
    ensures |Binds(log[..j])| <= |Binds(log)|
    decreases |log| - j
  {
    if j == |log| {
      assert log[..j] == log;
    } else {
      BindsGrow(log, j + 1);
      assert log[..j + 1][..j] == log[..j];
    }
  }

  /**
   A session binds at most once, publishes at most one message after a close was
   requested, and never reuses the sequence number of a pending request.
   */
  lemma SessionBounds(c: Config, run: seq<Action>, s: State)
    requires Reaches(c, Init, run, s)
    ensures |Binds(s.log)| <= 1
    ensures PublishedSinceClose(s.log) <= 1
    ensures s.nextSequence !in s.pending
  {
    RunKeepsInv(c, Init, run, s);
  }
}
