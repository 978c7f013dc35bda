/**
 What a session does for a client that behaves: over every run, an admitted bind
 binds, a bound transmitter or transceiver is served, and an unbind closes. A
 frame is handled alone if no close is requested before the session waits again.
 */
module SessionService {
  import opened Wrappers
  import opened Events
  import opened Session

  /** The credentials are valid and enabled, and allow this kind of bind from this peer. */
  predicate Admits(c: Config, kind: BindType, systemId: string, password: string) {
    var found := c.validate(systemId, password);
    && found.Some? && found.value.enabled
    && (kind in found.value.allowedBindTypes || |found.value.allowedBindTypes| == 0)
    && (|found.value.allowedIps| == 0 ||
        exists i | 0 <= i < |found.value.allowedIps| :: c.peerIp in found.value.allowedIps[i])
  }

  lemma AdmittedIsAuthorized(c: Config, kind: BindType, systemId: string, password: string)
    ensures Admits(c, kind, systemId, password) <==> Authorized(c, kind, systemId, password)
  {}

  // -------------------------------------------------------------------------
  // The connection follows the binds
  // -------------------------------------------------------------------------

  predicate Settled(s: State) {
    s.pc.Waiting? || s.pc.Stopped?
  }

  /** Nobody has closed or unbound the session. */
  predicate Undisturbed(s: State) {
    !s.closing && !s.pc.Stopped? && !WasUnbound(s.log)
  }

  /** Open until the bind, and then in the role that was bound. */
  predicate InRole(s: State) {
    if Binds(s.log) == [] then s.connection == Open
    else
      && Binds(s.log)[0].Bound?
      && match Binds(s.log)[0].kind
         case Transmitter => s.connection == BoundTx
         case Receiver => s.connection == BoundRx
         case Transceiver => s.connection == BoundTrx
  }

  /** The unbinding of a session that is being unbound was logged. */
  predicate Follows(s: State) {
    (Undisturbed(s) ==> InRole(s)) && (s.pc.SendUnbindResp? || s.pc.SetClosed? ==> WasUnbound(s.log))
  }

  lemma BindFollows(c: Config, s: State, sendOk: bool, messageId: nat)
    requires Inv(c, s) && Follows(s) && s.pc.SetBound?
    ensures Follows(OnRun(c, s, sendOk, messageId))
  {
    LogPush(c, s.log, Bound(s.pc.bind.kind, s.pc.bind.systemId, s.pc.bind.password));
  }

  lemma UnbindFollows(c: Config, s: State, sendOk: bool, messageId: nat)
    requires Follows(s) && s.pc.SetUnbinding?
    ensures Follows(OnRun(c, s, sendOk, messageId))
  {
    LogPush(c, s.log, Unbound);
  }

  lemma PublishFollows(c: Config, s: State, sendOk: bool, messageId: nat)
    requires Follows(s) && s.pc.Publish?
    ensures Follows(OnRun(c, s, sendOk, messageId))
  {
    var s' := OnRun(c, s, sendOk, messageId);
    LogPush(c, s.log, s'.log[|s.log|]);
  }

  /** The other steps leave the log alone, and the connection unless the session has been unbound or stops. */
  lemma QuietFollows(c: Config, s: State, sendOk: bool, messageId: nat)
    requires Follows(s) && !s.pc.SetBound? && !s.pc.SetUnbinding? && !s.pc.Publish? && !Settled(s)
    ensures Follows(OnRun(c, s, sendOk, messageId))
  {
    var s' := OnRun(c, s, sendOk, messageId);
    assert s'.log == s.log && s'.closing == s.closing;
    assert s'.connection == s.connection || s'.pc.Stopped? || s.pc.SetClosed?;
  }

  lemma InputFollows(s: State, input: Input)
    requires Follows(s) && s.pc.Waiting?
    ensures Follows(OnInput(s, input))
  {
    var s' := OnInput(s, input);
    assert s'.log == s.log && (s'.connection == s.connection || s'.pc.Stopped?);
  }

  lemma StepFollows(c: Config, s: State, a: Action)
    requires Inv(c, s) && Follows(s) && Enabled(s, a)
    ensures Follows(Apply(c, s, a))
  {
    match a
    case CloseFlag => LogPush(c, s.log, CloseRequested);
    case CloseState =>
    case Receive(input) => InputFollows(s, input);
    case Run(sendOk, messageId) =>
      if s.pc.SetBound? {
        BindFollows(c, s, sendOk, messageId);
      } else if s.pc.SetUnbinding? {
        UnbindFollows(c, s, sendOk, messageId);
      } else if s.pc.Publish? {
        PublishFollows(c, s, sendOk, messageId);
      } else {
        QuietFollows(c, s, sendOk, messageId);
      }
  }

  lemma {:induction false} RunFollows(c: Config, s: State, run: seq<Action>, s': State)
    requires Inv(c, s) && Follows(s) && Reaches(c, s, run, s')
    ensures Inv(c, s') && Follows(s')
    decreases |run|
  {
    if run != [] {
      StepKeepsInv(c, s, run[0]);
      StepFollows(c, s, run[0]);
      RunFollows(c, Apply(c, s, run[0]), run[1..], s');
    }
  }

  /** In every run: as long as nobody closes or unbinds it, the connection is in the role of its one bind. */
  lemma ConnectionIsInRole(c: Config, run: seq<Action>, s: State)
    requires Reaches(c, Init, run, s) && !s.pc.Stopped?
    requires CloseRequested !in s.log && !WasUnbound(s.log)
    ensures InRole(s) && |Binds(s.log)| <= 1 && !s.closing
    ensures Binds(s.log) != [] ==> s.systemId == Some(Binds(s.log)[0].systemId)
  {
    RunFollows(c, Init, run, s);
  }

  // -------------------------------------------------------------------------
  // Handling one input
  // -------------------------------------------------------------------------

  /** The session runs and nobody else does. */
  predicate Alone(run: seq<Action>) {
    forall i | 0 <= i < |run| :: run[i].Run?
  }

  /** From waiting, `input` is received and handled alone until the session waits again or has stopped. */
  ghost predicate Handles(c: Config, s: State, input: Input, run: seq<Action>, s': State) {
    s.pc.Waiting? && Alone(run) && Settled(s') && Reaches(c, s, [Receive(input)] + run, s')
  }

  lemma Received(c: Config, s: State, input: Input, run: seq<Action>, s': State)
    requires Handles(c, s, input, run, s')
    ensures Reaches(c, OnInput(s, input), run, s')
  {
    var all := [Receive(input)] + run;
    assert all[0] == Receive(input) && all[1..] == run;
  }

  lemma NextRun(c: Config, s: State, run: seq<Action>, s': State) returns (next: State)
    requires Reaches(c, s, run, s') && Alone(run) && Settled(s') && !Settled(s)
    ensures run != [] && next == OnRun(c, s, run[0].sendOk, run[0].messageId)
    ensures Reaches(c, next, run[1..], s') && Alone(run[1..])
  {
    next := Apply(c, s, run[0]);
  }

  /** From the top of the loop the session waits again, unless a close was requested. */
  lemma BackToWaiting(c: Config, s: State, run: seq<Action>, s': State)
    requires Reaches(c, s, run, s') && Alone(run) && Settled(s') && s.pc.LoopTop? && !s.closing
    ensures s' == s.(pc := Waiting)
  {
    var s1 := NextRun(c, s, run, s');
    Done(c, s1, run[1..], s');
  }

  lemma Done(c: Config, s: State, run: seq<Action>, s': State)
    requires Reaches(c, s, run, s') && Alone(run) && Settled(s)
    ensures s' == s
  {}

  /** A response is sent; if it cannot be, the session stops. */
  lemma Responds(c: Config, s: State, run: seq<Action>, s': State)
    requires Reaches(c, s, run, s') && Alone(run) && Settled(s') && s.pc == Send(true) && !s.closing
    ensures run != []
    ensures s' == if run[0].sendOk then s.(pc := Waiting) else s.(connection := Closed, pc := Stopped)
  {
    var s1 := NextRun(c, s, run, s');
    if run[0].sendOk {
      BackToWaiting(c, s1, run[1..], s');
    } else {
      Done(c, s1, run[1..], s');
    }
  }

  // -------------------------------------------------------------------------
  // Every run of a session
  // -------------------------------------------------------------------------

  /**
   In every run: a submit frame that a session handles alone, while nobody has
   closed or unbound it, is published with this session's id, the frame's
   sequence number and the bound system id if and only if the session is bound
   as transmitter or transceiver; otherwise nothing is.
   */
  lemma SubmitIsPublishedIff(c: Config, run: seq<Action>, s: State, submit: Events.SubmitSm, sequence: nat,
                             handling: seq<Action>, s': State) returns (messageId: nat)
    requires Reaches(c, Init, run, s) && CloseRequested !in s.log && !WasUnbound(s.log)
    requires Handles(c, s, Frame(Pdu.SubmitSm(submit), sequence), handling, s')
    ensures if Binds(s.log) != [] && Binds(s.log)[0].Bound? && Binds(s.log)[0].kind != Receiver
            then
              && s'.pc.Waiting?
              && s'.log == s.log + [Published(Envelope(messageId, c.session, sequence, Binds(s.log)[0].systemId, submit))]
            else s'.log == s.log
  {
    ConnectionIsInRole(c, run, s);
    var input := Frame(Pdu.SubmitSm(submit), sequence);
    Received(c, s, input, handling, s');
    var s1 := NextRun(c, OnInput(s, input), handling, s');
    if s1.pc.Publish? {
      var s2 := NextRun(c, s1, handling[1..], s');
      messageId := handling[1..][0].messageId;
      BackToWaiting(c, s2, handling[1..][1..], s');
    } else {
      messageId := 0;
      Responds(c, s1, handling[1..], s');
    }
  }

  /**
   In every run: a bind frame that an unbound session handles alone, while nobody
   has closed it, binds it under the given system id if and only if the
   credentials admit it; a session that is bound is not bound again.
   */
  lemma BindIsAcceptedIff(c: Config, run: seq<Action>, s: State, kind: BindType, systemId: string, password: string,
                          sequence: nat, handling: seq<Action>, s': State)
    requires Reaches(c, Init, run, s) && CloseRequested !in s.log && !WasUnbound(s.log)
    requires Handles(c, s, Frame(Bind(kind, systemId, password), sequence), handling, s')
    ensures if Binds(s.log) == [] && Admits(c, kind, systemId, password)
            then s'.log == s.log + [Bound(kind, systemId, password)] && s'.systemId == Some(systemId)
            else s'.log == s.log && s'.systemId == s.systemId
  {
    ConnectionIsInRole(c, run, s);
    AdmittedIsAuthorized(c, kind, systemId, password);
    var bind := Bind(kind, systemId, password);
    Received(c, s, Frame(bind, sequence), handling, s');
    var s1 := NextRun(c, OnInput(s, Frame(bind, sequence)), handling, s');
    if s1.pc.SetSystemId? {
      var s2 := NextRun(c, s1, handling[1..], s');
      var s3 := NextRun(c, s2, handling[1..][1..], s');
      Responds(c, s3, handling[1..][1..][1..], s');
    } else {
      Responds(c, s1, handling[1..], s');
    }
  }

  /** In every run: an unbind frame that a bound session handles alone unbinds and closes it; one that is not bound stays as it is. */
  lemma UnbindCloses(c: Config, run: seq<Action>, s: State, sequence: nat, handling: seq<Action>, s': State)
    requires Reaches(c, Init, run, s) && CloseRequested !in s.log && !WasUnbound(s.log)
    requires Handles(c, s, Frame(Unbind, sequence), handling, s')
    ensures if Binds(s.log) != [] then s'.log == s.log + [Unbound] && s'.connection == Closed
            else s'.log == s.log && (s'.pc.Waiting? ==> s'.connection == Open)
  {
    ConnectionIsInRole(c, run, s);
    Received(c, s, Frame(Unbind, sequence), handling, s');
    var s1 := NextRun(c, OnInput(s, Frame(Unbind, sequence)), handling, s');
    if s1.pc.SetUnbinding? {
      var s2 := NextRun(c, s1, handling[1..], s');
      var s3 := NextRun(c, s2, handling[1..][1..], s');
      if s3.pc.SetClosed? {
        var s4 := NextRun(c, s3, handling[1..][1..][1..], s');
        BackToWaiting(c, s4, handling[1..][1..][1..][1..], s');
      } else {
        Done(c, s3, handling[1..][1..][1..], s');
      }
    } else {
      Responds(c, s1, handling[1..], s');
    }
  }

  /**
   In every run: when a session has been idle too long it is stopped, unless it
   is bound; then it asks whether the peer is still there, under a sequence
   number that no pending request has.
   */
  lemma IdleIsProbedIff(c: Config, run: seq<Action>, s: State, handling: seq<Action>, s': State)
    requires Reaches(c, Init, run, s) && CloseRequested !in s.log && !WasUnbound(s.log)
    requires Handles(c, s, IdleTimeout, handling, s')
    ensures s'.log == s.log
    ensures if Binds(s.log) == [] then s'.pc.Stopped? && s'.connection == Closed && s'.pending == s.pending
            else
              && handling != [] && (s'.pc.Waiting? <==> handling[0].sendOk)
              && s.nextSequence !in s.pending && s'.pending == s.pending + {s.nextSequence}
              && s'.nextSequence == s.nextSequence + 1
  {
    ConnectionIsInRole(c, run, s);
    SessionBounds(c, run, s);
    Received(c, s, IdleTimeout, handling, s');
    var s1 := OnInput(s, IdleTimeout);
    if s1.pc.Send? {
      Responds(c, s1, handling, s');
    } else {
      Done(c, s1, handling, s');
    }
  }

  lemma {:induction false} ClosingStays(c: Config, s: State, run: seq<Action>, s': State)
    requires Reaches(c, s, run, s') && (s.closing || CloseFlag in run)
    ensures s'.closing
    decreases |run|
  {
    if run != [] {
      ClosingStays(c, Apply(c, s, run[0]), run[1..], s');
    }
  }

  /** In every run in which a close was requested: at the top of its loop the session stops, closed, and publishes nothing more. */
  lemma CloseIsHonoured(c: Config, run: seq<Action>, s: State, rest: seq<Action>, s': State)
    requires Reaches(c, Init, run, s) && CloseFlag in run && s.pc.LoopTop?
    requires Reaches(c, s, rest, s') && Alone(rest) && Settled(s')
    ensures s' == s.(connection := Closed, pc := Stopped) && CloseRequested in s.log
  {
    ClosingStays(c, Init, run, s);
    RunFollows(c, Init, run, s);
    var s1 := NextRun(c, s, rest, s');
    Done(c, s1, rest[1..], s');
  }
}
