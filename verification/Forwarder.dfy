/**
 The body of one forwarding task (src/pipeline/forwarder.rs), as the loop the
 source runs, and as the step automaton the pipeline interleaves. Both publish
 the same events in the same order.
 */
module Forwarder {
  import opened Wrappers
  import opened Events
  import opened Pipeline
  import opened PipelineLiveness
  import Decimal

  /** The attempt events for `clusters`, numbered from `first`. */
  function Attempts(env: Envelope, clusters: seq<string>, first: nat): seq<Event> {
    seq(|clusters|, i requires 0 <= i < |clusters| => MessageForwarding(env.messageId, clusters[i], first + i))
  }

  /** Index of the first acceptance, or the number of replies when there is none. */
  function FirstAccepted(replies: seq<Reply>): (k: nat)
    ensures k <= |replies|
    ensures forall j | 0 <= j < k :: replies[j].Refused?
    ensures k < |replies| ==> replies[k].Accepted?
  {
    if replies == [] || replies[0].Accepted? then 0 else 1 + FirstAccepted(replies[1..])
  }

  function LastError(replies: seq<Reply>, before: Option<string>): Option<string> {
    if replies == [] || !replies[|replies| - 1].Refused? then before else Some(replies[|replies| - 1].message)
  }

  function LastCode(replies: seq<Reply>, before: Option<nat>): Option<nat> {
    if replies == [] || !replies[|replies| - 1].Refused? then before else replies[|replies| - 1].code
  }

  /**
   What a task publishes when cluster i would answer `replies[i]`: one attempt
   per cluster up to the first acceptance, then exactly one answer.
   */
  function ForwardEvents(env: Envelope, clusters: seq<string>, replies: seq<Reply>, canRetry: bool,
                         first: nat, lastError: Option<string>, lastCode: Option<nat>): seq<Event>
    requires |replies| == |clusters|
  {
    var k := FirstAccepted(replies);
    if k < |replies| then
      Attempts(env, clusters[..k + 1], first) + DeliveredEvents(env, replies[k].smscMessageId)
    else
      Attempts(env, clusters, first)
      + ExhaustedEvents(env, LastError(replies, lastError), LastCode(replies, lastCode), canRetry)
  }

  /** The attempts of a list of clusters in order, and then an answer of two events. */
  predicate TriesThen(published: seq<Event>, messageId: nat, clusters: seq<string>, first: Event, answer: Response) {
    && |published| == |clusters| + 2
    && (forall i | 0 <= i < |clusters| :: published[i] == MessageForwarding(messageId, clusters[i], i + 1))
    && published[|clusters|] == first && published[|clusters| + 1] == ResponseReady(answer)
  }

  /**
   The fallback loop: primary first, then the fallbacks in order, stopping at the
   first acceptance, whose id the answer carries. If every cluster refuses, the
   answer is that of the last one: its status, or 0x58 if it gave none, unless a
   retry is scheduled.
   */
  method ForwardMessage(env: Envelope, cluster: string, fallbacks: seq<string>, replies: seq<Reply>, canRetry: bool)
    returns (published: seq<Event>)
    requires |replies| == 1 + |fallbacks|
    ensures published == ForwardEvents(env, [cluster] + fallbacks, replies, canRetry, 1, None, None)
    ensures forall k | 0 <= k < |replies| && replies[k].Accepted? && (forall j | 0 <= j < k :: replies[j].Refused?) ::
              var id := replies[k].smscMessageId;
              TriesThen(published, env.messageId, [cluster] + fallbacks[..k],
                        MessageDelivered(env.messageId, env.session, env.sequence, id),
                        Response(env.session, env.sequence, id, 0))
    ensures (forall j | 0 <= j < |replies| :: replies[j].Refused?) ==>
              var last := replies[|replies| - 1];
              var code := if last.code.Some? then last.code.value else 0x58;
              var text := "msg_" + Decimal.Print(env.messageId);
              TriesThen(published, env.messageId, [cluster] + fallbacks,
                        if canRetry then MessageRetryScheduled(env.messageId, 1, 1000, last.message)
                        else MessageFailed(env.messageId, env.session, env.sequence, Some(code), last.message, true),
                        Response(env.session, env.sequence, text, if canRetry then 0 else code))
  {
    var clusters := [cluster] + fallbacks;
    var lastError: Option<string> := None;
    var lastCode: Option<nat> := None;
    published := [];
    for attempt := 0 to |clusters|
      invariant published == Attempts(env, clusters[..attempt], 1)
      invariant forall j | 0 <= j < attempt :: replies[j].Refused?
      invariant lastError == LastError(replies[..attempt], None)
      invariant lastCode == LastCode(replies[..attempt], None)
    {
      published := published + [MessageForwarding(env.messageId, clusters[attempt], attempt + 1)];
      assert published == Attempts(env, clusters[..attempt + 1], 1);
      match replies[attempt] {
        case Accepted(id) =>
          assert FirstAccepted(replies) == attempt;
          published := published + DeliveredEvents(env, id);
          return;
        case Refused(code, message) =>
          lastError, lastCode := Some(message), code;
      }
    }
    assert FirstAccepted(replies) == |replies|;
    assert clusters[..|clusters|] == clusters && replies[..|replies|] == replies;
    published := published + ExhaustedEvents(env, lastError, lastCode, canRetry);
  }

  /** All events of a task that runs alone, one reply per attempt. */
  function RunAlone(t: Task, replies: seq<Reply>, canRetry: bool): seq<Event>
    requires TaskShape(t) && |replies| == |t.todo|
    requires forall r | r in replies :: PossibleReply(r)
    decreases TaskCost(t)
  {
    var reply := if t.phase.Awaiting? then replies[0] else Accepted("");
    var (t', published) := TaskNext(t, reply, canRetry);
    assert t.phase.Awaiting? ==> replies[0] in replies && PossibleReply(replies[0]);
    TaskCostDrops(t, reply, canRetry);
    published +
    if t'.None? then []
    else RunAlone(t'.value, if t.phase.Awaiting? && t'.value.phase.Trying? then replies[1..] else replies, canRetry)
  }

  lemma RunFinishing(t: Task, replies: seq<Reply>, canRetry: bool)
    requires TaskShape(t) && t.phase.Finishing? && |replies| == |t.todo|
    requires forall r | r in replies :: PossibleReply(r)
    ensures RunAlone(t, replies, canRetry) == t.outbox
  {
    if |t.outbox| == 2 {
      assert t.outbox == [t.outbox[0]] + t.outbox[1..];
    }
  }

  lemma AttemptsFirst(env: Envelope, clusters: seq<string>, first: nat)
    requires clusters != []
    ensures Attempts(env, clusters, first) ==
            [MessageForwarding(env.messageId, clusters[0], first)] + Attempts(env, clusters[1..], first + 1)
  {}

  /** A refusal costs one attempt and leaves the rest of the list. */
  lemma ForwardEventsRefused(env: Envelope, clusters: seq<string>, replies: seq<Reply>, canRetry: bool,
                             first: nat, lastError: Option<string>, lastCode: Option<nat>)
    requires |replies| == |clusters| && replies != [] && replies[0].Refused?
    ensures ForwardEvents(env, clusters, replies, canRetry, first, lastError, lastCode) ==
            [MessageForwarding(env.messageId, clusters[0], first)]
            + ForwardEvents(env, clusters[1..], replies[1..], canRetry, first + 1,
                            Some(replies[0].message), replies[0].code)
  {
    var k := FirstAccepted(replies);
    if k < |replies| {
      AttemptsFirst(env, clusters[..k + 1], first);
      assert clusters[..k + 1][1..] == clusters[1..][..k];
    } else {
      AttemptsFirst(env, clusters, first);
    }
  }

  lemma RunAttempt(t: Task, replies: seq<Reply>, canRetry: bool)
    requires TaskShape(t) && t.phase.Trying? && |replies| == |t.todo| && t.todo != []
    requires forall r | r in replies :: PossibleReply(r)
    ensures var e := MessageForwarding(t.envelope.messageId, t.todo[0], t.attempt + 1);
            var t1 := t.(phase := Awaiting, attempt := t.attempt + 1);
            && RunAlone(t, replies, canRetry) == [e] + RunAlone(t1, replies, canRetry)
            && match replies[0]
               case Accepted(id) => RunAlone(t1, replies, canRetry) == DeliveredEvents(t.envelope, id)
               case Refused(code, message) =>
                 var t2 := t1.(phase := Trying, lastError := Some(message), lastCode := code, todo := t.todo[1..]);
                 TaskShape(t2) && RunAlone(t1, replies, canRetry) == RunAlone(t2, replies[1..], canRetry)
  {
    assert replies[0] in replies;
    var t1 := t.(phase := Awaiting, attempt := t.attempt + 1);
    if replies[0].Accepted? {
      RunFinishing(TaskNext(t1, replies[0], canRetry).0.value, replies, canRetry);
    }
  }

  lemma AutomatonStops(t: Task, replies: seq<Reply>, canRetry: bool)
    requires TaskShape(t) && t.phase.Trying? && |replies| == |t.todo|
    requires forall r | r in replies :: PossibleReply(r)
    requires replies == [] || replies[0].Accepted?
    ensures RunAlone(t, replies, canRetry) ==
            ForwardEvents(t.envelope, t.todo, replies, canRetry, t.attempt + 1, t.lastError, t.lastCode)
  {
    if t.todo == [] {
      RunFinishing(TaskNext(t, Accepted(""), canRetry).0.value, replies, canRetry);
    } else {
      RunAttempt(t, replies, canRetry);
      assert Attempts(t.envelope, t.todo[..1], t.attempt + 1) ==
             [MessageForwarding(t.envelope.messageId, t.todo[0], t.attempt + 1)];
    }
  }

  lemma RunRefused(t: Task, replies: seq<Reply>, canRetry: bool) returns (t2: Task)
    requires TaskShape(t) && t.phase.Trying? && |replies| == |t.todo|
    requires forall r | r in replies :: PossibleReply(r)
    requires replies != [] && replies[0].Refused?
    ensures TaskShape(t2) && t2.phase.Trying?
    ensures t2.envelope == t.envelope && t2.todo == t.todo[1..] && t2.attempt == t.attempt + 1
    ensures t2.lastError == Some(replies[0].message) && t2.lastCode == replies[0].code
    ensures forall r | r in replies[1..] :: PossibleReply(r)
    ensures RunAlone(t, replies, canRetry) ==
            [MessageForwarding(t.envelope.messageId, t.todo[0], t.attempt + 1)] + RunAlone(t2, replies[1..], canRetry)
  {
    RunAttempt(t, replies, canRetry);
    t2 := t.(phase := Trying, attempt := t.attempt + 1, lastError := Some(replies[0].message),
             lastCode := replies[0].code, todo := t.todo[1..]);
  }

  /** The automaton the pipeline interleaves publishes exactly what the loop publishes. */
  lemma {:induction false} AutomatonMatchesLoop(t: Task, replies: seq<Reply>, canRetry: bool)
    requires TaskShape(t) && t.phase.Trying? && |replies| == |t.todo|
    requires forall r | r in replies :: PossibleReply(r)
    ensures RunAlone(t, replies, canRetry) ==
            ForwardEvents(t.envelope, t.todo, replies, canRetry, t.attempt + 1, t.lastError, t.lastCode)
    decreases |t.todo|
  {
    if replies == [] || replies[0].Accepted? {
      AutomatonStops(t, replies, canRetry);
    } else {
      var t2 := RunRefused(t, replies, canRetry);
      AutomatonMatchesLoop(t2, replies[1..], canRetry);
      ForwardEventsRefused(t.envelope, t.todo, replies, canRetry, t.attempt + 1, t.lastError, t.lastCode);
    }
  }
}
