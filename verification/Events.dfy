/**
 The event vocabulary of the internal bus (src/bootstrap/events.rs). Only the
 message-flow events carry data here; every other event is one of the last two.
 */
module Events {
  import opened Wrappers
  import Decimal

  datatype SubmitSm = SubmitSm(sourceAddr: string, destAddr: string, shortMessage: seq<nat>)

  /** `messageId` is the id the envelope drew itself; the stored message draws another one. */
  datatype Envelope = Envelope(messageId: nat, session: nat, sequence: nat, systemId: string, submit: SubmitSm)

  datatype Response = Response(session: nat, sequence: nat, messageId: string, status: nat)

  datatype Category = Lifecycle | Listener | Cluster | Session | Message | Storage | Metrics

  datatype Event =
    | MessageSubmitRequest(envelope: Envelope)
    | MessageAccepted(envelope: Envelope)
    | MessageRejected(envelope: Envelope, reason: string, status: nat)
    | MessageRouted(envelope: Envelope, route: string, cluster: string, fallbacks: seq<string>)
    | MessageForwarding(messageId: nat, target: string, attempt: nat)
    | MessageDelivered(messageId: nat, session: nat, sequence: nat, smscMessageId: string)
    | MessageFailed(messageId: nat, session: nat, sequence: nat, errorCode: Option<nat>, reason: string,
                    permanent: bool)
    | MessageRetryScheduled(messageId: nat, attempt: nat, delayMs: nat, reason: string)
    | MessageRetryReady(messageId: nat)
    | ResponseReady(response: Response)
    | OtherMessage
    | Unrelated(category: Category)

  function CategoryOf(e: Event): Category {
    if e.Unrelated? then e.category else Message
  }

  /** What a response is correlated by: the session and the PDU sequence number. */
  datatype Key = Key(session: nat, sequence: nat)

  function KeyOf(env: Envelope): Key {
    Key(env.session, env.sequence)
  }

  /** `MessageId`'s `Display`. */
  function IdText(id: nat): string {
    "msg_" + Decimal.Print(id)
  }

  function Success(env: Envelope, messageId: string): Response {
    Response(env.session, env.sequence, messageId, 0)
  }

  function Error(env: Envelope, status: nat): Response {
    Response(env.session, env.sequence, IdText(env.messageId), status)
  }
}
