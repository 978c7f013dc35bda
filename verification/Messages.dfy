/** Stored messages and their states (src/store/types.rs). Times are milliseconds. */
module Messages {
  import opened Wrappers

  datatype MessageState = Pending | InFlight | Delivered | Failed | Expired | Retrying

  predicate IsTerminal(s: MessageState) {
    s.Delivered? || s.Failed? || s.Expired?
  }

  datatype Priority = Low | Normal | High | Critical

  /** The fields that every operation of the stores copies unchanged. */
  datatype Content = Content(
    source: string, destination: string, shortMessage: seq<nat>, systemId: string, sequence: nat,
    smscMessageId: Option<string>, cluster: Option<string>, endpoint: Option<string>,
    attempts: nat, maxAttempts: nat, lastErrorCode: Option<nat>, lastError: Option<string>, events: nat)

  datatype StoredMessage = StoredMessage(
    id: nat, state: MessageState, priority: Priority, content: Content,
    createdAt: nat, updatedAt: nat, retryAt: Option<nat>)

  /** `mark_expired`: one event for the expiry, one more when the state changed. */
  function MarkExpired(m: StoredMessage, now: nat): StoredMessage {
    var events := m.content.events + if m.state.Expired? then 1 else 2;
    m.(state := Expired, updatedAt := now, content := m.content.(events := events))
  }
}
