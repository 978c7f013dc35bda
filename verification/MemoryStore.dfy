/**
 The in-memory store (src/store/memory.rs): what each operation may do to the
 messages and the retry queue, and what holds over every run. A hash map is
 iterated in no particular order, so equally old messages may be evicted in any.
 */
module MemoryStore {
  import opened Wrappers
  import opened Messages

  datatype Config = Config(maxMessages: nat, maxMemoryMb: nat, prunePercent: nat)

  type Table = map<nat, StoredMessage>

  const ESTIMATED_MESSAGE_SIZE: nat := 512
  const EVENT_SIZE: nat := 64
  const WORD: nat := 0x1_0000_0000_0000_0000

  type Word = n: nat | n < WORD

  function Length(s: Option<string>): nat {
    if s.Some? then |s.value| else 0
  }

  function EstimateSize(m: StoredMessage): nat {
    ESTIMATED_MESSAGE_SIZE + |m.content.shortMessage| + |m.content.source| + |m.content.destination|
    + |m.content.systemId| + Length(m.content.cluster) + Length(m.content.endpoint)
    + Length(m.content.smscMessageId) + m.content.events * EVENT_SIZE
  }

  /** The bytes of some of a table's messages. */
  ghost function SizeOf(ids: set<nat>, t: Table): nat {
    if ids == {} then 0
    else
      var id :| id in ids;
      SizeOf(ids - {id}, t) + if id in t then EstimateSize(t[id]) else 0
  }

  /** The sum does not depend on the order it is taken in. */
  lemma {:induction false} SizeWithout(ids: set<nat>, t: Table, id: nat)
    requires id in ids
    ensures SizeOf(ids, t) == SizeOf(ids - {id}, t) + if id in t then EstimateSize(t[id]) else 0
    decreases |ids|
  {
    var first :| first in ids && SizeOf(ids, t) == SizeOf(ids - {first}, t) + if first in t then EstimateSize(t[first]) else 0;
    if first != id {
      SizeWithout(ids - {first}, t, id);
      SizeWithout(ids - {id}, t, first);
      assert ids - {first} - {id} == ids - {id} - {first};
    }
  }

  /** The byte counter, which wraps around, after some bytes are taken off. */
  function Minus(bytes: Word, off: nat): Word {
    (bytes - off) % WORD
  }

  function Plus(bytes: Word, on: nat): Word {
    (bytes + on) % WORD
  }

  /** `used` holds every id ever stored. */
  datatype State = State(messages: Table, retryQueue: seq<nat>, memoryBytes: Word, used: set<nat>)

  const Init: State := State(map[], [], 0, {})

  function Terminal(t: Table): set<nat> {
    set id | id in t && IsTerminal(t[id].state)
  }

  function Live(t: Table): set<nat> {
    set id | id in t && !IsTerminal(t[id].state)
  }

  predicate AtCapacity(c: Config, s: State) {
    |s.messages| >= c.maxMessages || s.memoryBytes >= c.maxMemoryMb * 1024 * 1024
  }

  function PruneCount(c: Config, t: Table): nat {
    var n := |t| * c.prunePercent / 100;
    if n < 1 then 1 else n
  }

  function Min(a: nat, b: nat): nat {
    if a <= b then a else b
  }

  /** The messages of `t` that `t'` no longer has. */
  function Gone(t: Table, t': Table): set<nat> {
    t.Keys - t'.Keys
  }

  /** Some entries are gone; the rest are as they were. */
  predicate Shrunk(t: Table, t': Table) {
    t'.Keys <= t.Keys && forall id | id in t' :: t'[id] == t[id]
  }

  /** As many terminal messages as there are, up to the count, are gone: those updated longest ago. */
  predicate Evicted(t: Table, t': Table, count: nat) {
    && Shrunk(t, t')
    && Gone(t, t') <= Terminal(t)
    && |Gone(t, t')| == Min(count, |Terminal(t)|)
    && forall id, kept | id in Gone(t, t') && kept in Terminal(t') :: t[id].updatedAt <= t[kept].updatedAt
  }

  predicate Pruned(c: Config, s: State, t': Table) {
    if AtCapacity(c, s) then Evicted(s.messages, t', PruneCount(c, s.messages)) else t' == s.messages
  }

  function Retain(q: seq<nat>, id: nat): seq<nat> {
    if q == [] then []
    else Retain(q[..|q| - 1], id) + if q[|q| - 1] == id then [] else [q[|q| - 1]]
  }

  function Requeue(q: seq<nat>, id: nat, before: MessageState, after: MessageState): seq<nat> {
    if before == after then q
    else if after.Retrying? then (if id in q then q else q + [id])
    else Retain(q, id)
  }

  predicate IsOld(m: StoredMessage, cutoff: int) {
    !IsTerminal(m.state) && m.createdAt < cutoff
  }

  function ExpireIfOld(m: StoredMessage, cutoff: int, now: nat): StoredMessage {
    if IsOld(m, cutoff) then MarkExpired(m, now) else m
  }

  predicate IsOldTerminal(m: StoredMessage, cutoff: int) {
    IsTerminal(m.state) && m.updatedAt < cutoff
  }

  datatype Op =
    | Store(message: StoredMessage)
    | Update(id: nat, change: StoredMessage -> StoredMessage)
    | Delete(id: nat)
    | ExpireOld(cutoff: int, now: nat)
    | PruneTerminal(cutoff: int)

  /** Messages are stored fresh and Pending, as `StoredMessage::new` makes them. */
  predicate Enabled(s: State, op: Op) {
    op.Store? ==> op.message.state.Pending? && op.message.id !in s.used
  }

  // What one call may do. The byte counter is not adjusted where a message only changes.

  /** Any message may be stored; one with the same id is replaced. */
  ghost predicate StoreStep(c: Config, s: State, m: StoredMessage, s': State) {
    && s'.used == s.used + {m.id} && s'.retryQueue == s.retryQueue
    && exists t :: Pruned(c, s, t) && s'.messages == t[m.id := m]
                   && s'.memoryBytes == Plus(Minus(s.memoryBytes, SizeOf(Gone(s.messages, t), s.messages)), EstimateSize(m))
  }

  predicate UpdateStep(s: State, id: nat, change: StoredMessage -> StoredMessage, s': State) {
    && s'.used == s.used && s'.memoryBytes == s.memoryBytes
    && if id in s.messages then
         && s'.messages == s.messages[id := change(s.messages[id])]
         && s'.retryQueue == Requeue(s.retryQueue, id, s.messages[id].state, change(s.messages[id]).state)
       else s'.messages == s.messages && s'.retryQueue == s.retryQueue
  }

  predicate DeleteStep(s: State, id: nat, s': State) {
    && s'.used == s.used && s'.messages == s.messages - {id}
    && s'.retryQueue == (if id in s.messages then Retain(s.retryQueue, id) else s.retryQueue)
    && s'.memoryBytes == if id in s.messages then Minus(s.memoryBytes, EstimateSize(s.messages[id])) else s.memoryBytes
  }

  predicate ExpireStep(s: State, cutoff: int, now: nat, s': State) {
    && s'.used == s.used && s'.retryQueue == s.retryQueue && s'.memoryBytes == s.memoryBytes
    && s'.messages.Keys == s.messages.Keys
    && forall id | id in s.messages :: s'.messages[id] == ExpireIfOld(s.messages[id], cutoff, now)
  }

  ghost predicate PruneStep(s: State, cutoff: int, s': State) {
    && s'.used == s.used && s'.retryQueue == s.retryQueue
    && s'.memoryBytes == Minus(s.memoryBytes, SizeOf(Gone(s.messages, s'.messages), s.messages))
    && Shrunk(s.messages, s'.messages)
    && forall id | id in s.messages :: id in s'.messages <==> !IsOldTerminal(s.messages[id], cutoff)
  }

  ghost predicate Step(c: Config, s: State, op: Op, s': State) {
    match op
    case Store(m) => StoreStep(c, s, m, s')
    case Update(id, change) => UpdateStep(s, id, change, s')
    case Delete(id) => DeleteStep(s, id, s')
    case ExpireOld(cutoff, now) => ExpireStep(s, cutoff, now, s')
    case PruneTerminal(cutoff) => PruneStep(s, cutoff, s')
  }

  /** The states a run passes through. */
  ghost predicate Run(c: Config, states: seq<State>, ops: seq<Op>) {
    && |states| == |ops| + 1 && states[0] == Init
    && forall i | 0 <= i < |ops| :: Enabled(states[i], ops[i]) && Step(c, states[i], ops[i], states[i + 1])
  }

  // -------------------------------------------------------------------------
  // Only delete removes a message in use
  // -------------------------------------------------------------------------

  predicate UsedGood(s: State) {
    s.messages.Keys <= s.used && forall i | 0 <= i < |s.retryQueue| :: s.retryQueue[i] in s.used
  }

  lemma {:induction false} RetainContains(q: seq<nat>, id: nat, x: nat)
    ensures x in Retain(q, id) <==> x in q && x != id
  {
    if q != [] {
      RetainContains(q[..|q| - 1], id, x);
      assert q == q[..|q| - 1] + [q[|q| - 1]];
    }
  }

  lemma StepKeepsUsed(c: Config, s: State, op: Op, s': State)
    requires UsedGood(s) && Enabled(s, op) && Step(c, s, op, s')
    ensures UsedGood(s')
  {
    forall x | x in s'.retryQueue ensures x in s'.used {
      if op.Update? || op.Delete? {
        RetainContains(s.retryQueue, op.id, x);
      }
    }
    if op.Store? {
      var t := StoreTable(c, s, op.message, s');
    }
  }

  /** The table after a store: the pruned one and the new message. */
  lemma StoreTable(c: Config, s: State, m: StoredMessage, s': State) returns (t: Table)
    requires StoreStep(c, s, m, s')
    ensures Pruned(c, s, t) && Shrunk(s.messages, t) && Gone(s.messages, t) <= Terminal(s.messages)
    ensures s'.messages == t[m.id := m] && s'.messages.Keys == t.Keys + {m.id}
  {
    t := Witness(c, s, m, s');
    PrunedShrinks(c, s, t);
  }

  lemma Witness(c: Config, s: State, m: StoredMessage, s': State) returns (t: Table)
    requires StoreStep(c, s, m, s')
    ensures Pruned(c, s, t) && s'.messages == t[m.id := m]
  {
    t :| Pruned(c, s, t) && s'.messages == t[m.id := m]
         && s'.memoryBytes == Plus(Minus(s.memoryBytes, SizeOf(Gone(s.messages, t), s.messages)), EstimateSize(m));
  }

  lemma PrunedShrinks(c: Config, s: State, t: Table)
    requires Pruned(c, s, t)
    ensures Shrunk(s.messages, t) && Gone(s.messages, t) <= Terminal(s.messages)
  {
    assert Gone(s.messages, s.messages) == {};
  }

  /** A message in use leaves the store only by `delete`. */
  lemma LiveLeavesOnlyByDelete(c: Config, states: seq<State>, ops: seq<Op>, i: nat, id: nat)
    requires Run(c, states, ops) && i < |ops|
    requires id in Live(states[i].messages) && id !in states[i + 1].messages
    ensures ops[i] == Delete(id)
  {
    var s, s', op := states[i], states[i + 1], ops[i];
    assert Step(c, s, op, s');
    if op.Store? {
      var t := StoreTable(c, s, op.message, s');
    }
  }

  // -------------------------------------------------------------------------
  // Size
  // -------------------------------------------------------------------------

  function Max(a: nat, b: nat): nat {
    if a >= b then a else b
  }

  /** The most messages in use at once, over the first n states. */
  function HighWater(states: seq<State>, n: nat): nat
    requires n < |states|
  {
    var here := |Live(states[n].messages)|;
    if n == 0 then here else Max(HighWater(states, n - 1), here)
  }

  lemma SplitTable(t: Table)
    ensures |Live(t)| + |Terminal(t)| == |t|
  {
    assert t.Keys == Live(t) + Terminal(t);
    assert |t.Keys| == |t|;
  }

  lemma ShrunkSize(t: Table, t': Table)
    requires Shrunk(t, t')
    ensures |t'| + |Gone(t, t')| == |t|
  {
    assert t.Keys == t'.Keys + Gone(t, t');
    assert |t.Keys| == |t| && |t'.Keys| == |t'|;
  }

  lemma StoreSize(c: Config, s: State, m: StoredMessage, s': State)
    requires UsedGood(s) && Enabled(s, Store(m)) && StoreStep(c, s, m, s')
    ensures |s'.messages| <= Max(|s.messages|, c.maxMessages) || |s'.messages| == |Live(s'.messages)|
  {
    var t := StoreTable(c, s, m, s');
    ShrunkSize(s.messages, t);
    assert |s'.messages| == |t| + 1;
    if |Terminal(s.messages)| == 0 {
      StoreAllLive(s.messages, t, m);
    }
  }

  lemma StoreAllLive(t: Table, t': Table, m: StoredMessage)
    requires Shrunk(t, t') && |Terminal(t)| == 0 && !IsTerminal(m.state)
    ensures |t'[m.id := m]| == |Live(t'[m.id := m])|
  {
    SplitTable(t'[m.id := m]);
    assert Terminal(t) == {};
    assert forall id | id in t' :: id !in Terminal(t);
    assert Terminal(t'[m.id := m]) == {};
  }

  lemma SmallerKeys(t: Table, t': Table)
    requires t'.Keys <= t.Keys
    ensures |t'| <= |t|
  {
    assert t.Keys == t'.Keys + (t.Keys - t'.Keys);
    assert |t.Keys| == |t| && |t'.Keys| == |t'|;
  }

  lemma StepSize(c: Config, s: State, op: Op, s': State)
    requires UsedGood(s) && Enabled(s, op) && Step(c, s, op, s')
    ensures |s'.messages| <= Max(|s.messages|, c.maxMessages) || |s'.messages| == |Live(s'.messages)|
  {
    if op.Store? {
      StoreSize(c, s, op.message, s');
    } else {
      SmallerKeys(s.messages, s'.messages);
    }
  }

  /** The store never holds more than its limit, or than were in use at once. */
  lemma {:induction false} SizeIsBounded(c: Config, states: seq<State>, ops: seq<Op>, n: nat)
    requires Run(c, states, ops) && n < |states|
    ensures UsedGood(states[n])
    ensures |states[n].messages| <= Max(c.maxMessages, HighWater(states, n))
  {
    if n > 0 {
      SizeIsBounded(c, states, ops, n - 1);
      assert Step(c, states[n - 1], ops[n - 1], states[n]);
      StepKeepsUsed(c, states[n - 1], ops[n - 1], states[n]);
      StepSize(c, states[n - 1], ops[n - 1], states[n]);
    }
  }

  // -------------------------------------------------------------------------
  // Retry queue
  // -------------------------------------------------------------------------

  predicate NoDuplicates(q: seq<nat>) {
    forall i, j | 0 <= i < j < |q| :: q[i] != q[j]
  }

  predicate QueueGood(s: State) {
    && NoDuplicates(s.retryQueue)
    && (forall id | id in s.messages && s.messages[id].state.Retrying? :: id in s.retryQueue)
    && (forall id | id in s.messages && id in s.retryQueue ::
          s.messages[id].state.Retrying? || s.messages[id].state.Expired?)
  }

  lemma {:induction false} RetainNoDuplicates(q: seq<nat>, id: nat)
    requires NoDuplicates(q)
    ensures NoDuplicates(Retain(q, id))
  {
    if q != [] {
      var rest, last := q[..|q| - 1], q[|q| - 1];
      RetainNoDuplicates(rest, id);
      RetainContains(rest, id, last);
      assert forall i | 0 <= i < |Retain(rest, id)| :: Retain(rest, id)[i] in Retain(rest, id);
      assert last !in rest;
    }
  }

  lemma StoreKeepsQueue(c: Config, s: State, m: StoredMessage, s': State)
    requires QueueGood(s) && UsedGood(s) && Enabled(s, Store(m)) && StoreStep(c, s, m, s')
    ensures QueueGood(s')
  {
    var t := StoreTable(c, s, m, s');
    assert m.id !in s.retryQueue;
  }

  lemma UpdateKeepsQueue(s: State, id: nat, change: StoredMessage -> StoredMessage, s': State)
    requires QueueGood(s) && UpdateStep(s, id, change, s')
    ensures QueueGood(s')
  {
    RetainNoDuplicates(s.retryQueue, id);
    forall x ensures x in Retain(s.retryQueue, id) <==> x in s.retryQueue && x != id {
      RetainContains(s.retryQueue, id, x);
    }
  }

  lemma DeleteKeepsQueue(s: State, id: nat, s': State)
    requires QueueGood(s) && DeleteStep(s, id, s')
    ensures QueueGood(s')
  {
    RetainNoDuplicates(s.retryQueue, id);
    forall x ensures x in Retain(s.retryQueue, id) <==> x in s.retryQueue && x != id {
      RetainContains(s.retryQueue, id, x);
    }
  }

  lemma StepKeepsQueue(c: Config, s: State, op: Op, s': State)
    requires QueueGood(s) && UsedGood(s) && Enabled(s, op) && Step(c, s, op, s')
    ensures QueueGood(s')
  {
    if op.Store? {
      StoreKeepsQueue(c, s, op.message, s');
    } else if op.Update? {
      UpdateKeepsQueue(s, op.id, op.change, s');
    } else if op.Delete? {
      DeleteKeepsQueue(s, op.id, s');
    }
  }

  /**
   Every message waiting for a retry is queued exactly once, and the only stored
   messages queued besides are expired ones, which expiry does not take out.
   */
  lemma {:induction false} RetryingIsQueuedOnce(c: Config, states: seq<State>, ops: seq<Op>, n: nat)
    requires Run(c, states, ops) && n < |states|
    ensures QueueGood(states[n])
  {
    if n > 0 {
      SizeIsBounded(c, states, ops, n - 1);
      RetryingIsQueuedOnce(c, states, ops, n - 1);
      assert Step(c, states[n - 1], ops[n - 1], states[n]);
      StepKeepsQueue(c, states[n - 1], ops[n - 1], states[n]);
    }
  }

  // -------------------------------------------------------------------------
  // Expiry, pruning and eviction, in states and times
  // -------------------------------------------------------------------------

  predicate InUse(state: MessageState) {
    state == Pending || state == InFlight || state == Retrying
  }

  /**
   In every run, expiry marks exactly the Pending, InFlight and Retrying messages
   created before the cutoff as Expired, now, and leaves the others as they are.
   */
  lemma ExpiryIsExact(c: Config, states: seq<State>, ops: seq<Op>, i: nat, cutoff: int, now: nat, id: nat)
    requires Run(c, states, ops) && i < |ops| && ops[i] == ExpireOld(cutoff, now) && id in states[i].messages
    ensures id in states[i + 1].messages
    ensures var m, m' := states[i].messages[id], states[i + 1].messages[id];
            if InUse(m.state) && m.createdAt < cutoff then
              m' == m.(state := Expired, updatedAt := now, content := m.content.(events := m.content.events + 2))
            else m' == m
  {
    assert Step(c, states[i], ops[i], states[i + 1]);
  }

  /** In every run, pruning removes exactly the messages not in use that were last updated before the cutoff. */
  lemma PruningIsExact(c: Config, states: seq<State>, ops: seq<Op>, i: nat, cutoff: int, id: nat)
    requires Run(c, states, ops) && i < |ops| && ops[i] == PruneTerminal(cutoff) && id in states[i].messages
    ensures var m := states[i].messages[id];
            if !InUse(m.state) && m.updatedAt < cutoff then id !in states[i + 1].messages
            else id in states[i + 1].messages && states[i + 1].messages[id] == m
  {
    assert Step(c, states[i], ops[i], states[i + 1]);
  }

  function Idle(t: Table): set<nat> {
    set id | id in t && !InUse(t[id].state)
  }

  /** Only messages not in use are gone, and any only if all such that are left were updated no earlier. */
  predicate OldestGone(t: Table, gone: set<nat>) {
    gone <= Idle(t) && forall id, kept | id in gone && kept in Idle(t) - gone :: t[id].updatedAt <= t[kept].updatedAt
  }

  /** At a limit, the configured percentage of what is stored, but at least one; below, none. */
  function Share(c: Config, s: State): nat {
    if |s.messages| >= c.maxMessages || s.memoryBytes >= c.maxMemoryMb * 1048576
    then Max(1, |s.messages| * c.prunePercent / 100) else 0
  }

  lemma IdleIsTerminal(t: Table)
    ensures Idle(t) == Terminal(t)
  {}

  lemma EvictionCount(c: Config, s: State, t: Table)
    requires Pruned(c, s, t)
    ensures var share, idle := Share(c, s), |Terminal(s.messages)|;
            |Gone(s.messages, t)| == if share <= idle then share else idle
  {
    assert Gone(s.messages, s.messages) == {};
  }

  lemma EvictionOf(c: Config, s: State, t: Table)
    requires Pruned(c, s, t)
    ensures var gone := Gone(s.messages, t); t == s.messages - gone && OldestGone(s.messages, gone)
  {
    IdleIsTerminal(s.messages);
    if AtCapacity(c, s) {
      EvictedGone(s.messages, t, PruneCount(c, s.messages));
    } else {
      assert Gone(s.messages, t) == {} && t == s.messages - {};
    }
  }

  lemma EvictedGone(t: Table, t': Table, count: nat)
    requires Evicted(t, t', count) && Idle(t) == Terminal(t)
    ensures var gone := Gone(t, t'); t' == t - gone && OldestGone(t, gone)
  {
    assert forall kept | kept in Idle(t) - Gone(t, t') :: kept in Terminal(t');
  }

  /**
   In every run, storing a message evicts nothing below the limits on messages and
   memory; at one of them, it evicts the configured percentage, at least one, of
   what is stored, as far as there are messages not in use, the oldest of those.
   */
  lemma EvictionIsExact(c: Config, states: seq<State>, ops: seq<Op>, i: nat, m: StoredMessage) returns (gone: set<nat>)
    requires Run(c, states, ops) && i < |ops| && ops[i] == Store(m)
    ensures states[i + 1].messages == (states[i].messages - gone)[m.id := m] && OldestGone(states[i].messages, gone)
    ensures var share, idle := Share(c, states[i]), |Idle(states[i].messages)|; |gone| == if share <= idle then share else idle
  {
    assert Step(c, states[i], ops[i], states[i + 1]);
    var t := Witness(c, states[i], m, states[i + 1]);
    EvictionOf(c, states[i], t);
    EvictionCount(c, states[i], t);
    IdleIsTerminal(states[i].messages);
    gone := Gone(states[i].messages, t);
  }

  function TotalLength(texts: seq<string>): nat {
    if texts == [] then 0 else |texts[0]| + TotalLength(texts[1..])
  }

  function Texts(t: Option<string>): seq<string> {
    if t.Some? then [t.value] else []
  }

  lemma TextsLength(t: Option<string>)
    ensures TotalLength(Texts(t)) == Length(t)
  {
    if t.Some? {
      assert [t.value][1..] == [];
    }
  }

  lemma ThreeTexts(a: string, b: string, c: string)
    ensures TotalLength([a, b, c]) == |a| + |b| + |c|
  {
    assert [a, b, c][1..] == [b, c] && [b, c][1..] == [c] && [c][1..] == [];
    assert TotalLength([b, c]) == |b| + TotalLength([c]);
  }

  /** A message is counted with 512 bytes, 64 for each event, its content and its texts. */
  lemma SizeIsCounted(m: StoredMessage)
    ensures var c := m.content;
            EstimateSize(m) == 512 + 64 * c.events + |c.shortMessage|
                               + TotalLength([c.source, c.destination, c.systemId]) + TotalLength(Texts(c.cluster))
                               + TotalLength(Texts(c.endpoint)) + TotalLength(Texts(c.smscMessageId))
  {
    var c := m.content;
    TextsLength(c.cluster);
    TextsLength(c.endpoint);
    TextsLength(c.smscMessageId);
    ThreeTexts(c.source, c.destination, c.systemId);
  }
}
