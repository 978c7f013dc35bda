/**
 Runs of the persistent store with crashes and reopenings: the index is never
 wrong, and without crashes it is exactly the index rebuilt from the messages.
 */
module PersistentRuns {
  import opened Wrappers
  import opened Messages
  import opened Decimal
  import opened PersistentStore

  datatype Op =
    | Store(state: MessageState, priority: Priority, content: Content, createdAt: nat)
    | Update(updated: StoredMessage)   // what the caller's closure made of the message with this id
    | Delete(id: nat)
    | Expire(scan: seq<string>, ttl: nat)
    | Prune(scan: seq<string>, maxAge: nat)
    | Draw                             // an id drawn for something that is not stored

  /** The partitions together with the message id counter. */
  datatype Node = Node(db: Db, counter: nat)

  datatype Event =
    | Done(op: Op, now: nat)
    | Crash(op: Op, now: nat, writes: nat, scan: seq<string>)  // then reopen, scanning the primary keys

  const Empty: Node := Node(Db(map[], map[]), 0)

  predicate Allowed(node: Node, op: Op) {
    match op
    case Store(_, _, _, _) => node.counter < U64_BOUND
    case Draw => node.counter < U64_BOUND
    case Expire(scan, _) => Enumerates(scan, node.db.messages)
    case Prune(scan, _) => Enumerates(scan, node.db.messages)
    case _ => true
  }

  function OpWrites(node: Node, op: Op, now: nat): seq<Write>
    requires Allowed(node, op)
  {
    match op
    case Store(state, priority, content, createdAt) =>
      Persist(StoredMessage(node.counter, state, priority, content, createdAt, now, None), now)
    case Update(updated) =>
      (match Load(node.db, updated.id, now)
       case None => []
       case Some(loaded) => RewriteWrites(StateCode(loaded.state), updated, now))
    case Delete(id) =>
      (match Load(node.db, id, now)
       case None => []
       case Some(loaded) => RemoveWrites(StateCode(loaded.state), id, MessageKey(id)))
    case Expire(scan, ttl) => ExpireWrites(node.db.messages, scan, now, ttl)
    case Prune(scan, maxAge) => PruneWrites(node.db.messages, scan, now, maxAge)
    case Draw => []
  }

  /** `recover_counters`: one more than the greatest id that parses from a primary key. */
  function RecoverCounter(scan: seq<string>): nat {
    1 + MaxId(scan)
  }

  function IdOfKey(k: string): Option<nat> {
    if "msg_" <= k then ParseUnsigned(k[4..], U64_BOUND) else None
  }

  function MaxId(scan: seq<string>): nat {
    if scan == [] then 0
    else
      var rest := MaxId(scan[..|scan| - 1]);
      match IdOfKey(scan[|scan| - 1])
      case Some(id) => if id > rest then id else rest
      case None => rest
  }

  predicate Possible(node: Node, e: Event) {
    && Allowed(node, e.op)
    && (e.Crash? ==>
          && e.writes <= |OpWrites(node, e.op, e.now)|
          && Enumerates(e.scan, Replay(node.db, OpWrites(node, e.op, e.now)[..e.writes]).messages))
  }

  function Next(node: Node, e: Event): Node
    requires Possible(node, e)
  {
    var ws := OpWrites(node, e.op, e.now);
    match e
    case Done(op, _) =>
      Node(Replay(node.db, ws), if op.Store? || op.Draw? then node.counter + 1 else node.counter)
    case Crash(_, _, writes, scan) =>
      Node(Replay(node.db, ws[..writes]), RecoverCounter(scan))
  }

  ghost predicate Reaches(node: Node, run: seq<Event>, node': Node)
    decreases |run|
  {
    if run == [] then node' == node
    else Possible(node, run[0]) && Reaches(Next(node, run[0]), run[1..], node')
  }

  // -------------------------------------------------------------------------
  // Ids
  // -------------------------------------------------------------------------

  /** Every stored id is below `bound`, which is at most 2^64. */
  predicate IdsBelow(db: Db, bound: nat) {
    forall k | k in db.messages :: db.messages[k].id < bound && db.messages[k].id < U64_BOUND
  }

  predicate PutsBelow(ws: seq<Write>, bound: nat) {
    forall i | 0 <= i < |ws| && ws[i].PutMessage? :: ws[i].record.id < bound && ws[i].record.id < U64_BOUND
  }

  lemma {:induction false} ReplayIds(db: Db, ws: seq<Write>, bound: nat)
    requires IdsBelow(db, bound) && PutsBelow(ws, bound)
    ensures IdsBelow(Replay(db, ws), bound)
    decreases |ws|
  {
    if ws != [] {
      ReplayIds(Apply(db, ws[0]), ws[1..], bound);
    }
  }

  lemma {:induction false} ExpirePutsBelow(db: Db, scan: seq<string>, now: nat, ttl: nat, bound: nat)
    requires IdsBelow(db, bound) && forall k | k in scan :: k in db.messages
    ensures PutsBelow(ExpireWrites(db.messages, scan, now, ttl), bound)
  {
    if scan != [] {
      ExpirePutsBelow(db, scan[1..], now, ttl, bound);
      assert scan[0] in scan;
      assert PutsBelow(ExpireOne(db.messages[scan[0]], now, ttl), bound);
    }
  }

  lemma {:induction false} PrunePutsNothing(db: Db, scan: seq<string>, now: nat, maxAge: nat, bound: nat)
    requires forall k | k in scan :: k in db.messages
    ensures PutsBelow(PruneWrites(db.messages, scan, now, maxAge), bound)
  {
    if scan != [] {
      PrunePutsNothing(db, scan[1..], now, maxAge, bound);
      assert PutsBelow(PruneOne(scan[0], db.messages[scan[0]], now, maxAge), bound);
    }
  }

  lemma MessageKeyParses(id: nat)
    requires id < U64_BOUND
    ensures IdOfKey(MessageKey(id)) == Some(id)
  {
    assert MessageKey(id)[4..] == Print(id);
    ParsePrint(id, U64_BOUND);
  }

  lemma {:induction false} MaxIdBounds(scan: seq<string>, id: nat)
    requires id < U64_BOUND && MessageKey(id) in scan
    ensures id <= MaxId(scan)
  {
    MessageKeyParses(id);
    if scan[|scan| - 1] != MessageKey(id) {
      var i :| 0 <= i < |scan| && scan[i] == MessageKey(id);
      assert scan[..|scan| - 1][i] == MessageKey(id);
      MaxIdBounds(scan[..|scan| - 1], id);
    }
  }

  /** After reopening, the next message id exceeds the id of every stored message. */
  lemma RecoveredCounterIsFresh(db: Db, scan: seq<string>, bound: nat)
    requires WellKeyed(db) && IdsBelow(db, bound) && Enumerates(scan, db.messages)
    ensures IdsBelow(db, RecoverCounter(scan))
  {
    forall k | k in db.messages ensures db.messages[k].id < RecoverCounter(scan) {
      assert k in (set j | j in scan);
      MaxIdBounds(scan, db.messages[k].id);
    }
  }

  // -------------------------------------------------------------------------
  // Every operation
  // -------------------------------------------------------------------------

  predicate Inv(node: Node) {
    GoodDb(node.db) && IdsBelow(node.db, node.counter)
  }

  lemma FreshKey(node: Node)
    requires Inv(node)
    ensures MessageKey(node.counter) !in node.db.messages
  {
    if MessageKey(node.counter) in node.db.messages {
      MessageKeyInjective(node.db.messages[MessageKey(node.counter)].id, node.counter);
    }
  }

  lemma EnumerationAgrees(db: Db, scan: seq<string>)
    requires Enumerates(scan, db.messages)
    ensures Distinct(scan) && Agrees(db, db.messages, scan)
  {
    forall k | k in scan ensures k in db.messages {
      assert k in (set j | j in scan);
    }
  }

  predicate OpGood(node: Node, op: Op, now: nat)
    requires Allowed(node, op)
  {
    var ws := OpWrites(node, op, now);
    && SafeAll(node.db, ws)
    && (Complete(node.db) ==> Complete(Replay(node.db, ws)))
    && PutsBelow(ws, if op.Store? then node.counter + 1 else node.counter)
  }

  lemma StoreGood(node: Node, op: Op, now: nat)
    requires Inv(node) && Allowed(node, op) && op.Store?
    ensures OpGood(node, op, now)
  {
    FreshKey(node);
    StoreKeeps(node.db, StoredMessage(node.counter, op.state, op.priority, op.content, op.createdAt, now, None), now);
  }

  /** The writes of an update of a known message. */
  lemma UpdateIsRewrite(node: Node, op: Op, now: nat)
    requires GoodDb(node.db) && op.Update? && MessageKey(op.updated.id) in node.db.messages
    ensures node.db.messages[MessageKey(op.updated.id)].id == op.updated.id
    ensures OpWrites(node, op, now) == RewriteWrites(node.db.messages[MessageKey(op.updated.id)].state, op.updated, now)
  {
    var r := node.db.messages[MessageKey(op.updated.id)];
    MessageKeyInjective(r.id, op.updated.id);
    CodeRoundTrip(r.state);
  }

  lemma RewritePutsBelow(oldCode: nat, m: StoredMessage, now: nat, bound: nat)
    requires m.id < bound && m.id < U64_BOUND
    ensures PutsBelow(RewriteWrites(oldCode, m, now), bound)
  {}

  lemma UpdateGood(node: Node, op: Op, now: nat)
    requires Inv(node) && op.Update?
    ensures OpGood(node, op, now)
  {
    var mk := MessageKey(op.updated.id);
    if mk in node.db.messages {
      UpdateIsRewrite(node, op, now);
      RewriteKeeps(node.db, op.updated, now);
      RewritePutsBelow(node.db.messages[mk].state, op.updated, now, node.counter);
    }
  }

  lemma DeleteGood(node: Node, op: Op, now: nat)
    requires Inv(node) && op.Delete?
    ensures OpGood(node, op, now)
  {
    var mk := MessageKey(op.id);
    if mk in node.db.messages {
      MessageKeyInjective(node.db.messages[mk].id, op.id);
      RemoveKeeps(node.db, mk);
      assert StateCode(StateOf(node.db.messages[mk].state)) == node.db.messages[mk].state;
    }
  }

  /** The writes of every operation are safe, and between operations none is missing. */
  lemma OpKeeps(node: Node, op: Op, now: nat)
    requires Inv(node) && Allowed(node, op)
    ensures OpGood(node, op, now)
  {
    match op
    case Store(_, _, _, _) => StoreGood(node, op, now);
    case Update(_) => UpdateGood(node, op, now);
    case Delete(_) => DeleteGood(node, op, now);
    case Expire(scan, ttl) =>
      EnumerationAgrees(node.db, scan);
      ExpireKeeps(node.db, node.db.messages, scan, now, ttl);
      ExpirePutsBelow(node.db, scan, now, ttl, node.counter);
    case Prune(scan, maxAge) =>
      EnumerationAgrees(node.db, scan);
      PruneKeeps(node.db, node.db.messages, scan, now, maxAge);
      PrunePutsNothing(node.db, scan, now, maxAge, node.counter);
    case Draw =>
  }

  lemma NextKeepsInv(node: Node, e: Event)
    requires Inv(node) && Possible(node, e)
    ensures Inv(Next(node, e))
  {
    var ws := OpWrites(node, e.op, e.now);
    var bound := if e.op.Store? then node.counter + 1 else node.counter;
    OpKeeps(node, e.op, e.now);
    assert IdsBelow(node.db, bound);
    match e {
      case Done(_, _) =>
        SafeReplay(node.db, ws);
        ReplayIds(node.db, ws, bound);
      case Crash(_, _, n, scan) =>
        SafePrefix(node.db, ws, n);
        assert PutsBelow(ws[..n], bound);
        ReplayIds(node.db, ws[..n], bound);
        RecoveredCounterIsFresh(Replay(node.db, ws[..n]), scan, bound);
    }
  }

  lemma {:induction false} RunKeepsInv(node: Node, run: seq<Event>, node': Node)
    requires Inv(node) && Reaches(node, run, node')
    ensures Inv(node')
    decreases |run|
  {
    if run != [] {
      NextKeepsInv(node, run[0]);
      RunKeepsInv(Next(node, run[0]), run[1..], node');
    }
  }

  /**
   Over every run from the empty store, with any number of crashes and
   reopenings in it, and after every single write of the operation that comes
   next: each index entry names a stored message in exactly its state.
   */
  lemma IndexNeverWrong(run: seq<Event>, node: Node, op: Op, now: nat, n: nat)
    requires Reaches(Empty, run, node) && Allowed(node, op) && n <= |OpWrites(node, op, now)|
    ensures var db := Replay(node.db, OpWrites(node, op, now)[..n]);
            forall k | k in db.index ::
              && MessageKey(db.index[k]) in db.messages
              && k == StateKey(db.messages[MessageKey(db.index[k])].state, db.index[k])
  {
    RunKeepsInv(Empty, run, node);
    OpKeeps(node, op, now);
    SafePrefix(node.db, OpWrites(node, op, now), n);
    var db := Replay(node.db, OpWrites(node, op, now)[..n]);
    assert forall k | k in db.index :: EntrySound(db, k);
  }

  // -------------------------------------------------------------------------
  // Without crashes
  // -------------------------------------------------------------------------

  predicate CrashFree(run: seq<Event>) {
    forall i | 0 <= i < |run| :: run[i].Done?
  }

  /** The index one would rebuild from the primary partition, as a set of entries. */
  function RebuiltIndex(messages: map<string, Record>): set<(string, nat)> {
    set k | k in messages :: (StateKey(messages[k].state, messages[k].id), messages[k].id)
  }

  lemma CompleteIsRebuilt(db: Db)
    requires GoodDb(db) && Complete(db)
    ensures db.index.Items == RebuiltIndex(db.messages)
  {
    forall e | e in db.index.Items ensures e in RebuiltIndex(db.messages) {
      assert EntrySound(db, e.0);
      EntryOf(db, e.0);
    }
    forall e | e in RebuiltIndex(db.messages) ensures e in db.index.Items {
      var k :| k in db.messages && e == (StateKey(db.messages[k].state, db.messages[k].id), db.messages[k].id);
      assert Indexed(db, k);
    }
  }

  lemma {:induction false} CrashFreeKeepsComplete(node: Node, run: seq<Event>, node': Node)
    requires Inv(node) && Complete(node.db) && CrashFree(run) && Reaches(node, run, node')
    ensures Inv(node') && Complete(node'.db)
    decreases |run|
  {
    if run != [] {
      NextKeepsInv(node, run[0]);
      OpKeeps(node, run[0].op, run[0].now);
      CrashFreeKeepsComplete(Next(node, run[0]), run[1..], node');
    }
  }

  /** Between the operations of a crash-free run the index is the one rebuilt from the messages. */
  lemma IndexIsRebuilt(run: seq<Event>, node: Node)
    requires CrashFree(run) && Reaches(Empty, run, node)
    ensures node.db.index.Items == RebuiltIndex(node.db.messages)
  {
    CrashFreeKeepsComplete(Empty, run, node);
    CompleteIsRebuilt(node.db);
  }
}
