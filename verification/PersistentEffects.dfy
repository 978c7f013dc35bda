/**
 What the persistent store's operations do to its messages, in states and times:
 what is kept of a message that is stored and loaded again, which messages are
 expired and pruned, and that over runs with crashes a message in use is lost to
 nothing but its deletion.
 */
module PersistentEffects {
  import opened Wrappers
  import opened Messages
  import opened PersistentStore
  import opened PersistentRuns

  // -------------------------------------------------------------------------
  // Stored and loaded again
  // -------------------------------------------------------------------------

  /** A record keeps everything but the event count, the retry time and the time of the last update. */
  lemma RecordRoundTrip(m: StoredMessage, now: nat, later: nat)
    ensures FromRecord(ToRecord(m, now), later) ==
            StoredMessage(m.id, m.state, m.priority, m.content.(events := 0), m.createdAt, later, None)
    ensures ToRecord(m, now).createdMs == m.createdAt && ToRecord(m, now).updatedMs == now
  {}

  /** In every run, a message that is stored is loaded as it was stored, under the id it was given. */
  lemma StoredIsLoaded(run: seq<Event>, node: Node, state: MessageState, priority: Priority, content: Content,
                       createdAt: nat, now: nat, later: nat)
    requires Reaches(Empty, run, node) && Allowed(node, Store(state, priority, content, createdAt))
    ensures var db := Next(node, Done(Store(state, priority, content, createdAt), now)).db;
            && Load(db, node.counter, later) ==
               Some(StoredMessage(node.counter, state, priority, content.(events := 0), createdAt, later, None))
            && forall id: nat | id != node.counter :: Load(db, id, later) == Load(node.db, id, later)
  {
    RunKeepsInv(Empty, run, node);
    FreshKey(node);
    var m := StoredMessage(node.counter, state, priority, content, createdAt, now, None);
    StoreKeeps(node.db, m, now);
    RecordRoundTrip(m, now, later);
    var db := Next(node, Done(Store(state, priority, content, createdAt), now)).db;
    forall id: nat | id != node.counter ensures Load(db, id, later) == Load(node.db, id, later) {
      if MessageKey(id) == MessageKey(node.counter) {
        MessageKeyInjective(id, node.counter);
      }
    }
  }

  /** In every run, what an update makes of a known message is what is loaded afterwards, and no other message changes. */
  lemma UpdatedIsLoaded(run: seq<Event>, node: Node, m: StoredMessage, now: nat, later: nat)
    requires Reaches(Empty, run, node) && Load(node.db, m.id, now).Some?
    ensures var db := Next(node, Done(Update(m), now)).db;
            && Load(db, m.id, later) ==
               Some(StoredMessage(m.id, m.state, m.priority, m.content.(events := 0), m.createdAt, later, None))
            && forall id: nat | id != m.id :: Load(db, id, later) == Load(node.db, id, later)
  {
    RunKeepsInv(Empty, run, node);
    UpdateIsRewrite(node, Update(m), now);
    RewriteKeeps(node.db, m, now);
    RecordRoundTrip(m, now, later);
    var db := Next(node, Done(Update(m), now)).db;
    forall id: nat | id != m.id ensures Load(db, id, later) == Load(node.db, id, later) {
      if MessageKey(id) == MessageKey(m.id) {
        MessageKeyInjective(id, m.id);
      }
    }
  }

  // -------------------------------------------------------------------------
  // Expiry and pruning, in states and times
  // -------------------------------------------------------------------------

  lemma Expires(r: Record, now: nat, ttl: nat)
    requires r.state < 6
    ensures ExpiresTo(r, AfterExpiry(r, now, ttl), now, ttl)
  {}

  /** A Pending record created more than the time to live ago becomes Expired, now, with two events; any other stays. */
  predicate ExpiresTo(r: Record, r': Record, now: nat, ttl: nat) {
    if StateOf(r.state) == Pending && now - r.createdMs > ttl then
      && StateOf(r'.state) == Expired
      && r' == r.(state := r'.state, updatedMs := now, content := r.content.(events := 2),
                  priority := if r.priority < 4 then r.priority else 1)
    else r' == r
  }

  /** In every run, expiry does this to each stored message, and nothing else. */
  lemma ExpiryIsExact(run: seq<Event>, node: Node, scan: seq<string>, ttl: nat, now: nat, k: string)
    requires Reaches(Empty, run, node) && Allowed(node, Expire(scan, ttl))
    ensures var before, after := node.db.messages, Next(node, Done(Expire(scan, ttl), now)).db.messages;
            && (k in after <==> k in before)
            && (k in before ==> ExpiresTo(before[k], after[k], now, ttl))
  {
    RunKeepsInv(Empty, run, node);
    EnumerationAgrees(node.db, scan);
    ExpireExact(node.db, node.db.messages, scan, now, ttl, k);
    if k in node.db.messages {
      assert k in (set j | j in scan);
      Expires(node.db.messages[k], now, ttl);
    }
  }

  /**
   In every run, pruning removes exactly the Delivered, Failed and Expired
   messages last updated more than the given time ago.
   */
  lemma PruningIsExact(run: seq<Event>, node: Node, scan: seq<string>, maxAge: nat, now: nat, k: string)
    requires Reaches(Empty, run, node) && Allowed(node, Prune(scan, maxAge))
    ensures var before, after := node.db.messages, Next(node, Done(Prune(scan, maxAge), now)).db.messages;
            && (k in after ==> k in before && after[k] == before[k])
            && (k in before ==>
                  var state := StateOf(before[k].state);
                  k !in after <==>
                  (state == Delivered || state == Failed || state == Expired) && now - before[k].updatedMs > maxAge)
  {
    RunKeepsInv(Empty, run, node);
    EnumerationAgrees(node.db, scan);
    PruneExact(node.db, node.db.messages, scan, now, maxAge, k);
    if k in node.db.messages {
      assert k in (set j | j in scan);
    }
  }

  lemma PrunedAt(db: Db, scan: seq<string>, now: nat, maxAge: nat, k: string)
    requires GoodDb(db) && Distinct(scan) && Agrees(db, db.messages, scan) && k in scan
    ensures k in db.messages
    ensures k in Replay(db, PruneWrites(db.messages, scan, now, maxAge)).messages <==>
            !(IsTerminal(StateOf(db.messages[k].state)) && now - db.messages[k].updatedMs > maxAge)
  {
    PruneExact(db, db.messages, scan, now, maxAge, k);
  }

  /** The same for any store whose keys and index are right. */
  lemma PrunedIffOld(db: Db, scan: seq<string>, now: nat, maxAge: nat)
    requires GoodDb(db) && Enumerates(scan, db.messages)
    ensures forall k | k in scan :: k in db.messages
    ensures var after := Replay(db, PruneWrites(db.messages, scan, now, maxAge)).messages;
            forall k | k in db.messages ::
              k in after <==> !(IsTerminal(StateOf(db.messages[k].state)) && now - db.messages[k].updatedMs > maxAge)
  {
    EnumerationAgrees(db, scan);
    var after := Replay(db, PruneWrites(db.messages, scan, now, maxAge)).messages;
    forall k | k in db.messages
      ensures k in after <==> !(IsTerminal(StateOf(db.messages[k].state)) && now - db.messages[k].updatedMs > maxAge)
    {
      assert k in (set j | j in scan);
      PrunedAt(db, scan, now, maxAge, k);
    }
  }

  // -------------------------------------------------------------------------
  // Only a deletion loses a message in use
  // -------------------------------------------------------------------------

  predicate Drops(ws: seq<Write>, k: string) {
    DropMessage(k) in ws
  }

  lemma {:induction false} NotDropped(db: Db, ws: seq<Write>, k: string)
    requires k in db.messages && !Drops(ws, k)
    ensures k in Replay(db, ws).messages
    decreases |ws|
  {
    if ws != [] {
      assert ws[0] in ws;
      assert !Drops(ws[1..], k);
      NotDropped(Apply(db, ws[0]), ws[1..], k);
    }
  }

  lemma {:induction false} ExpiryDropsNothing(snapshot: map<string, Record>, scan: seq<string>, now: nat, ttl: nat, k: string)
    requires forall j | j in scan :: j in snapshot
    ensures !Drops(ExpireWrites(snapshot, scan, now, ttl), k)
  {
    if scan != [] {
      ExpiryDropsNothing(snapshot, scan[1..], now, ttl, k);
    }
  }

  lemma {:induction false} PruningDrops(snapshot: map<string, Record>, scan: seq<string>, now: nat, maxAge: nat, k: string)
    requires (forall j | j in scan :: j in snapshot) && Drops(PruneWrites(snapshot, scan, now, maxAge), k)
    ensures k in snapshot && IsTerminal(StateOf(snapshot[k].state))
  {
    assert scan != [];
    assert scan[0] in scan;
    if !Drops(PruneOne(scan[0], snapshot[scan[0]], now, maxAge), k) {
      PruningDrops(snapshot, scan[1..], now, maxAge, k);
    }
  }

  lemma LiveIsDropped(node: Node, op: Op, now: nat, k: string)
    requires Inv(node) && Allowed(node, op) && k in node.db.messages
    requires !IsTerminal(StateOf(node.db.messages[k].state)) && Drops(OpWrites(node, op, now), k)
    ensures op.Delete? && k == MessageKey(op.id)
  {
    match op
    case Expire(scan, ttl) =>
      EnumerationAgrees(node.db, scan);
      ExpiryDropsNothing(node.db.messages, scan, now, ttl, k);
    case Prune(scan, maxAge) =>
      EnumerationAgrees(node.db, scan);
      PruningDrops(node.db.messages, scan, now, maxAge, k);
    case _ =>
  }

  /** In every run, whatever crashes, a message in use leaves the store only while it is being deleted. */
  lemma LiveLeavesOnlyByDelete(run: seq<Event>, node: Node, e: Event, k: string)
    requires Reaches(Empty, run, node) && Possible(node, e)
    requires k in node.db.messages && !IsTerminal(StateOf(node.db.messages[k].state))
    requires k !in Next(node, e).db.messages
    ensures e.op.Delete? && k == MessageKey(e.op.id)
  {
    RunKeepsInv(Empty, run, node);
    var ws := OpWrites(node, e.op, e.now);
    var written := if e.Done? then ws else ws[..e.writes];
    if !Drops(written, k) {
      NotDropped(node.db, written, k);
    }
    LiveIsDropped(node, e.op, e.now, k);
  }

  /** In every run, deleting removes that message and no other. */
  lemma DeletionIsExact(run: seq<Event>, node: Node, id: nat, now: nat)
    requires Reaches(Empty, run, node)
    ensures Next(node, Done(Delete(id), now)).db.messages == node.db.messages - {MessageKey(id)}
  {
    RunKeepsInv(Empty, run, node);
    var mk := MessageKey(id);
    if mk in node.db.messages {
      MessageKeyInjective(node.db.messages[mk].id, id);
      CodeRoundTrip(node.db.messages[mk].state);
      RemoveKeeps(node.db, mk);
    } else {
      assert node.db.messages - {mk} == node.db.messages;
    }
  }
}
