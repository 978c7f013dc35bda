/**
 The persistent store (src/store/persistent.rs): a primary partition and a
 by-state index, written one key at a time. A crash is a prefix of the writes.
 */
module PersistentStore {
  import opened Wrappers
  import opened Messages
  import opened Decimal

  // -------------------------------------------------------------------------
  // Records and keys
  // -------------------------------------------------------------------------

  /** `PersistedMessage`: the state and the priority as numbers, no retry time. */
  datatype Record = Record(id: nat, state: nat, priority: nat, content: Content, createdMs: nat, updatedMs: nat)

  function StateCode(s: MessageState): nat {
    match s
    case Pending => 0
    case InFlight => 1
    case Delivered => 2
    case Failed => 3
    case Expired => 4
    case Retrying => 5
  }

  function StateOf(code: nat): MessageState {
    match code
    case 0 => Pending
    case 1 => InFlight
    case 2 => Delivered
    case 3 => Failed
    case 4 => Expired
    case 5 => Retrying
    case _ => Pending
  }

  lemma CodeRoundTrip(code: nat)
    requires code < 6
    ensures StateCode(StateOf(code)) == code
  {}

  function PriorityCode(p: Priority): nat {
    match p
    case Low => 0
    case Normal => 1
    case High => 2
    case Critical => 3
  }

  function PriorityOf(code: nat): Priority {
    match code
    case 0 => Low
    case 1 => Normal
    case 2 => High
    case 3 => Critical
    case _ => Normal
  }

  function ToRecord(m: StoredMessage, now: nat): Record {
    Record(m.id, StateCode(m.state), PriorityCode(m.priority), m.content, m.createdAt, now)
  }

  /** `persisted_to_stored`: the event history and the retry time are not kept. */
  function FromRecord(r: Record, now: nat): StoredMessage {
    StoredMessage(r.id, StateOf(r.state), PriorityOf(r.priority), r.content.(events := 0), r.createdMs, now, None)
  }

  function MessageKey(id: nat): string {
    "msg_" + Print(id)
  }

  function StatePrefix(code: nat): string {
    "state_" + Print(code) + "_"
  }

  function StateKey(code: nat, id: nat): string {
    StatePrefix(code) + Print(id)
  }

  /** What a prefix scan for one state sees. */
  predicate UnderState(code: nat, key: string) {
    StatePrefix(code) <= key
  }

  lemma MessageKeyInjective(a: nat, b: nat)
    requires MessageKey(a) == MessageKey(b)
    ensures a == b
  {
    assert MessageKey(a)[4..] == Print(a) && MessageKey(b)[4..] == Print(b);
    PrintInjective(a, b);
  }

  /** A prefix scan for one state sees that state's keys only, and keys name one message in one state. */
  lemma StateKeyExact(code: nat, code': nat, id: nat, id': nat)
    requires code < 6 && code' < 6
    ensures UnderState(code, StateKey(code', id')) <==> code == code'
    ensures StateKey(code, id) == StateKey(code', id') <==> code == code' && id == id'
  {
    assert Print(code) == [DigitOf(code)] && Print(code') == [DigitOf(code')];
    assert StateKey(code, id)[6] == DigitOf(code) && StateKey(code', id')[6] == DigitOf(code');
    assert StateKey(code, id)[8..] == Print(id) && StateKey(code', id')[8..] == Print(id');
    assert StatePrefix(code)[6] == DigitOf(code);
    if Print(id) == Print(id') {
      PrintInjective(id, id');
    }
  }

  // -------------------------------------------------------------------------
  // Writes
  // -------------------------------------------------------------------------

  datatype Db = Db(messages: map<string, Record>, index: map<string, nat>)

  datatype Write =
    | PutMessage(key: string, record: Record)
    | DropMessage(key: string)
    | PutIndex(key: string, id: nat)
    | DropIndex(key: string)

  function Apply(db: Db, w: Write): Db {
    match w
    case PutMessage(k, r) => db.(messages := db.messages[k := r])
    case DropMessage(k) => db.(messages := db.messages - {k})
    case PutIndex(k, id) => db.(index := db.index[k := id])
    case DropIndex(k) => db.(index := db.index - {k})
  }

  function Replay(db: Db, ws: seq<Write>): Db
    decreases |ws|
  {
    if ws == [] then db else Replay(Apply(db, ws[0]), ws[1..])
  }

  /** `persist_message`: the primary record first, then the index entry. */
  function Persist(m: StoredMessage, now: nat): seq<Write> {
    [PutMessage(MessageKey(m.id), ToRecord(m, now)), PutIndex(StateKey(StateCode(m.state), m.id), m.id)]
  }

  function RemoveWrites(code: nat, id: nat, key: string): seq<Write> {
    [DropIndex(StateKey(code, id)), DropMessage(key)]
  }

  function Load(db: Db, id: nat, now: nat): Option<StoredMessage> {
    if MessageKey(id) in db.messages then Some(FromRecord(db.messages[MessageKey(id)], now)) else None
  }

  /**
   Replacing a stored message whose state was `oldCode`: the old index entry goes
   first, but only when the state changes (`update`, `expire_old`).
   */
  function RewriteWrites(oldCode: nat, m: StoredMessage, now: nat): seq<Write> {
    UpdateWrites(oldCode, m.id, m, now)
  }

  /** The same where what is written back may carry another id than the one it was loaded under. */
  function UpdateWrites(oldCode: nat, id: nat, m: StoredMessage, now: nat): seq<Write> {
    (if oldCode != StateCode(m.state) then [DropIndex(StateKey(oldCode, id))] else []) + Persist(m, now)
  }

  predicate Due(r: Record, now: nat, ttl: nat) {
    r.state == StateCode(Pending) && (if now >= r.createdMs then now - r.createdMs else 0) > ttl
  }

  function ExpireOne(r: Record, now: nat, ttl: nat): seq<Write> {
    if Due(r, now, ttl) then
      RewriteWrites(StateCode(Pending), MarkExpired(FromRecord(r, now), now), now)
    else []
  }

  /** `expire_old` over the snapshot `scan` of the primary partition. */
  function ExpireWrites(snapshot: map<string, Record>, scan: seq<string>, now: nat, ttl: nat): seq<Write>
    requires forall k | k in scan :: k in snapshot
  {
    if scan == [] then []
    else ExpireOne(snapshot[scan[0]], now, ttl) + ExpireWrites(snapshot, scan[1..], now, ttl)
  }

  predicate Prunable(r: Record, now: nat, maxAge: nat) {
    2 <= r.state <= 4 && (if now >= r.updatedMs then now - r.updatedMs else 0) > maxAge
  }

  function PruneOne(k: string, r: Record, now: nat, maxAge: nat): seq<Write> {
    if Prunable(r, now, maxAge) then RemoveWrites(StateCode(StateOf(r.state)), r.id, k) else []
  }

  function PruneWrites(snapshot: map<string, Record>, scan: seq<string>, now: nat, maxAge: nat): seq<Write>
    requires forall k | k in scan :: k in snapshot
  {
    if scan == [] then []
    else PruneOne(scan[0], snapshot[scan[0]], now, maxAge) + PruneWrites(snapshot, scan[1..], now, maxAge)
  }

  // -------------------------------------------------------------------------
  // Invariants
  // -------------------------------------------------------------------------

  predicate WellKeyed(db: Db) {
    forall k | k in db.messages :: k == MessageKey(db.messages[k].id) && db.messages[k].state < 6
  }

  /** Entry `k` names a stored message in exactly the state the key says. */
  predicate EntrySound(db: Db, k: string)
    requires k in db.index
  {
    var mk := MessageKey(db.index[k]);
    mk in db.messages && db.messages[mk].state < 6 && k == StateKey(db.messages[mk].state, db.index[k])
  }

  predicate Sound(db: Db) {
    forall k | k in db.index :: EntrySound(db, k)
  }

  predicate Indexed(db: Db, k: string)
    requires k in db.messages
  {
    var r := db.messages[k];
    StateKey(r.state, r.id) in db.index && db.index[StateKey(r.state, r.id)] == r.id
  }

  /** Every message except possibly `except` has its index entry. */
  predicate CompleteBut(db: Db, except: set<string>) {
    forall k | k in db.messages && k !in except :: Indexed(db, k)
  }

  predicate Complete(db: Db) {
    CompleteBut(db, {})
  }

  predicate Distinct(scan: seq<string>) {
    forall i, j | 0 <= i < j < |scan| :: scan[i] != scan[j]
  }

  /** A duplicate-free enumeration of a partition's keys, in whatever order it iterates. */
  predicate Enumerates<T>(scan: seq<string>, m: map<string, T>) {
    (set k | k in scan) == m.Keys && Distinct(scan)
  }

  // -------------------------------------------------------------------------
  // Single writes
  // -------------------------------------------------------------------------

  /** What must hold before a write so that no index entry is left wrong behind it. */
  predicate Safe(db: Db, w: Write) {
    match w
    case PutMessage(k, r) =>
      && k == MessageKey(r.id) && r.state < 6
      && (k in db.messages ==>
            r.state == db.messages[k].state || StateKey(db.messages[k].state, r.id) !in db.index)
    case DropMessage(k) =>
      k in db.messages ==> StateKey(db.messages[k].state, db.messages[k].id) !in db.index
    case PutIndex(k, id) =>
      && MessageKey(id) in db.messages
      && k == StateKey(db.messages[MessageKey(id)].state, id)
    case DropIndex(_) => true
  }

  lemma EntryOf(db: Db, k: string)
    requires WellKeyed(db) && Sound(db) && k in db.index
    ensures db.messages[MessageKey(db.index[k])].id == db.index[k]
  {
    assert EntrySound(db, k);
    MessageKeyInjective(db.messages[MessageKey(db.index[k])].id, db.index[k]);
  }

  lemma SafeWrite(db: Db, w: Write)
    requires WellKeyed(db) && Sound(db) && Safe(db, w)
    ensures WellKeyed(Apply(db, w)) && Sound(Apply(db, w))
  {
    var db' := Apply(db, w);
    forall k | k in db'.index ensures EntrySound(db', k) {
      if k in db.index && db'.index[k] == db.index[k] {
        assert EntrySound(db, k);
        EntryOf(db, k);
        if w.PutMessage? && w.key == MessageKey(db.index[k]) {
          MessageKeyInjective(w.record.id, db.index[k]);
        }
      }
    }
  }

  /** Each write of `ws` is safe where it happens. */
  predicate SafeAll(db: Db, ws: seq<Write>)
    decreases |ws|
  {
    ws == [] || (Safe(db, ws[0]) && SafeAll(Apply(db, ws[0]), ws[1..]))
  }

  /** Safe writes keep the index sound after every prefix, so at every crash point. */
  lemma {:induction false} SafePrefix(db: Db, ws: seq<Write>, n: nat)
    requires WellKeyed(db) && Sound(db) && SafeAll(db, ws) && n <= |ws|
    ensures WellKeyed(Replay(db, ws[..n])) && Sound(Replay(db, ws[..n]))
    decreases n
  {
    if n > 0 {
      SafeWrite(db, ws[0]);
      SafePrefix(Apply(db, ws[0]), ws[1..], n - 1);
      assert ws[..n][1..] == ws[1..][..n - 1];
    }
  }

  lemma {:induction false} ReplayAppend(db: Db, a: seq<Write>, b: seq<Write>)
    ensures Replay(db, a + b) == Replay(Replay(db, a), b)
    decreases |a|
  {
    if a == [] {
      assert a + b == b;
    } else {
      ReplayAppend(Apply(db, a[0]), a[1..], b);
      assert (a + b)[1..] == a[1..] + b;
    }
  }

  lemma {:induction false} SafeAppend(db: Db, a: seq<Write>, b: seq<Write>)
    requires SafeAll(db, a) && SafeAll(Replay(db, a), b)
    ensures SafeAll(db, a + b) && Replay(db, a + b) == Replay(Replay(db, a), b)
    decreases |a|
  {
    if a == [] {
      assert a + b == b;
    } else {
      SafeAppend(Apply(db, a[0]), a[1..], b);
      assert (a + b)[1..] == a[1..] + b;
    }
  }

  // -------------------------------------------------------------------------
  // The writes for one message
  // -------------------------------------------------------------------------

  predicate GoodDb(db: Db) {
    WellKeyed(db) && Sound(db)
  }

  lemma ReplayTwo(db: Db, a: Write, b: Write)
    ensures Replay(db, [a, b]) == Apply(Apply(db, a), b)
    ensures SafeAll(db, [a, b]) <==> Safe(db, a) && Safe(Apply(db, a), b)
  {
    assert [a, b][1..] == [b] && [b][1..] == [];
    assert Replay(Apply(db, a), [b]) == Replay(Apply(Apply(db, a), b), [b][1..]);
    assert SafeAll(Apply(Apply(db, a), b), [b][1..]);
  }

  /** After both puts, the message is indexed, and so is every other one that was. */
  lemma PutsComplete(db: Db, m: StoredMessage, now: nat, except: set<string>)
    requires GoodDb(db) && CompleteBut(db, except) && except <= {MessageKey(m.id)}
    ensures Complete(Db(db.messages[MessageKey(m.id) := ToRecord(m, now)],
                        db.index[StateKey(StateCode(m.state), m.id) := m.id]))
  {
    var db' := Db(db.messages[MessageKey(m.id) := ToRecord(m, now)],
                  db.index[StateKey(StateCode(m.state), m.id) := m.id]);
    forall k | k in db'.messages ensures Indexed(db', k) {
      if k != MessageKey(m.id) {
        assert Indexed(db, k);
        var r := db.messages[k];
        StateKeyExact(r.state, StateCode(m.state), r.id, m.id);
      }
    }
  }

  /** The two puts of `persist_message`, when no stale entry of the message is left. */
  lemma PutsSafe(db: Db, m: StoredMessage, now: nat)
    requires MessageKey(m.id) in db.messages ==>
               || db.messages[MessageKey(m.id)].state == StateCode(m.state)
               || StateKey(db.messages[MessageKey(m.id)].state, m.id) !in db.index
    ensures SafeAll(db, Persist(m, now))
    ensures Replay(db, Persist(m, now)) ==
            Db(db.messages[MessageKey(m.id) := ToRecord(m, now)],
               db.index[StateKey(StateCode(m.state), m.id) := m.id])
  {
    var ws := Persist(m, now);
    ReplayTwo(db, ws[0], ws[1]);
  }

  lemma SafeReplay(db: Db, ws: seq<Write>)
    requires GoodDb(db) && SafeAll(db, ws)
    ensures GoodDb(Replay(db, ws))
  {
    SafePrefix(db, ws, |ws|);
    assert ws[..|ws|] == ws;
  }

  /** Storing a message under a new id. */
  lemma StoreKeeps(db: Db, m: StoredMessage, now: nat)
    requires GoodDb(db) && MessageKey(m.id) !in db.messages
    ensures SafeAll(db, Persist(m, now))
    ensures Replay(db, Persist(m, now)).messages == db.messages[MessageKey(m.id) := ToRecord(m, now)]
    ensures GoodDb(Replay(db, Persist(m, now)))
    ensures Complete(db) ==> Complete(Replay(db, Persist(m, now)))
  {
    PutsSafe(db, m, now);
    SafeReplay(db, Persist(m, now));
    if Complete(db) {
      PutsComplete(db, m, now, {});
    }
  }

  /** After the old entry is gone, only that message may be unindexed. */
  lemma DropKeeps(db: Db, code: nat, id: nat)
    requires GoodDb(db) && code < 6
    ensures var db1 := Apply(db, DropIndex(StateKey(code, id)));
            && GoodDb(db1)
            && (Complete(db) ==> CompleteBut(db1, {MessageKey(id)}))
  {
    var db1 := Apply(db, DropIndex(StateKey(code, id)));
    SafeWrite(db, DropIndex(StateKey(code, id)));
    if Complete(db) {
      forall k | k in db1.messages && k != MessageKey(id) ensures Indexed(db1, k) {
        assert Indexed(db, k);
        StateKeyExact(db.messages[k].state, code, db.messages[k].id, id);
      }
    }
  }

  /** Replacing a stored message. */
  lemma RewriteKeeps(db: Db, m: StoredMessage, now: nat)
    requires GoodDb(db) && MessageKey(m.id) in db.messages
    ensures var ws := RewriteWrites(db.messages[MessageKey(m.id)].state, m, now);
            && SafeAll(db, ws)
            && Replay(db, ws).messages == db.messages[MessageKey(m.id) := ToRecord(m, now)]
            && GoodDb(Replay(db, ws))
            && (Complete(db) ==> Complete(Replay(db, ws)))
  {
    var oldCode := db.messages[MessageKey(m.id)].state;
    var puts := Persist(m, now);
    if oldCode == StateCode(m.state) {
      assert RewriteWrites(oldCode, m, now) == puts;
      PutsSafe(db, m, now);
      if Complete(db) {
        PutsComplete(db, m, now, {});
      }
    } else {
      var drop := DropIndex(StateKey(oldCode, m.id));
      var db1 := Apply(db, drop);
      DropKeeps(db, oldCode, m.id);
      PutsSafe(db1, m, now);
      assert SafeAll(db, [drop]) && Replay(db, [drop]) == db1 by {
        assert [drop][1..] == [];
      }
      SafeAppend(db, [drop], puts);
      if Complete(db) {
        PutsComplete(db1, m, now, {MessageKey(m.id)});
      }
    }
    SafeReplay(db, RewriteWrites(oldCode, m, now));
  }

  lemma RemoveKeeps(db: Db, k: string)
    requires GoodDb(db) && k in db.messages
    ensures var ws := RemoveWrites(db.messages[k].state, db.messages[k].id, k);
            && SafeAll(db, ws)
            && Replay(db, ws).messages == db.messages - {k}
            && GoodDb(Replay(db, ws))
            && (Complete(db) ==> Complete(Replay(db, ws)))
  {
    var r := db.messages[k];
    var ws := RemoveWrites(r.state, r.id, k);
    DropKeeps(db, r.state, r.id);
    var db1 := Apply(db, ws[0]);
    ReplayTwo(db, ws[0], ws[1]);
    SafeReplay(db, ws);
    if Complete(db) {
      forall k' | k' in db1.messages && k' != k ensures Indexed(Replay(db, ws), k') {
        assert Indexed(db1, k');
      }
    }
  }

  // -------------------------------------------------------------------------
  // The scanning operations
  // -------------------------------------------------------------------------

  /** The rest of a scan still sees its keys as the snapshot has them. */
  predicate Agrees(db: Db, snapshot: map<string, Record>, scan: seq<string>) {
    forall k | k in scan :: k in snapshot && k in db.messages && db.messages[k] == snapshot[k]
  }

  lemma AgreesRest(db: Db, snapshot: map<string, Record>, scan: seq<string>, db': Db)
    requires scan != [] && Distinct(scan) && Agrees(db, snapshot, scan)
    requires forall k | k != scan[0] :: (k in db'.messages <==> k in db.messages)
    requires forall k | k != scan[0] && k in db.messages :: db'.messages[k] == db.messages[k]
    ensures Distinct(scan[1..]) && Agrees(db', snapshot, scan[1..])
  {
    forall k | k in scan[1..] ensures k in snapshot && k in db'.messages && db'.messages[k] == snapshot[k] {
      assert k in scan;
      var i :| 0 <= i < |scan[1..]| && scan[1..][i] == k;
      assert k == scan[i + 1] && scan[0] != scan[i + 1];
    }
  }

  lemma ExpireStep(db: Db, snapshot: map<string, Record>, scan: seq<string>, now: nat, ttl: nat)
    requires GoodDb(db) && scan != [] && Distinct(scan) && Agrees(db, snapshot, scan)
    ensures var ws := ExpireOne(snapshot[scan[0]], now, ttl);
            var db' := Replay(db, ws);
            && SafeAll(db, ws) && GoodDb(db')
            && (Complete(db) ==> Complete(db'))
            && Distinct(scan[1..]) && Agrees(db', snapshot, scan[1..])
            && db'.messages == db.messages[scan[0] := AfterExpiry(snapshot[scan[0]], now, ttl)]
  {
    var r := snapshot[scan[0]];
    assert scan[0] in scan && scan[0] == MessageKey(r.id);
    if Due(r, now, ttl) {
      RewriteKeeps(db, MarkExpired(FromRecord(r, now), now), now);
    } else {
      assert Replay(db, []) == db;
    }
    AgreesRest(db, snapshot, scan, Replay(db, ExpireOne(r, now, ttl)));
  }

  lemma {:induction false} ExpireKeeps(db: Db, snapshot: map<string, Record>, scan: seq<string>, now: nat, ttl: nat)
    requires GoodDb(db) && Distinct(scan) && Agrees(db, snapshot, scan)
    ensures var ws := ExpireWrites(snapshot, scan, now, ttl);
            && SafeAll(db, ws)
            && GoodDb(Replay(db, ws))
            && (Complete(db) ==> Complete(Replay(db, ws)))
    decreases |scan|
  {
    if scan != [] {
      var ws := ExpireOne(snapshot[scan[0]], now, ttl);
      ExpireStep(db, snapshot, scan, now, ttl);
      ExpireKeeps(Replay(db, ws), snapshot, scan[1..], now, ttl);
      SafeAppend(db, ws, ExpireWrites(snapshot, scan[1..], now, ttl));
    }
  }

  lemma PruneStep(db: Db, snapshot: map<string, Record>, scan: seq<string>, now: nat, maxAge: nat)
    requires GoodDb(db) && scan != [] && Distinct(scan) && Agrees(db, snapshot, scan)
    ensures var ws := PruneOne(scan[0], snapshot[scan[0]], now, maxAge);
            var db' := Replay(db, ws);
            && SafeAll(db, ws) && GoodDb(db')
            && (Complete(db) ==> Complete(db'))
            && Distinct(scan[1..]) && Agrees(db', snapshot, scan[1..])
            && db'.messages ==
               if Prunable(snapshot[scan[0]], now, maxAge) then db.messages - {scan[0]} else db.messages
  {
    assert scan[0] in scan;
    var r := snapshot[scan[0]];
    var ws := PruneOne(scan[0], r, now, maxAge);
    if Prunable(r, now, maxAge) {
      CodeRoundTrip(r.state);
      RemoveKeeps(db, scan[0]);
      assert ws == RemoveWrites(r.state, r.id, scan[0]);
    } else {
      assert Replay(db, []) == db;
    }
    AgreesRest(db, snapshot, scan, Replay(db, ws));
  }

  lemma {:induction false} PruneKeeps(db: Db, snapshot: map<string, Record>, scan: seq<string>, now: nat, maxAge: nat)
    requires GoodDb(db) && Distinct(scan) && Agrees(db, snapshot, scan)
    ensures var ws := PruneWrites(snapshot, scan, now, maxAge);
            && SafeAll(db, ws)
            && GoodDb(Replay(db, ws))
            && (Complete(db) ==> Complete(Replay(db, ws)))
    decreases |scan|
  {
    if scan != [] {
      var ws := PruneOne(scan[0], snapshot[scan[0]], now, maxAge);
      PruneStep(db, snapshot, scan, now, maxAge);
      PruneKeeps(Replay(db, ws), snapshot, scan[1..], now, maxAge);
      SafeAppend(db, ws, PruneWrites(snapshot, scan[1..], now, maxAge));
    }
  }

  function AfterExpiry(r: Record, now: nat, ttl: nat): Record {
    if Due(r, now, ttl) then ToRecord(MarkExpired(FromRecord(r, now), now), now) else r
  }

  /** Expiry rewrites exactly the due messages it scans, and touches no other. */
  lemma {:induction false} ExpireExact(db: Db, snapshot: map<string, Record>, scan: seq<string>, now: nat, ttl: nat,
                                       k: string)
    requires GoodDb(db) && Distinct(scan) && Agrees(db, snapshot, scan)
    ensures var after := Replay(db, ExpireWrites(snapshot, scan, now, ttl)).messages;
            && (k in after <==> k in db.messages)
            && (k in after ==>
                  after[k] == if k in scan then AfterExpiry(db.messages[k], now, ttl) else db.messages[k])
    decreases |scan|
  {
    if scan != [] {
      var ws := ExpireOne(snapshot[scan[0]], now, ttl);
      ExpireStep(db, snapshot, scan, now, ttl);
      ExpireExact(Replay(db, ws), snapshot, scan[1..], now, ttl, k);
      ReplayAppend(db, ws, ExpireWrites(snapshot, scan[1..], now, ttl));
      assert scan[0] !in scan[1..];
      assert k in scan <==> k == scan[0] || k in scan[1..];
    }
  }

  lemma PrunableIff(r: Record, now: nat, maxAge: nat)
    requires r.state < 6
    ensures Prunable(r, now, maxAge) <==> IsTerminal(StateOf(r.state)) && now - r.updatedMs > maxAge
  {}

  /** Pruning removes exactly the old terminal messages it scans, and touches no other. */
  lemma {:induction false} PruneExact(db: Db, snapshot: map<string, Record>, scan: seq<string>, now: nat, maxAge: nat,
                                      k: string)
    requires GoodDb(db) && Distinct(scan) && Agrees(db, snapshot, scan)
    ensures var after := Replay(db, PruneWrites(snapshot, scan, now, maxAge)).messages;
            && (k in after <==>
                  k in db.messages &&
                  !(k in scan && IsTerminal(StateOf(db.messages[k].state)) && now - db.messages[k].updatedMs > maxAge))
            && (k in after ==> after[k] == db.messages[k])
    decreases |scan|
  {
    if scan != [] {
      var ws := PruneOne(scan[0], snapshot[scan[0]], now, maxAge);
      PruneStep(db, snapshot, scan, now, maxAge);
      assert scan[0] in scan;
      PrunableIff(snapshot[scan[0]], now, maxAge);
      PruneExact(Replay(db, ws), snapshot, scan[1..], now, maxAge, k);
      ReplayAppend(db, ws, PruneWrites(snapshot, scan[1..], now, maxAge));
      assert scan[0] !in scan[1..];
      assert k in scan <==> k == scan[0] || k in scan[1..];
    }
  }
}
