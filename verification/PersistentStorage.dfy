/**
 The persistent store as an object: partitions changed one write at a time, with
 a ghost journal of the writes, and what reopening such a store recovers.
 */
module PersistentStorage {
  import opened Wrappers
  import opened Messages
  import opened Decimal
  import opened PersistentStore
  import opened PersistentRuns
  import opened PersistentEffects

  // -------------------------------------------------------------------------
  // Scans by state
  // -------------------------------------------------------------------------

  /** What `get_by_state` collects from the index keys `scan`. */
  function Collect(db: Db, scan: seq<string>, limit: nat, now: nat): seq<StoredMessage>
    requires forall k | k in scan :: k in db.index
  {
    if scan == [] || limit == 0 then []
    else
      assert scan[0] in scan;
      match Load(db, db.index[scan[0]], now)
      case Some(m) => [m] + Collect(db, scan[1..], limit - 1, now)
      case None => Collect(db, scan[1..], limit, now)
  }

  /** A duplicate-free listing of the index keys with the prefix of one state. */
  ghost predicate PrefixScan(scan: seq<string>, db: Db, state: MessageState) {
    && (forall k :: k in scan <==> k in db.index && UnderState(StateCode(state), k))
    && Distinct(scan)
  }

  function Occurrences(ms: seq<StoredMessage>, id: nat): nat {
    if ms == [] then 0 else (if ms[0].id == id then 1 else 0) + Occurrences(ms[1..], id)
  }

  lemma {:induction false} OccurrencesAppend(a: seq<StoredMessage>, b: seq<StoredMessage>, id: nat)
    ensures Occurrences(a + b, id) == Occurrences(a, id) + Occurrences(b, id)
  {
    if a == [] {
      assert a + b == b;
    } else {
      OccurrencesAppend(a[1..], b, id);
      assert (a + b)[1..] == a[1..] + b;
    }
  }

  /** An entry found under a state's prefix leads to a message in that state. */
  lemma EntryInState(db: Db, k: string, state: MessageState, now: nat)
    requires GoodDb(db) && k in db.index && UnderState(StateCode(state), k)
    ensures k == StateKey(StateCode(state), db.index[k])
    ensures var m := Load(db, db.index[k], now); m.Some? && m.value.id == db.index[k] && m.value.state == state
  {
    assert EntrySound(db, k);
    EntryOf(db, k);
    StateKeyExact(StateCode(state), db.messages[MessageKey(db.index[k])].state, db.index[k], db.index[k]);
  }

  /** Different keys of one state lead to different messages. */
  lemma KeysDiffer(db: Db, j: string, k: string, state: MessageState)
    requires GoodDb(db) && j in db.index && k in db.index && j != k
    requires UnderState(StateCode(state), j) && UnderState(StateCode(state), k)
    ensures db.index[j] != db.index[k]
  {
    EntryInState(db, j, state, 0);
    EntryInState(db, k, state, 0);
  }

  lemma OthersDiffer(db: Db, scan: seq<string>, state: MessageState)
    requires GoodDb(db) && Distinct(scan) && scan != []
    requires forall k | k in scan :: k in db.index && UnderState(StateCode(state), k)
    ensures scan[0] in scan && forall j | j in scan[1..] :: j in scan && db.index[j] != db.index[scan[0]]
  {
    assert scan[0] in scan;
    forall j | j in scan[1..] ensures j in scan && db.index[j] != db.index[scan[0]] {
      var i :| 0 <= i < |scan[1..]| && scan[1..][i] == j;
      assert scan[i + 1] == j && scan[0] != scan[i + 1];
      KeysDiffer(db, j, scan[0], state);
    }
  }

  lemma CollectFirst(db: Db, scan: seq<string>, limit: nat, now: nat, state: MessageState) returns (m: StoredMessage)
    requires GoodDb(db) && scan != [] && limit > 0
    requires forall k | k in scan :: k in db.index && UnderState(StateCode(state), k)
    ensures scan[0] in scan && m.id == db.index[scan[0]] && m.state == state
    ensures forall k | k in scan[1..] :: k in db.index && UnderState(StateCode(state), k)
    ensures Collect(db, scan, limit, now) == [m] + Collect(db, scan[1..], limit - 1, now)
  {
    assert scan[0] in scan;
    EntryInState(db, scan[0], state, now);
    m := Load(db, db.index[scan[0]], now).value;
  }

  ghost predicate Leads(db: Db, scan: seq<string>, id: nat)
    requires forall k | k in scan :: k in db.index
  {
    exists k | k in scan :: db.index[k] == id
  }

  lemma LeadsSplits(db: Db, scan: seq<string>, id: nat)
    requires scan != [] && forall k | k in scan :: k in db.index
    ensures scan[0] in scan && (forall k | k in scan[1..] :: k in scan)
    ensures Leads(db, scan, id) <==> db.index[scan[0]] == id || Leads(db, scan[1..], id)
  {
    assert scan == [scan[0]] + scan[1..];
  }

  lemma OccurrencesPush(m: StoredMessage, ms: seq<StoredMessage>, id: nat)
    ensures Occurrences([m] + ms, id) == (if m.id == id then 1 else 0) + Occurrences(ms, id)
  {
    assert ([m] + ms)[1..] == ms;
  }

  /** Each key contributes its own message once. */
  lemma {:induction false} CollectCounts(db: Db, scan: seq<string>, limit: nat, now: nat, state: MessageState, id: nat)
    requires GoodDb(db) && Distinct(scan) && limit >= |scan|
    requires forall k | k in scan :: k in db.index && UnderState(StateCode(state), k)
    ensures Occurrences(Collect(db, scan, limit, now), id) == if Leads(db, scan, id) then 1 else 0
  {
    if scan != [] {
      var m := CollectFirst(db, scan, limit, now, state);
      CollectCounts(db, scan[1..], limit - 1, now, state, id);
      OccurrencesPush(m, Collect(db, scan[1..], limit - 1, now), id);
      LeadsOnce(db, scan, state, id);
    }
  }

  lemma LeadsOnce(db: Db, scan: seq<string>, state: MessageState, id: nat)
    requires GoodDb(db) && Distinct(scan) && scan != []
    requires forall k | k in scan :: k in db.index && UnderState(StateCode(state), k)
    ensures scan[0] in scan && (forall k | k in scan[1..] :: k in scan)
    ensures Leads(db, scan, id) <==> db.index[scan[0]] == id || Leads(db, scan[1..], id)
    ensures !(db.index[scan[0]] == id && Leads(db, scan[1..], id))
  {
    LeadsSplits(db, scan, id);
    OthersDiffer(db, scan, state);
  }

  /** All that is collected is in the state that was asked for. */
  lemma {:induction false} CollectStates(db: Db, scan: seq<string>, limit: nat, now: nat, state: MessageState)
    requires GoodDb(db) && forall k | k in scan :: k in db.index && UnderState(StateCode(state), k)
    ensures forall m | m in Collect(db, scan, limit, now) :: m.state == state
  {
    if scan != [] && limit > 0 {
      var m := CollectFirst(db, scan, limit, now, state);
      CollectStates(db, scan[1..], limit - 1, now, state);
    }
  }

  /** `get_recoverable_messages`: pending, in flight, then retrying, without a limit. */
  function Recoverable(db: Db, pending: seq<string>, inFlight: seq<string>, retrying: seq<string>, now: nat)
    : seq<StoredMessage>
    requires forall k | k in pending + inFlight + retrying :: k in db.index
  {
    assert forall k | k in pending || k in inFlight || k in retrying :: k in pending + inFlight + retrying;
    Collect(db, pending, |pending|, now) + Collect(db, inFlight, |inFlight|, now)
    + Collect(db, retrying, |retrying|, now)
  }

  /** Stored under this id in this state, with its index entry. */
  predicate Listed(db: Db, id: nat, code: nat) {
    var mk := MessageKey(id);
    mk in db.messages && db.messages[mk].state == code && Indexed(db, mk)
  }

  lemma ScanStaysInState(db: Db, k: string, state: MessageState, id: nat)
    requires GoodDb(db) && k in db.index && UnderState(StateCode(state), k) && db.index[k] == id
    ensures Listed(db, id, StateCode(state))
  {
    assert EntrySound(db, k);
    EntryInState(db, k, state, 0);
    StateKeyExact(StateCode(state), db.messages[MessageKey(id)].state, id, id);
    MessageKeyInjective(db.messages[MessageKey(id)].id, id);
  }

  lemma ScanReachesMessage(db: Db, scan: seq<string>, state: MessageState, id: nat) returns (k: string)
    requires GoodDb(db) && PrefixScan(scan, db, state) && Listed(db, id, StateCode(state))
    ensures k in scan && k in db.index && db.index[k] == id
  {
    var mk := MessageKey(id);
    MessageKeyInjective(db.messages[mk].id, id);
    k := StateKey(StateCode(state), id);
    StateKeyExact(StateCode(state), StateCode(state), id, id);
  }

  lemma ScanFindsState(db: Db, scan: seq<string>, state: MessageState, id: nat)
    requires GoodDb(db) && PrefixScan(scan, db, state)
    ensures forall k | k in scan :: k in db.index && UnderState(StateCode(state), k)
    ensures Leads(db, scan, id) <==> Listed(db, id, StateCode(state))
  {
    if Leads(db, scan, id) {
      var k :| k in scan && db.index[k] == id;
      ScanStaysInState(db, k, state, id);
    } else if Listed(db, id, StateCode(state)) {
      var k := ScanReachesMessage(db, scan, state, id);
    }
  }

  /** What a reopened store has to recover. */
  predicate NonTerminal(db: Db, id: nat) {
    MessageKey(id) in db.messages && !IsTerminal(StateOf(db.messages[MessageKey(id)].state))
  }

  /**
   Reopening a store after any run, with any crashes in it: every non-terminal
   message that has its index entry is recovered exactly once, no terminal one
   and nothing else is, and the next id exceeds every stored id.
   */
  lemma RecoveryAfterCrashes(run: seq<Event>, node: Node, keys: seq<string>,
                             pending: seq<string>, inFlight: seq<string>, retrying: seq<string>, now: nat, id: nat)
    requires Reaches(Empty, run, node)
    requires Enumerates(keys, node.db.messages)
    requires PrefixScan(pending, node.db, Pending)
    requires PrefixScan(inFlight, node.db, InFlight)
    requires PrefixScan(retrying, node.db, Retrying)
    ensures forall k | k in pending + inFlight + retrying :: k in node.db.index
    ensures var ms := Recoverable(node.db, pending, inFlight, retrying, now);
            && (forall m | m in ms :: !IsTerminal(m.state))
            && Occurrences(ms, id) ==
               (if NonTerminal(node.db, id) && Indexed(node.db, MessageKey(id)) then 1 else 0)
    ensures MessageKey(id) in node.db.messages ==> id < RecoverCounter(keys)
  {
    RunKeepsInv(Empty, run, node);
    NextIdExceeds(node, keys, id);
    RecoverableStates(node.db, pending, inFlight, retrying, now);
    RecoverableOnce(node.db, pending, inFlight, retrying, now, id);
  }

  /**
   Reopening a store that was closed between the operations of a crash-free run:
   every non-terminal message is recovered exactly once, no terminal one is, and
   the next id exceeds every stored id.
   */
  lemma RecoveryIsExact(run: seq<Event>, node: Node, keys: seq<string>,
                        pending: seq<string>, inFlight: seq<string>, retrying: seq<string>, now: nat, id: nat)
    requires CrashFree(run) && Reaches(Empty, run, node)
    requires Enumerates(keys, node.db.messages)
    requires PrefixScan(pending, node.db, Pending)
    requires PrefixScan(inFlight, node.db, InFlight)
    requires PrefixScan(retrying, node.db, Retrying)
    ensures forall k | k in pending + inFlight + retrying :: k in node.db.index
    ensures var ms := Recoverable(node.db, pending, inFlight, retrying, now);
            && (forall m | m in ms :: !IsTerminal(m.state))
            && Occurrences(ms, id) == (if NonTerminal(node.db, id) then 1 else 0)
    ensures MessageKey(id) in node.db.messages ==> id < RecoverCounter(keys)
  {
    RecoveryAfterCrashes(run, node, keys, pending, inFlight, retrying, now, id);
    CrashFreeIndexes(run, node, id);
  }

  lemma CrashFreeIndexes(run: seq<Event>, node: Node, id: nat)
    requires CrashFree(run) && Reaches(Empty, run, node)
    ensures MessageKey(id) in node.db.messages ==> Indexed(node.db, MessageKey(id))
  {
    CrashFreeKeepsComplete(Empty, run, node);
  }

  lemma RecoverableOnce(db: Db, pending: seq<string>, inFlight: seq<string>, retrying: seq<string>, now: nat, id: nat)
    requires GoodDb(db)
    requires PrefixScan(pending, db, Pending) && PrefixScan(inFlight, db, InFlight)
    requires PrefixScan(retrying, db, Retrying)
    ensures forall k | k in pending + inFlight + retrying :: k in db.index
    ensures Occurrences(Recoverable(db, pending, inFlight, retrying, now), id) ==
            if NonTerminal(db, id) && Indexed(db, MessageKey(id)) then 1 else 0
  {
    RecoverableCounts(db, pending, inFlight, retrying, now, id);
    NonTerminalOnce(db, id);
  }

  lemma NonTerminalOnce(db: Db, id: nat)
    requires WellKeyed(db)
    ensures ListedIn(db, id, Pending) + ListedIn(db, id, InFlight) + ListedIn(db, id, Retrying) ==
            if NonTerminal(db, id) && Indexed(db, MessageKey(id)) then 1 else 0
  {
    NonTerminalCodes(db, MessageKey(id));
  }

  lemma ScansInIndex(db: Db, pending: seq<string>, inFlight: seq<string>, retrying: seq<string>)
    requires PrefixScan(pending, db, Pending) && PrefixScan(inFlight, db, InFlight) && PrefixScan(retrying, db, Retrying)
    ensures forall k | k in pending + inFlight + retrying :: k in db.index
  {}

  lemma OccurrencesOfThree(a: seq<StoredMessage>, b: seq<StoredMessage>, c: seq<StoredMessage>, id: nat)
    ensures Occurrences(a + b + c, id) == Occurrences(a, id) + Occurrences(b, id) + Occurrences(c, id)
  {
    OccurrencesAppend(a, b, id);
    OccurrencesAppend(a + b, c, id);
  }

  lemma RecoverableStates(db: Db, pending: seq<string>, inFlight: seq<string>, retrying: seq<string>, now: nat)
    requires GoodDb(db)
    requires PrefixScan(pending, db, Pending) && PrefixScan(inFlight, db, InFlight)
    requires PrefixScan(retrying, db, Retrying)
    ensures forall k | k in pending + inFlight + retrying :: k in db.index
    ensures forall m | m in Recoverable(db, pending, inFlight, retrying, now) :: !IsTerminal(m.state)
  {
    ScansInIndex(db, pending, inFlight, retrying);
    CollectStates(db, pending, |pending|, now, Pending);
    CollectStates(db, inFlight, |inFlight|, now, InFlight);
    CollectStates(db, retrying, |retrying|, now, Retrying);
  }

  function ListedIn(db: Db, id: nat, state: MessageState): nat {
    if Listed(db, id, StateCode(state)) then 1 else 0
  }

  lemma RecoverableCounts(db: Db, pending: seq<string>, inFlight: seq<string>, retrying: seq<string>, now: nat, id: nat)
    requires GoodDb(db)
    requires PrefixScan(pending, db, Pending) && PrefixScan(inFlight, db, InFlight)
    requires PrefixScan(retrying, db, Retrying)
    ensures forall k | k in pending + inFlight + retrying :: k in db.index
    ensures Occurrences(Recoverable(db, pending, inFlight, retrying, now), id) ==
            ListedIn(db, id, Pending) + ListedIn(db, id, InFlight) + ListedIn(db, id, Retrying)
  {
    ScansInIndex(db, pending, inFlight, retrying);
    RecoversState(db, pending, Pending, now, id);
    RecoversState(db, inFlight, InFlight, now, id);
    RecoversState(db, retrying, Retrying, now, id);
    OccurrencesOfThree(Collect(db, pending, |pending|, now), Collect(db, inFlight, |inFlight|, now),
                       Collect(db, retrying, |retrying|, now), id);
  }

  lemma NonTerminalCodes(db: Db, key: string)
    requires WellKeyed(db)
    ensures key in db.messages ==>
              var code := db.messages[key].state;
              !IsTerminal(StateOf(code)) <==>
              code == StateCode(Pending) || code == StateCode(InFlight) || code == StateCode(Retrying)
  {}

  lemma RecoversState(db: Db, scan: seq<string>, state: MessageState, now: nat, id: nat)
    requires GoodDb(db) && PrefixScan(scan, db, state)
    ensures Occurrences(Collect(db, scan, |scan|, now), id) == ListedIn(db, id, state)
  {
    ScanFindsState(db, scan, state, id);
    CollectCounts(db, scan, |scan|, now, state, id);
  }

  lemma NextIdExceeds(node: Node, keys: seq<string>, id: nat)
    requires Inv(node) && Enumerates(keys, node.db.messages)
    ensures MessageKey(id) in node.db.messages ==> id < RecoverCounter(keys)
  {
    RecoveredCounterIsFresh(node.db, keys, node.counter);
    if MessageKey(id) in node.db.messages {
      MessageKeyInjective(node.db.messages[MessageKey(id)].id, id);
    }
  }

  // -------------------------------------------------------------------------
  // The storage object
  // -------------------------------------------------------------------------

  class Storage {
    var messages: map<string, Record>
    var index: map<string, nat>
    ghost var journal: seq<Write>

    constructor ()
      ensures Value() == Empty.db && journal == []
    {
      messages := map[];
      index := map[];
      journal := [];
    }

    function Value(): Db
      reads this
    {
      Db(messages, index)
    }

    /** The state before was `db`, and since then exactly `ws` was written, in this order. */
    ghost predicate Wrote(db: Db, log: seq<Write>, ws: seq<Write>)
      reads this
    {
      Value() == Replay(db, ws) && journal == log + ws
    }

    method PersistMessage(m: StoredMessage, now: nat)
      modifies this
      ensures Wrote(old(Value()), old(journal), Persist(m, now))
    {
      var record := ToRecord(m, now);
      messages := messages[MessageKey(m.id) := record];
      index := index[StateKey(StateCode(m.state), m.id) := m.id];
      var ws := Persist(m, now);
      journal := journal + ws;
      ReplayTwo(old(Value()), ws[0], ws[1]);
    }

    method RemoveStateIndex(state: MessageState, id: nat)
      modifies this
      ensures Wrote(old(Value()), old(journal), [DropIndex(StateKey(StateCode(state), id))])
      ensures messages == old(messages)
    {
      var key := StateKey(StateCode(state), id);
      index := index - {key};
      journal := journal + [DropIndex(key)];
      assert [DropIndex(key)][1..] == [];
    }

    method Store(m: StoredMessage, now: nat)
      modifies this
      ensures Wrote(old(Value()), old(journal), Persist(m, now))
    {
      PersistMessage(m, now);
    }

    method Get(id: nat, now: nat) returns (m: Option<StoredMessage>)
      ensures m == Load(Value(), id, now)
    {
      var key := MessageKey(id);
      m := if key in messages then Some(FromRecord(messages[key], now)) else None;
    }

    /** The closure may change anything. */
    method Update(id: nat, f: StoredMessage -> StoredMessage, now: nat) returns (updated: bool)
      modifies this
      ensures updated == (MessageKey(id) in old(messages))
      ensures updated ==>
                var loaded := FromRecord(old(messages)[MessageKey(id)], now);
                Wrote(old(Value()), old(journal), UpdateWrites(StateCode(loaded.state), id, f(loaded), now))
      ensures !updated ==> Value() == old(Value()) && journal == old(journal)
    {
      var loaded := Get(id, now);
      if loaded.None? {
        return false;
      }
      var m := loaded.value;
      var oldState := m.state;
      m := f(m);
      ghost var drops := [];
      if oldState != m.state {
        RemoveStateIndex(oldState, id);
        drops := [DropIndex(StateKey(StateCode(oldState), id))];
      }
      assert Wrote(old(Value()), old(journal), drops) by {
        assert old(journal) + [] == old(journal);
      }
      PersistMessage(m, now);
      ReplayAppend(old(Value()), drops, Persist(m, now));
      assert old(journal) + drops + Persist(m, now) == old(journal) + (drops + Persist(m, now));
      assert StateCode(oldState) == StateCode(m.state) <==> oldState == m.state;
      return true;
    }

    method Delete(id: nat, now: nat) returns (deleted: bool)
      modifies this
      ensures deleted == (MessageKey(id) in old(messages))
      ensures deleted ==>
                var loaded := FromRecord(old(messages)[MessageKey(id)], now);
                Wrote(old(Value()), old(journal), RemoveWrites(StateCode(loaded.state), id, MessageKey(id)))
      ensures !deleted ==> Value() == old(Value()) && journal == old(journal)
    {
      var loaded := Get(id, now);
      if loaded.None? {
        return false;
      }
      RemoveStateIndex(loaded.value.state, id);
      messages := messages - {MessageKey(id)};
      journal := journal + [DropMessage(MessageKey(id))];
      var ws := RemoveWrites(StateCode(loaded.value.state), id, MessageKey(id));
      ReplayTwo(old(Value()), ws[0], ws[1]);
      assert ws[..1] == [ws[0]];
      assert Replay(old(Value()), [ws[0]]) == Apply(old(Value()), ws[0]);
      assert old(journal) + [ws[0]] + [ws[1]] == old(journal) + ws;
      return true;
    }

    /** One turn of the `expire_old` loop. */
    method ExpireRecord(r: Record, now: nat, ttl: nat) returns (hit: bool)
      modifies this
      ensures hit == Due(r, now, ttl)
      ensures Wrote(old(Value()), old(journal), ExpireOne(r, now, ttl))
    {
      hit := Due(r, now, ttl);
      if hit {
        RemoveStateIndex(Pending, r.id);
        var m := MarkExpired(FromRecord(r, now), now);
        PersistMessage(m, now);
        var drop := [DropIndex(StateKey(StateCode(Pending), r.id))];
        ReplayAppend(old(Value()), drop, Persist(m, now));
        assert old(journal) + drop + Persist(m, now) == old(journal) + (drop + Persist(m, now));
      } else {
        assert old(journal) + [] == old(journal);
      }
    }

    /** `expire_old`, iterating over a snapshot of the primary partition in the order `scan`. */
    method ExpireOld(scan: seq<string>, now: nat, ttl: nat) returns (expired: nat)
      requires forall k | k in scan :: k in messages
      modifies this
      ensures Wrote(old(Value()), old(journal), ExpireWrites(old(messages), scan, now, ttl))
      ensures expired == CountDue(old(messages), scan, now, ttl)
    {
      var snapshot := messages;
      ghost var done: seq<Write> := [];
      expired := 0;
      assert journal + [] == journal;
      for i := 0 to |scan|
        invariant Wrote(old(Value()), old(journal), done)
        invariant done + ExpireWrites(snapshot, scan[i..], now, ttl) == ExpireWrites(snapshot, scan, now, ttl)
        invariant expired + CountDue(snapshot, scan[i..], now, ttl) == CountDue(snapshot, scan, now, ttl)
      {
        var r := snapshot[scan[i]];
        ghost var db, log := Value(), journal;
        var hit := ExpireRecord(r, now, ttl);
        if hit {
          expired := expired + 1;
        }
        ghost var ws := ExpireOne(r, now, ttl);
        ExpireTurn(snapshot, scan, i, now, ttl, done);
        Extend(old(Value()), old(journal), done, db, log, ws);
        done := done + ws;
      }
      assert done + [] == done;
    }

    /** One turn of the second loop of `prune_terminal`. */
    method PruneRecord(key: string, r: Record)
      modifies this
      ensures Wrote(old(Value()), old(journal), RemoveWrites(StateCode(StateOf(r.state)), r.id, key))
    {
      RemoveStateIndex(StateOf(r.state), r.id);
      messages := messages - {key};
      journal := journal + [DropMessage(key)];
      var ws := RemoveWrites(StateCode(StateOf(r.state)), r.id, key);
      ReplayTwo(old(Value()), ws[0], ws[1]);
      assert Replay(old(Value()), [ws[0]]) == Apply(old(Value()), ws[0]);
      assert old(journal) + [ws[0]] + [ws[1]] == old(journal) + ws;
    }

    /** The first loop of `prune_terminal`. */
    static method CollectPrunable(snapshot: map<string, Record>, scan: seq<string>, now: nat, maxAge: nat)
      returns (doomed: seq<string>)
      requires forall k | k in scan :: k in snapshot
      ensures doomed == PrunableKeys(snapshot, scan, now, maxAge)
    {
      doomed := [];
      for i := 0 to |scan|
        invariant doomed + PrunableKeys(snapshot, scan[i..], now, maxAge) == PrunableKeys(snapshot, scan, now, maxAge)
      {
        PrunableTurn(snapshot, scan, i, now, maxAge, doomed);
        if Prunable(snapshot[scan[i]], now, maxAge) {
          doomed := doomed + [scan[i]];
        }
      }
    }

    /** `prune_terminal`: first collect what is old and terminal, then remove it. */
    method PruneTerminal(scan: seq<string>, now: nat, maxAge: nat) returns (pruned: nat)
      requires forall k | k in scan :: k in messages
      modifies this
      ensures Wrote(old(Value()), old(journal), PruneWrites(old(messages), scan, now, maxAge))
      ensures pruned == |PrunableKeys(old(messages), scan, now, maxAge)|
      ensures GoodDb(old(Value())) && Enumerates(scan, old(messages)) ==>
                forall k | k in old(messages) ::
                  k in messages <==>
                  !(IsTerminal(StateOf(old(messages)[k].state)) && now - old(messages)[k].updatedMs > maxAge)
    {
      if GoodDb(Value()) && Enumerates(scan, messages) {
        PrunedIffOld(Value(), scan, now, maxAge);
      }
      var snapshot := messages;
      var doomed := CollectPrunable(snapshot, scan, now, maxAge);
      PrunableKeysWrites(snapshot, scan, now, maxAge);
      pruned := 0;
      ghost var done: seq<Write> := [];
      assert journal + [] == journal;
      for i := 0 to |doomed|
        invariant Wrote(old(Value()), old(journal), done) && pruned == i
        invariant done + PruneWrites(snapshot, doomed[i..], now, maxAge) == PruneWrites(snapshot, scan, now, maxAge)
      {
        var r := snapshot[doomed[i]];
        ghost var db, log := Value(), journal;
        PruneRecord(doomed[i], r);
        pruned := pruned + 1;
        ghost var ws := RemoveWrites(StateCode(StateOf(r.state)), r.id, doomed[i]);
        DoomedTurn(snapshot, doomed, i, now, maxAge, done);
        Extend(old(Value()), old(journal), done, db, log, ws);
        done := done + ws;
      }
      assert done + [] == done;
    }

    /** The loop over one state's index entries, up to `limit` results. */
    method GetByState(scan: seq<string>, limit: nat, now: nat) returns (results: seq<StoredMessage>)
      requires forall k | k in scan :: k in index
      ensures results == Collect(Value(), scan, limit, now)
    {
      results := [];
      for i := 0 to |scan|
        invariant |results| <= limit
        invariant results + Collect(Value(), scan[i..], limit - |results|, now) == Collect(Value(), scan, limit, now)
      {
        if |results| >= limit {
          break;
        }
        assert scan[i..][1..] == scan[i + 1..] && scan[i..][0] == scan[i];
        var m := Get(index[scan[i]], now);
        match m {
          case Some(msg) =>
            assert results + ([msg] + Collect(Value(), scan[i + 1..], limit - |results| - 1, now)) ==
                   results + [msg] + Collect(Value(), scan[i + 1..], limit - |results| - 1, now);
            results := results + [msg];
          case None =>
        }
      }
      assert results + [] == results;
    }

    /** The loop of `recover_counters` over the primary keys. */
    method RecoverCounters(scan: seq<string>) returns (counter: nat)
      ensures counter == RecoverCounter(scan)
    {
      var max := 0;
      for i := 0 to |scan|
        invariant max == MaxId(scan[..i])
      {
        assert scan[..i + 1][..i] == scan[..i];
        if "msg_" <= scan[i] {
          var id := ParseUnsigned(scan[i][4..], U64_BOUND);
          if id.Some? {
            max := if id.value > max then id.value else max;
          }
        }
      }
      assert scan[..|scan|] == scan;
      counter := max + 1;
    }
  }

  lemma Extend(db: Db, log: seq<Write>, done: seq<Write>, db1: Db, log1: seq<Write>, ws: seq<Write>)
    requires db1 == Replay(db, done) && log1 == log + done
    ensures Replay(db1, ws) == Replay(db, done + ws) && log1 + ws == log + (done + ws)
  {
    ReplayAppend(db, done, ws);
  }

  lemma ExpireTurn(snapshot: map<string, Record>, scan: seq<string>, i: nat, now: nat, ttl: nat, done: seq<Write>)
    requires i < |scan| && forall k | k in scan :: k in snapshot
    ensures done + ExpireWrites(snapshot, scan[i..], now, ttl) ==
            (done + ExpireOne(snapshot[scan[i]], now, ttl)) + ExpireWrites(snapshot, scan[i + 1..], now, ttl)
    ensures CountDue(snapshot, scan[i..], now, ttl) ==
            (if Due(snapshot[scan[i]], now, ttl) then 1 else 0) + CountDue(snapshot, scan[i + 1..], now, ttl)
  {
    assert scan[i..][1..] == scan[i + 1..];
  }

  lemma PruneTurn(snapshot: map<string, Record>, scan: seq<string>, i: nat, now: nat, maxAge: nat, done: seq<Write>)
    requires i < |scan| && forall k | k in scan :: k in snapshot
    ensures done + PruneWrites(snapshot, scan[i..], now, maxAge) ==
            (done + PruneOne(scan[i], snapshot[scan[i]], now, maxAge))
            + PruneWrites(snapshot, scan[i + 1..], now, maxAge)
  {
    assert scan[i..][1..] == scan[i + 1..];
  }

  /** The same for a key already known to be pruned. */
  lemma DoomedTurn(snapshot: map<string, Record>, doomed: seq<string>, i: nat, now: nat, maxAge: nat, done: seq<Write>)
    requires i < |doomed| && forall k | k in doomed :: k in snapshot && Prunable(snapshot[k], now, maxAge)
    ensures doomed[i] in doomed
    ensures var r := snapshot[doomed[i]];
            done + PruneWrites(snapshot, doomed[i..], now, maxAge) ==
            (done + RemoveWrites(StateCode(StateOf(r.state)), r.id, doomed[i]))
            + PruneWrites(snapshot, doomed[i + 1..], now, maxAge)
  {
    assert doomed[i] in doomed;
    PruneTurn(snapshot, doomed, i, now, maxAge, done);
  }

  function CountDue(snapshot: map<string, Record>, scan: seq<string>, now: nat, ttl: nat): nat
    requires forall k | k in scan :: k in snapshot
  {
    if scan == [] then 0
    else (if Due(snapshot[scan[0]], now, ttl) then 1 else 0) + CountDue(snapshot, scan[1..], now, ttl)
  }

  function PrunableKeys(snapshot: map<string, Record>, scan: seq<string>, now: nat, maxAge: nat): (keys: seq<string>)
    requires forall k | k in scan :: k in snapshot
    ensures forall k | k in keys :: k in snapshot && Prunable(snapshot[k], now, maxAge)
  {
    if scan == [] then []
    else (if Prunable(snapshot[scan[0]], now, maxAge) then [scan[0]] else [])
         + PrunableKeys(snapshot, scan[1..], now, maxAge)
  }

  lemma PrunableTurn(snapshot: map<string, Record>, scan: seq<string>, i: nat, now: nat, maxAge: nat,
                     doomed: seq<string>)
    requires i < |scan| && forall k | k in scan :: k in snapshot
    ensures doomed + PrunableKeys(snapshot, scan[i..], now, maxAge) ==
            (if Prunable(snapshot[scan[i]], now, maxAge) then doomed + [scan[i]] else doomed)
            + PrunableKeys(snapshot, scan[i + 1..], now, maxAge)
  {
    assert scan[i..][1..] == scan[i + 1..];
  }

  lemma {:induction false} PrunableKeysWrites(snapshot: map<string, Record>, scan: seq<string>, now: nat, maxAge: nat)
    requires forall k | k in scan :: k in snapshot
    ensures PruneWrites(snapshot, PrunableKeys(snapshot, scan, now, maxAge), now, maxAge) ==
            PruneWrites(snapshot, scan, now, maxAge)
  {
    if scan != [] {
      PrunableKeysWrites(snapshot, scan[1..], now, maxAge);
      var rest := PrunableKeys(snapshot, scan[1..], now, maxAge);
      if Prunable(snapshot[scan[0]], now, maxAge) {
        assert ([scan[0]] + rest)[1..] == rest;
      } else {
        assert [] + rest == rest;
      }
    }
  }
}
