/**
 Exactly which crash points of each operation leave a message out of the state
 index. (That no entry is ever wrong is shown in `PersistentRuns`.)
 */
module PersistentCrashes {
  import opened Wrappers
  import opened Messages
  import opened Arithmetic
  import opened PersistentStore
  import opened PersistentRuns

  lemma ReplayPrefix(db: Db, a: seq<Write>, b: seq<Write>, n: nat)
    requires |a| <= n <= |a| + |b|
    ensures Replay(db, (a + b)[..n]) == Replay(Replay(db, a), b[..n - |a|])
  {
    assert (a + b)[..n] == a + b[..n - |a|];
    ReplayAppend(db, a, b[..n - |a|]);
  }

  lemma Turns(n: nat, k: nat, d: nat)
    requires k < d && k % d == n % d
    ensures n % d == 0 <==> k == 0
  {
    Small(k, d);
  }

  lemma ReplayNone(db: Db, ws: seq<Write>)
    ensures Replay(db, ws[..0]) == db
  {}

  lemma ReplayFirst(db: Db, ws: seq<Write>)
    requires ws != []
    ensures Replay(db, ws[..1]) == Apply(db, ws[0])
  {
    assert ws[..1] == [ws[0]] && [ws[0]][1..] == [];
    assert Replay(Apply(db, ws[0]), []) == Apply(db, ws[0]);
  }

  lemma ReplayFirstTwo(db: Db, ws: seq<Write>)
    requires |ws| >= 2
    ensures Replay(db, ws[..2]) == Apply(Apply(db, ws[0]), ws[1])
  {
    assert ws[..2] == [ws[0], ws[1]];
    ReplayTwo(db, ws[0], ws[1]);
  }

  lemma ReplayWhole(db: Db, ws: seq<Write>)
    ensures Replay(db, ws[..|ws|]) == Replay(db, ws)
  {
    assert ws[..|ws|] == ws;
  }

  /** No entry stands under a state in which the message is not. */
  lemma NotListed(db: Db, code: nat, id: nat)
    requires GoodDb(db) && code < 6
    requires MessageKey(id) in db.messages ==> db.messages[MessageKey(id)].state != code
    ensures StateKey(code, id) !in db.index
  {
    var entry := StateKey(code, id);
    if entry in db.index {
      assert EntrySound(db, entry);
      StateKeyExact(code, db.messages[MessageKey(db.index[entry])].state, id, db.index[entry]);
    }
  }

  // -------------------------------------------------------------------------
  // One message
  // -------------------------------------------------------------------------

  /** A new message is lost to the index between its two writes. */
  lemma StoreCrash(db: Db, m: StoredMessage, now: nat, n: nat)
    requires GoodDb(db) && Complete(db) && MessageKey(m.id) !in db.messages && n <= 2
    ensures Complete(Replay(db, Persist(m, now)[..n])) <==> n != 1
  {
    var ws := Persist(m, now);
    if n == 0 {
      ReplayNone(db, ws);
    } else if n == 1 {
      ReplayFirst(db, ws);
      NotListed(db, StateCode(m.state), m.id);
      assert !Indexed(Apply(db, ws[0]), MessageKey(m.id));
    } else {
      ReplayWhole(db, ws);
      StoreKeeps(db, m, now);
    }
  }

  lemma RemoveCrash(db: Db, k: string, n: nat)
    requires GoodDb(db) && Complete(db) && k in db.messages && n <= 2
    ensures Complete(Replay(db, RemoveWrites(db.messages[k].state, db.messages[k].id, k)[..n])) <==> n != 1
  {
    var ws := RemoveWrites(db.messages[k].state, db.messages[k].id, k);
    if n == 0 {
      ReplayNone(db, ws);
    } else if n == 1 {
      ReplayFirst(db, ws);
      assert !Indexed(Apply(db, ws[0]), k);
    } else {
      ReplayWhole(db, ws);
      RemoveKeeps(db, k);
    }
  }

  lemma SameStateCrash(db: Db, m: StoredMessage, now: nat)
    requires GoodDb(db) && Complete(db) && MessageKey(m.id) in db.messages
    requires db.messages[MessageKey(m.id)].state == StateCode(m.state)
    ensures Complete(Apply(db, Persist(m, now)[0]))
  {
    var mk := MessageKey(m.id);
    MessageKeyInjective(db.messages[mk].id, m.id);
    var db1 := Apply(db, Persist(m, now)[0]);
    forall k | k in db1.messages ensures Indexed(db1, k) {
      assert Indexed(db, k);
    }
  }

  lemma ChangedStateCrash(db: Db, m: StoredMessage, now: nat, n: nat)
    requires GoodDb(db) && MessageKey(m.id) in db.messages && 1 <= n <= 2
    requires db.messages[MessageKey(m.id)].state != StateCode(m.state)
    ensures var ws := RewriteWrites(db.messages[MessageKey(m.id)].state, m, now);
            |ws| == 3 && !Complete(Replay(db, ws[..n]))
  {
    var mk := MessageKey(m.id);
    MessageKeyInjective(db.messages[mk].id, m.id);
    var ws := RewriteWrites(db.messages[mk].state, m, now);
    if n == 1 {
      ReplayFirst(db, ws);
      assert !Indexed(Apply(db, ws[0]), mk);
    } else {
      ReplayFirstTwo(db, ws);
      NotListed(db, StateCode(m.state), m.id);
      assert !Indexed(Apply(Apply(db, ws[0]), ws[1]), mk);
    }
  }

  /**
   A crash inside an update leaves a message out of the index exactly when the
   update changes the state and some but not all of its writes happened.
   */
  lemma UpdateCrash(db: Db, m: StoredMessage, now: nat, n: nat)
    requires GoodDb(db) && Complete(db) && MessageKey(m.id) in db.messages
    requires n <= |RewriteWrites(db.messages[MessageKey(m.id)].state, m, now)|
    ensures var oldCode := db.messages[MessageKey(m.id)].state;
            var ws := RewriteWrites(oldCode, m, now);
            Complete(Replay(db, ws[..n])) <==> (oldCode == StateCode(m.state) || n == 0 || n == |ws|)
  {
    var oldCode := db.messages[MessageKey(m.id)].state;
    var ws := RewriteWrites(oldCode, m, now);
    if n == 0 {
      ReplayNone(db, ws);
    } else if n == |ws| {
      ReplayWhole(db, ws);
      RewriteKeeps(db, m, now);
    } else if oldCode == StateCode(m.state) {
      ReplayFirst(db, ws);
      SameStateCrash(db, m, now);
    } else {
      ChangedStateCrash(db, m, now, n);
    }
  }

  // -------------------------------------------------------------------------
  // Scans
  // -------------------------------------------------------------------------

  lemma ExpireOneCrash(db: Db, k: string, now: nat, ttl: nat, n: nat)
    requires GoodDb(db) && Complete(db) && k in db.messages && n < |ExpireOne(db.messages[k], now, ttl)|
    ensures |ExpireOne(db.messages[k], now, ttl)| == 3
    ensures Complete(Replay(db, ExpireOne(db.messages[k], now, ttl)[..n])) <==> n == 0
  {
    var r := db.messages[k];
    assert k == MessageKey(r.id);
    UpdateCrash(db, MarkExpired(FromRecord(r, now), now), now, n);
  }

  function ExpireLength(r: Record, now: nat, ttl: nat): (n: nat)
    ensures n == |ExpireOne(r, now, ttl)|
  {
    if Due(r, now, ttl) then 3 else 0
  }

  /** A scan about to begin, or to go on, over a complete index. */
  predicate Ready(db: Db, snapshot: map<string, Record>, scan: seq<string>) {
    GoodDb(db) && Complete(db) && Distinct(scan) && Agrees(db, snapshot, scan)
  }

  lemma ExpireInside(db: Db, snapshot: map<string, Record>, scan: seq<string>, now: nat, ttl: nat, n: nat)
    requires scan != [] && Ready(db, snapshot, scan)
    requires scan[0] in snapshot && n < ExpireLength(snapshot[scan[0]], now, ttl)
    ensures Complete(Replay(db, ExpireWrites(snapshot, scan, now, ttl)[..n])) <==> n == 0
  {
    assert scan[0] in scan;
    var one, rest := ExpireOne(snapshot[scan[0]], now, ttl), ExpireWrites(snapshot, scan[1..], now, ttl);
    assert (one + rest)[..n] == one[..n];
    ExpireOneCrash(db, scan[0], now, ttl, n);
  }

  lemma ExpireAdvance(db: Db, snapshot: map<string, Record>, scan: seq<string>, now: nat, ttl: nat, n: nat)
    returns (next: Db, m: nat)
    requires scan != [] && Ready(db, snapshot, scan)
    requires ExpireLength(snapshot[scan[0]], now, ttl) <= n <= |ExpireWrites(snapshot, scan, now, ttl)|
    ensures Ready(next, snapshot, scan[1..])
    ensures m % 3 == n % 3 && m <= |ExpireWrites(snapshot, scan[1..], now, ttl)|
    ensures Replay(db, ExpireWrites(snapshot, scan, now, ttl)[..n]) ==
            Replay(next, ExpireWrites(snapshot, scan[1..], now, ttl)[..m])
  {
    var one, rest := ExpireOne(snapshot[scan[0]], now, ttl), ExpireWrites(snapshot, scan[1..], now, ttl);
    ExpireStep(db, snapshot, scan, now, ttl);
    next, m := ExpireRest(db, one, rest, n);
  }

  lemma ExpireRest(db: Db, one: seq<Write>, rest: seq<Write>, n: nat) returns (next: Db, m: nat)
    requires (one == [] || |one| == 3) && |one| <= n <= |one| + |rest|
    ensures next == Replay(db, one) && m <= |rest| && m % 3 == n % 3
    ensures Replay(db, (one + rest)[..n]) == Replay(next, rest[..m])
  {
    ReplayPrefix(db, one, rest, n);
    next, m := Replay(db, one), n - |one|;
  }

  /** Where n writes of the scan lead: into one of its messages, or to its end. */
  lemma {:induction false} ExpireLocate(db: Db, snapshot: map<string, Record>, scan: seq<string>, now: nat, ttl: nat, n: nat)
    returns (at: Db, rest: seq<string>, k: nat)
    requires Ready(db, snapshot, scan) && n <= |ExpireWrites(snapshot, scan, now, ttl)|
    ensures Ready(at, snapshot, rest) && k % 3 == n % 3
    ensures if rest == [] then k == 0 else rest[0] in snapshot && k < ExpireLength(snapshot[rest[0]], now, ttl)
    ensures k <= |ExpireWrites(snapshot, rest, now, ttl)|
    ensures Replay(db, ExpireWrites(snapshot, scan, now, ttl)[..n]) == Replay(at, ExpireWrites(snapshot, rest, now, ttl)[..k])
    decreases |scan|
  {
    if scan == [] {
      return db, scan, n;
    }
    assert scan[0] in scan;
    var length := ExpireLength(snapshot[scan[0]], now, ttl);
    if n < length {
      return db, scan, n;
    }
    var next, m := ExpireAdvance(db, snapshot, scan, now, ttl, n);
    at, rest, k := ExpireLocate(next, snapshot, scan[1..], now, ttl, m);
  }

  lemma ExpireHere(at: Db, snapshot: map<string, Record>, rest: seq<string>, now: nat, ttl: nat, k: nat)
    requires Ready(at, snapshot, rest) && if rest == [] then k == 0 else rest[0] in snapshot && k < ExpireLength(snapshot[rest[0]], now, ttl)
    ensures k < 3 && k <= |ExpireWrites(snapshot, rest, now, ttl)|
    ensures Complete(Replay(at, ExpireWrites(snapshot, rest, now, ttl)[..k])) <==> k == 0
  {
    if rest == [] {
      ReplayNone(at, ExpireWrites(snapshot, rest, now, ttl));
    } else {
      ExpireInside(at, snapshot, rest, now, ttl, k);
    }
  }

  /** Expiry makes three writes for each due message; between them, that message is lost. */
  lemma ExpireCrash(db: Db, snapshot: map<string, Record>, scan: seq<string>, now: nat, ttl: nat, n: nat)
    requires Ready(db, snapshot, scan) && n <= |ExpireWrites(snapshot, scan, now, ttl)|
    ensures Complete(Replay(db, ExpireWrites(snapshot, scan, now, ttl)[..n])) <==> n % 3 == 0
  {
    var at, rest, k := ExpireLocate(db, snapshot, scan, now, ttl, n);
    ExpireHere(at, snapshot, rest, now, ttl, k);
    Turns(n, k, 3);
  }

  lemma PruneOneCrash(db: Db, k: string, now: nat, maxAge: nat, n: nat)
    requires GoodDb(db) && Complete(db) && k in db.messages && n < |PruneOne(k, db.messages[k], now, maxAge)|
    ensures Complete(Replay(db, PruneOne(k, db.messages[k], now, maxAge)[..n])) <==> n == 0
  {
    CodeRoundTrip(db.messages[k].state);
    RemoveCrash(db, k, n);
  }

  function PruneLength(k: string, r: Record, now: nat, maxAge: nat): (n: nat)
    ensures n == |PruneOne(k, r, now, maxAge)|
  {
    if Prunable(r, now, maxAge) then 2 else 0
  }

  lemma PruneInside(db: Db, snapshot: map<string, Record>, scan: seq<string>, now: nat, maxAge: nat, n: nat)
    requires scan != [] && Ready(db, snapshot, scan)
    requires scan[0] in snapshot && n < PruneLength(scan[0], snapshot[scan[0]], now, maxAge)
    ensures Complete(Replay(db, PruneWrites(snapshot, scan, now, maxAge)[..n])) <==> n == 0
  {
    assert scan[0] in scan;
    var one, rest := PruneOne(scan[0], snapshot[scan[0]], now, maxAge), PruneWrites(snapshot, scan[1..], now, maxAge);
    assert (one + rest)[..n] == one[..n];
    PruneOneCrash(db, scan[0], now, maxAge, n);
  }

  lemma PruneAdvance(db: Db, snapshot: map<string, Record>, scan: seq<string>, now: nat, maxAge: nat, n: nat)
    returns (next: Db, m: nat)
    requires scan != [] && Ready(db, snapshot, scan)
    requires PruneLength(scan[0], snapshot[scan[0]], now, maxAge) <= n <= |PruneWrites(snapshot, scan, now, maxAge)|
    ensures Ready(next, snapshot, scan[1..])
    ensures m % 2 == n % 2 && m <= |PruneWrites(snapshot, scan[1..], now, maxAge)|
    ensures Replay(db, PruneWrites(snapshot, scan, now, maxAge)[..n]) ==
            Replay(next, PruneWrites(snapshot, scan[1..], now, maxAge)[..m])
  {
    var one, rest := PruneOne(scan[0], snapshot[scan[0]], now, maxAge), PruneWrites(snapshot, scan[1..], now, maxAge);
    PruneStep(db, snapshot, scan, now, maxAge);
    next, m := PruneRest(db, one, rest, n);
  }

  lemma PruneRest(db: Db, one: seq<Write>, rest: seq<Write>, n: nat) returns (next: Db, m: nat)
    requires (one == [] || |one| == 2) && |one| <= n <= |one| + |rest|
    ensures next == Replay(db, one) && m <= |rest| && m % 2 == n % 2
    ensures Replay(db, (one + rest)[..n]) == Replay(next, rest[..m])
  {
    ReplayPrefix(db, one, rest, n);
    next, m := Replay(db, one), n - |one|;
  }

  /** Where n writes of the scan lead: into one of its messages, or to its end. */
  lemma {:induction false} PruneLocate(db: Db, snapshot: map<string, Record>, scan: seq<string>, now: nat, maxAge: nat, n: nat)
    returns (at: Db, rest: seq<string>, k: nat)
    requires Ready(db, snapshot, scan) && n <= |PruneWrites(snapshot, scan, now, maxAge)|
    ensures Ready(at, snapshot, rest) && k % 2 == n % 2
    ensures if rest == [] then k == 0 else rest[0] in snapshot && k < PruneLength(rest[0], snapshot[rest[0]], now, maxAge)
    ensures k <= |PruneWrites(snapshot, rest, now, maxAge)|
    ensures Replay(db, PruneWrites(snapshot, scan, now, maxAge)[..n]) == Replay(at, PruneWrites(snapshot, rest, now, maxAge)[..k])
    decreases |scan|
  {
    if scan == [] {
      return db, scan, n;
    }
    assert scan[0] in scan;
    var length := PruneLength(scan[0], snapshot[scan[0]], now, maxAge);
    if n < length {
      return db, scan, n;
    }
    var next, m := PruneAdvance(db, snapshot, scan, now, maxAge, n);
    at, rest, k := PruneLocate(next, snapshot, scan[1..], now, maxAge, m);
  }

  lemma PruneHere(at: Db, snapshot: map<string, Record>, rest: seq<string>, now: nat, maxAge: nat, k: nat)
    requires Ready(at, snapshot, rest) && if rest == [] then k == 0 else rest[0] in snapshot && k < PruneLength(rest[0], snapshot[rest[0]], now, maxAge)
    ensures k < 2 && k <= |PruneWrites(snapshot, rest, now, maxAge)|
    ensures Complete(Replay(at, PruneWrites(snapshot, rest, now, maxAge)[..k])) <==> k == 0
  {
    if rest == [] {
      ReplayNone(at, PruneWrites(snapshot, rest, now, maxAge));
    } else {
      PruneInside(at, snapshot, rest, now, maxAge, k);
    }
  }

  /** Pruning makes two writes for each old terminal message; between them, that message is lost. */
  lemma PruneCrash(db: Db, snapshot: map<string, Record>, scan: seq<string>, now: nat, maxAge: nat, n: nat)
    requires Ready(db, snapshot, scan) && n <= |PruneWrites(snapshot, scan, now, maxAge)|
    ensures Complete(Replay(db, PruneWrites(snapshot, scan, now, maxAge)[..n])) <==> n % 2 == 0
  {
    var at, rest, k := PruneLocate(db, snapshot, scan, now, maxAge, n);
    PruneHere(at, snapshot, rest, now, maxAge, k);
    Turns(n, k, 2);
  }

  // -------------------------------------------------------------------------
  // Every operation
  // -------------------------------------------------------------------------

  /** The update keeps the state the message was in. */
  predicate KeepsState(db: Db, m: StoredMessage) {
    MessageKey(m.id) in db.messages && db.messages[MessageKey(m.id)].state == StateCode(m.state)
  }

  /** After n writes the operation is not in the middle of one message. */
  predicate BetweenMessages(db: Db, op: Op, n: nat) {
    match op
    case Store(_, _, _, _) => n != 1
    case Update(m) => KeepsState(db, m) || n == 0 || n == 3
    case Delete(_) => n != 1
    case Expire(_, _) => n % 3 == 0
    case Prune(_, _) => n % 2 == 0
    case Draw => true
  }

  /**
   From a complete index, a crash after n writes of any operation leaves some
   message out of the index if and only if it falls between the writes for one
   message, where an update that keeps the state leaves none out at all.
   */
  lemma CrashLosesEntryIff(node: Node, op: Op, now: nat, n: nat)
    requires Inv(node) && Complete(node.db) && Allowed(node, op) && n <= |OpWrites(node, op, now)|
    ensures Complete(Replay(node.db, OpWrites(node, op, now)[..n])) <==> BetweenMessages(node.db, op, n)
  {
    match op
    case Store(state, priority, content, createdAt) =>
      FreshKey(node);
      StoreCrash(node.db, StoredMessage(node.counter, state, priority, content, createdAt, now, None), now, n);
    case Update(m) =>
      if MessageKey(m.id) in node.db.messages {
        CodeRoundTrip(node.db.messages[MessageKey(m.id)].state);
        UpdateCrash(node.db, m, now, n);
      } else {
        ReplayNone(node.db, []);
      }
    case Delete(id) =>
      if MessageKey(id) in node.db.messages {
        var r := node.db.messages[MessageKey(id)];
        MessageKeyInjective(r.id, id);
        CodeRoundTrip(r.state);
        RemoveCrash(node.db, MessageKey(id), n);
      } else {
        ReplayNone(node.db, []);
      }
    case Expire(scan, ttl) =>
      EnumerationAgrees(node.db, scan);
      ExpireCrash(node.db, node.db.messages, scan, now, ttl, n);
    case Prune(scan, maxAge) =>
      EnumerationAgrees(node.db, scan);
      PruneCrash(node.db, node.db.messages, scan, now, maxAge, n);
    case Draw => ReplayNone(node.db, []);
  }
}
