/** The in-memory store as an object: its loops over the table are the steps of `MemoryStore`. */
module MemoryStorage {
  import opened Wrappers
  import opened Messages
  import opened MemoryStore
  import StableSort

  /** An order in which the table may be iterated. */
  ghost predicate Lists(order: seq<nat>, t: Table) {
    NoDuplicates(order) && forall id :: id in order <==> id in t
  }

  // -------------------------------------------------------------------------
  // Sequences of ids
  // -------------------------------------------------------------------------

  function Elements(q: seq<nat>): set<nat> {
    set id | id in q
  }

  lemma {:induction false} ElementCount(q: seq<nat>)
    requires NoDuplicates(q)
    ensures |Elements(q)| == |q|
  {
    if q != [] {
      var rest, last := q[..|q| - 1], q[|q| - 1];
      ElementCount(rest);
      assert last !in rest;
      assert q == rest + [last];
      assert Elements(q) == Elements(rest) + {last};
    }
  }

  lemma ListedAt(order: seq<nat>, t: Table, i: nat)
    requires Lists(order, t) && i < |order|
    ensures order[i] in t && order[i] !in order[..i] && order[..i + 1] == order[..i] + [order[i]]
  {
    assert order[i] in order;
  }

  lemma NextElement(ids: seq<nat>, i: nat)
    requires i < |ids| && ids[i] !in ids[..i]
    ensures Elements(ids[..i + 1]) == Elements(ids[..i]) + {ids[i]}
    ensures Elements(ids[..i + 1]) - {ids[i]} == Elements(ids[..i])
  {}

  /** The listed ids whose message satisfies a test, in order. */
  function Select(order: seq<nat>, t: Table, test: StoredMessage -> bool): seq<nat> {
    if order == [] then []
    else
      var id := order[|order| - 1];
      Select(order[..|order| - 1], t, test) + if id in t && test(t[id]) then [id] else []
  }

  lemma SelectNext(order: seq<nat>, i: nat, t: Table, test: StoredMessage -> bool)
    requires i < |order| && order[i] in t
    ensures Select(order[..i + 1], t, test) == Select(order[..i], t, test) + if test(t[order[i]]) then [order[i]] else []
  {
    assert order[..i + 1][..i] == order[..i];
  }

  lemma {:induction false} SelectContains(order: seq<nat>, t: Table, test: StoredMessage -> bool, id: nat)
    ensures id in Select(order, t, test) <==> id in order && id in t && test(t[id])
  {
    if order != [] {
      SelectContains(order[..|order| - 1], t, test, id);
      assert order == order[..|order| - 1] + [order[|order| - 1]];
    }
  }

  lemma {:induction false} SelectNoDuplicates(order: seq<nat>, t: Table, test: StoredMessage -> bool)
    requires NoDuplicates(order)
    ensures NoDuplicates(Select(order, t, test))
  {
    if order != [] {
      var rest, last := order[..|order| - 1], order[|order| - 1];
      SelectNoDuplicates(rest, t, test);
      SelectContains(rest, t, test, last);
      var before := Select(rest, t, test);
      assert forall i | 0 <= i < |before| :: before[i] in before;
    }
  }

  /** The test picks each listed id at most once, and those that pass it. */
  lemma Selected(order: seq<nat>, t: Table, ids: seq<nat>, test: StoredMessage -> bool)
    requires Lists(order, t) && ids == Select(order, t, test)
    ensures NoDuplicates(ids)
    ensures forall id :: id in ids <==> id in t && test(t[id])
  {
    SelectNoDuplicates(order, t, test);
    forall id ensures id in ids <==> id in t && test(t[id]) {
      SelectContains(order, t, test, id);
    }
  }

  /** The old terminal messages. */
  function OldTerminal(t: Table, cutoff: int): set<nat> {
    set id | id in t && IsOldTerminal(t[id], cutoff)
  }

  // -------------------------------------------------------------------------
  // Eviction
  // -------------------------------------------------------------------------

  predicate OldestFirst(ids: seq<nat>, t: Table) {
    && NoDuplicates(ids)
    && (forall i | 0 <= i < |ids| :: ids[i] in t)
    && (forall i, j | 0 <= i < j < |ids| :: t[ids[i]].updatedAt <= t[ids[j]].updatedAt)
  }

  function SortByUpdated(ids: seq<nat>, t: Table): seq<nat>
    requires forall i | 0 <= i < |ids| :: ids[i] in t
  {
    StableSort.Sort(ids, seq(|ids|, i requires 0 <= i < |ids| => t[ids[i]].updatedAt))
  }

  lemma SortedByUpdated(ids: seq<nat>, t: Table)
    requires NoDuplicates(ids) && forall i | 0 <= i < |ids| :: ids[i] in t
    ensures OldestFirst(SortByUpdated(ids, t), t)
    ensures forall id :: id in SortByUpdated(ids, t) <==> id in ids
  {
    var keys: seq<int> := seq(|ids|, i requires 0 <= i < |ids| => t[ids[i]].updatedAt);
    var order := StableSort.SortedPositions(keys);
    var sorted := SortByUpdated(ids, t);
    assert forall p | 0 <= p < |ids| :: order[p] < |ids| && sorted[p] == ids[order[p]];
    forall p, q | 0 <= p < q < |sorted|
      ensures sorted[p] != sorted[q] && t[sorted[p]].updatedAt <= t[sorted[q]].updatedAt
    {
      StableSort.LeastInOrder(keys, order, p, q);
    }
    forall id | id in ids ensures id in sorted {
      var j :| 0 <= j < |ids| && ids[j] == id;
      var q := StableSort.PositionOf(keys, order, j);
      assert sorted[q] == id;
    }
  }

  /** Removing the first of the terminal messages, oldest first, is an eviction. */
  lemma RemovingOldestEvicts(t: Table, ids: seq<nat>, t': Table, count: nat)
    requires OldestFirst(ids, t) && (forall id :: id in ids <==> id in Terminal(t))
    requires t' == t - Elements(ids[..Min(count, |ids|)])
    ensures Evicted(t, t', count) && Gone(t, t') == Elements(ids[..Min(count, |ids|)])
  {
    var m := Min(count, |ids|);
    ElementCount(ids);
    ElementCount(ids[..m]);
    assert Elements(ids) == Terminal(t);
    assert Gone(t, t') == Elements(ids[..m]);
    forall id, kept | id in Gone(t, t') && kept in Terminal(t') ensures t[id].updatedAt <= t[kept].updatedAt {
      var i :| 0 <= i < m && ids[..m][i] == id;
      assert kept in ids;
      var j :| 0 <= j < |ids| && ids[j] == kept;
      assert kept !in ids[..m];
      assert m <= j;
    }
  }

  /** The table when the first n listed messages have been gone through. */
  predicate PartlyExpired(t: Table, t': Table, order: seq<nat>, n: nat, cutoff: int, now: nat) {
    && t'.Keys == t.Keys
    && forall k | 0 <= k < |order| ::
         order[k] in t && t'[order[k]] == if k < n then ExpireIfOld(t[order[k]], cutoff, now) else t[order[k]]
  }

  lemma ExpireOne(t: Table, t': Table, order: seq<nat>, n: nat, cutoff: int, now: nat)
    requires NoDuplicates(order) && n < |order| && PartlyExpired(t, t', order, n, cutoff, now)
    ensures t'[order[n]] == t[order[n]]
    ensures PartlyExpired(t, t'[order[n] := ExpireIfOld(t[order[n]], cutoff, now)], order, n + 1, cutoff, now)
  {}

  /** How many of the listed messages are neither terminal nor recent. */
  function CountOld(order: seq<nat>, t: Table, cutoff: int): nat {
    if order == [] then 0
    else
      var id := order[|order| - 1];
      CountOld(order[..|order| - 1], t, cutoff) + if id in t && IsOld(t[id], cutoff) then 1 else 0
  }

  lemma CountOldNext(order: seq<nat>, n: nat, t: Table, cutoff: int)
    requires n < |order| && order[n] in t
    ensures CountOld(order[..n + 1], t, cutoff) ==
            CountOld(order[..n], t, cutoff) + if IsOld(t[order[n]], cutoff) then 1 else 0
  {
    assert order[..n + 1][..n] == order[..n];
  }

  lemma NoneExpired(t: Table, order: seq<nat>, cutoff: int, now: nat)
    requires Lists(order, t)
    ensures PartlyExpired(t, t, order, 0, cutoff, now)
  {
    assert forall k | 0 <= k < |order| :: order[k] in order;
  }

  lemma AllExpired(t: Table, t': Table, order: seq<nat>, cutoff: int, now: nat)
    requires Lists(order, t) && PartlyExpired(t, t', order, |order|, cutoff, now)
    ensures forall id | id in t :: t'[id] == ExpireIfOld(t[id], cutoff, now)
  {
    forall id | id in t ensures t'[id] == ExpireIfOld(t[id], cutoff, now) {
      assert id in order;
    }
  }

  class Storage {
    const config: Config
    var messages: Table
    var retryQueue: seq<nat>
    var memoryBytes: Word
    ghost var used: set<nat>

    constructor (config: Config)
      ensures this.config == config && View() == Init
    {
      this.config := config;
      messages, retryQueue, memoryBytes, used := map[], [], 0, {};
    }

    ghost function View(): State
      reads this
    {
      State(messages, retryQueue, memoryBytes, used)
    }

    /** Removes the messages and takes their bytes off the counter. */
    method Remove(ids: seq<nat>)
      requires NoDuplicates(ids) && forall i | 0 <= i < |ids| :: ids[i] in messages
      modifies this`messages, this`memoryBytes
      ensures messages == old(messages) - Elements(ids)
      ensures memoryBytes == Minus(old(memoryBytes), SizeOf(Elements(ids), old(messages)))
    {
      var removedBytes := 0;
      for i := 0 to |ids|
        invariant messages == old(messages) - Elements(ids[..i])
        invariant memoryBytes == old(memoryBytes) && removedBytes == SizeOf(Elements(ids[..i]), old(messages))
      {
        assert ids[i] !in ids[..i];
        NextElement(ids, i);
        SizeWithout(Elements(ids[..i + 1]), old(messages), ids[i]);
        removedBytes := removedBytes + EstimateSize(messages[ids[i]]);
        messages := messages - {ids[i]};
      }
      assert ids[..|ids|] == ids;
      if removedBytes > 0 {
        memoryBytes := (memoryBytes - removedBytes) % WORD;
      }
    }

    method CollectTerminal(order: seq<nat>) returns (terminal: seq<nat>)
      requires Lists(order, messages)
      ensures NoDuplicates(terminal) && (forall i | 0 <= i < |terminal| :: terminal[i] in messages)
      ensures forall id :: id in terminal <==> id in Terminal(messages)
    {
      terminal := [];
      ghost var test := (m: StoredMessage) => IsTerminal(m.state);
      for i := 0 to |order|
        invariant terminal == Select(order[..i], messages, test)
      {
        ListedAt(order, messages, i);
        SelectNext(order, i, messages, test);
        if IsTerminal(messages[order[i]].state) {
          terminal := terminal + [order[i]];
        }
      }
      assert order[..|order|] == order;
      Selected(order, messages, terminal, test);
      assert forall i | 0 <= i < |terminal| :: terminal[i] in terminal;
    }

    method EvictOldest(order: seq<nat>, count: nat)
      requires Lists(order, messages)
      modifies this`messages, this`memoryBytes
      ensures Evicted(old(messages), messages, count)
      ensures memoryBytes == Minus(old(memoryBytes), SizeOf(Gone(old(messages), messages), old(messages)))
    {
      var terminal := CollectTerminal(order);
      SortedByUpdated(terminal, messages);
      var sorted := SortByUpdated(terminal, messages);
      var n := Min(count, |sorted|);
      Remove(sorted[..n]);
      RemovingOldestEvicts(old(messages), sorted, messages, count);
    }

    method PruneIfNeeded(order: seq<nat>)
      requires Lists(order, messages)
      modifies this`messages, this`memoryBytes
      ensures Pruned(config, old(View()), messages)
      ensures memoryBytes == Minus(old(memoryBytes), SizeOf(Gone(old(messages), messages), old(messages)))
    {
      if !AtCapacity(config, State(messages, retryQueue, memoryBytes, {})) {
        assert Gone(messages, messages) == {};
        return;
      }
      var pruneCount := PruneCount(config, messages);
      EvictOldest(order, pruneCount);
    }

    method Store(order: seq<nat>, message: StoredMessage) returns (id: nat)
      requires Lists(order, messages)
      modifies this
      ensures id == message.id
      ensures StoreStep(config, old(View()), message, View())
    {
      ghost var before := View();
      id := message.id;
      PruneIfNeeded(order);
      ghost var pruned := messages;
      memoryBytes := (memoryBytes + EstimateSize(message)) % WORD;
      messages := messages[id := message];
      used := used + {id};
      assert Pruned(config, before, pruned) && messages == pruned[id := message];
    }

    method Get(id: nat) returns (m: Option<StoredMessage>)
      ensures m == if id in messages then Some(messages[id]) else None
    {
      m := if id in messages then Some(messages[id]) else None;
    }

    method RetainOthers(id: nat)
      modifies this`retryQueue
      ensures retryQueue == Retain(old(retryQueue), id)
    {
      var kept := [];
      for i := 0 to |retryQueue|
        invariant retryQueue == old(retryQueue)
        invariant kept == Retain(retryQueue[..i], id)
      {
        assert retryQueue[..i + 1][..i] == retryQueue[..i];
        if retryQueue[i] != id {
          kept := kept + [retryQueue[i]];
        }
      }
      assert retryQueue[..|retryQueue|] == retryQueue;
      retryQueue := kept;
    }

    method Update(id: nat, f: StoredMessage -> StoredMessage) returns (found: bool)
      modifies this
      ensures found <==> id in old(messages)
      ensures UpdateStep(old(View()), id, f, View())
    {
      if id !in messages {
        return false;
      }
      var oldState := messages[id].state;
      var m := f(messages[id]);
      messages := messages[id := m];
      if oldState != m.state {
        if m.state.Retrying? {
          if id !in retryQueue {
            retryQueue := retryQueue + [id];
          }
        } else {
          RetainOthers(id);
        }
      }
      return true;
    }

    method Delete(id: nat) returns (found: bool)
      modifies this
      ensures found <==> id in old(messages)
      ensures DeleteStep(old(View()), id, View())
    {
      if id !in messages {
        assert messages - {id} == messages;
        return false;
      }
      memoryBytes := (memoryBytes - EstimateSize(messages[id])) % WORD;
      messages := messages - {id};
      RetainOthers(id);
      return true;
    }

    method ExpireMessage(id: nat, cutoff: int, now: nat) returns (expired: bool)
      requires id in messages
      modifies this`messages
      ensures expired == IsOld(old(messages)[id], cutoff)
      ensures messages == old(messages)[id := ExpireIfOld(old(messages)[id], cutoff, now)]
    {
      var msg := messages[id];
      expired := !IsTerminal(msg.state) && msg.createdAt < cutoff;
      if expired {
        messages := messages[id := MarkExpired(msg, now)];
      }
    }

    method ExpireOld(order: seq<nat>, cutoff: int, now: nat) returns (expired: nat)
      requires Lists(order, messages)
      modifies this
      ensures ExpireStep(old(View()), cutoff, now, View())
      ensures expired == CountOld(order, old(messages), cutoff)
    {
      expired := 0;
      ghost var before := messages;
      NoneExpired(before, order, cutoff, now);
      for i := 0 to |order|
        invariant PartlyExpired(before, messages, order, i, cutoff, now)
        invariant expired == CountOld(order[..i], before, cutoff)
        invariant retryQueue == old(retryQueue) && used == old(used) && memoryBytes == old(memoryBytes)
      {
        CountOldNext(order, i, before, cutoff);
        ExpireOne(before, messages, order, i, cutoff, now);
        var done := ExpireMessage(order[i], cutoff, now);
        if done {
          expired := expired + 1;
        }
      }
      assert order[..|order|] == order;
      AllExpired(before, messages, order, cutoff, now);
    }

    method CollectOld(order: seq<nat>, cutoff: int) returns (stale: seq<nat>)
      requires Lists(order, messages)
      ensures NoDuplicates(stale) && (forall i | 0 <= i < |stale| :: stale[i] in messages)
      ensures Elements(stale) == OldTerminal(messages, cutoff)
    {
      stale := [];
      ghost var test := (m: StoredMessage) => IsOldTerminal(m, cutoff);
      for i := 0 to |order|
        invariant stale == Select(order[..i], messages, test)
      {
        ListedAt(order, messages, i);
        SelectNext(order, i, messages, test);
        if IsOldTerminal(messages[order[i]], cutoff) {
          stale := stale + [order[i]];
        }
      }
      assert order[..|order|] == order;
      Selected(order, messages, stale, test);
      assert forall i | 0 <= i < |stale| :: stale[i] in stale;
    }

    method PruneTerminal(order: seq<nat>, cutoff: int) returns (removed: nat)
      requires Lists(order, messages)
      modifies this
      ensures PruneStep(old(View()), cutoff, View())
      ensures removed == |OldTerminal(old(messages), cutoff)|
    {
      var toRemove := CollectOld(order, cutoff);
      ElementCount(toRemove);
      Remove(toRemove);
      assert Gone(old(messages), messages) == Elements(toRemove);
      return |toRemove|;
    }
  }
}
