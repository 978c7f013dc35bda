/**
 The consistent-hash ring (src/cluster/lb.rs): virtual nodes sorted by hash and
 searched for the first one at or after a key, around the circle of 64-bit
 hashes. Any hash function can stand behind it.
 */
module HashRing {
  import opened Wrappers
  import Decimal
  import StableSort

  const CIRCLE: nat := 0x1_0000_0000_0000_0000
  const DEFAULT_REPLICAS: nat := 100

  type Word = n: nat | n < CIRCLE

  datatype Node = Node(hash: Word, endpoint: nat)

  function Replicas(configured: nat): nat {
    if configured == 0 then DEFAULT_REPLICAS else configured
  }

  function NodeHash(hash: string -> Word, address: string, replica: nat): Word {
    hash(address + ":" + Decimal.Print(replica))
  }

  function NodeAt(hash: string -> Word, addresses: seq<string>, i: nat, replica: nat): Node
    requires i < |addresses|
  {
    Node(NodeHash(hash, addresses[i], replica), i)
  }

  /** The first nodes of one endpoint. */
  function NodesOf(hash: string -> Word, addresses: seq<string>, i: nat, replicas: nat): seq<Node>
    requires i < |addresses|
  {
    if replicas == 0 then [] else NodesOf(hash, addresses, i, replicas - 1) + [NodeAt(hash, addresses, i, replicas - 1)]
  }

  /** The nodes of the first n endpoints. */
  function AllNodes(hash: string -> Word, addresses: seq<string>, n: nat, replicas: nat): seq<Node>
    requires n <= |addresses|
  {
    if n == 0 then [] else AllNodes(hash, addresses, n - 1, replicas) + NodesOf(hash, addresses, n - 1, replicas)
  }

  predicate Sorted(ring: seq<Node>) {
    forall p, q | 0 <= p < q < |ring| :: ring[p].hash <= ring[q].hash
  }

  /** The ring holds each virtual node of each endpoint and nothing else. */
  ghost predicate Holds(ring: seq<Node>, hash: string -> Word, addresses: seq<string>, replicas: nat) {
    && (forall i: nat, r: nat | i < |addresses| && r < replicas :: NodeAt(hash, addresses, i, r) in ring)
    && (forall p | 0 <= p < |ring| :: ring[p].endpoint < |addresses| && IsNode(hash, addresses, ring[p], replicas))
  }

  ghost predicate IsNode(hash: string -> Word, addresses: seq<string>, node: Node, replicas: nat) {
    node.endpoint < |addresses| && exists r: nat :: r < replicas && node == NodeAt(hash, addresses, node.endpoint, r)
  }

  lemma {:induction false} NodesOfAreThere(hash: string -> Word, addresses: seq<string>, i: nat, replicas: nat, r: nat)
    requires i < |addresses| && r < replicas
    ensures NodeAt(hash, addresses, i, r) in NodesOf(hash, addresses, i, replicas)
  {
    var rest, last := NodesOf(hash, addresses, i, replicas - 1), NodeAt(hash, addresses, i, replicas - 1);
    if r < replicas - 1 {
      NodesOfAreThere(hash, addresses, i, replicas - 1, r);
    } else {
      assert (rest + [last])[|rest|] == last;
    }
  }

  lemma {:induction false} NodesOfAreNodes(hash: string -> Word, addresses: seq<string>, i: nat, replicas: nat)
    requires i < |addresses|
    ensures forall node | node in NodesOf(hash, addresses, i, replicas) :: IsNode(hash, addresses, node, replicas)
  {
    if replicas > 0 {
      NodesOfAreNodes(hash, addresses, i, replicas - 1);
      assert forall node | IsNode(hash, addresses, node, replicas - 1) :: IsNode(hash, addresses, node, replicas);
    }
  }

  lemma InEither(a: seq<Node>, b: seq<Node>, node: Node)
    requires node in a || node in b
    ensures node in a + b
  {}

  lemma {:induction false} AllNodesAreThere(hash: string -> Word, addresses: seq<string>, n: nat, replicas: nat, i: nat, r: nat)
    requires i < n <= |addresses| && r < replicas
    ensures NodeAt(hash, addresses, i, r) in AllNodes(hash, addresses, n, replicas)
  {
    if i == n - 1 {
      NodesOfAreThere(hash, addresses, i, replicas, r);
    } else {
      AllNodesAreThere(hash, addresses, n - 1, replicas, i, r);
    }
    InEither(AllNodes(hash, addresses, n - 1, replicas), NodesOf(hash, addresses, n - 1, replicas),
             NodeAt(hash, addresses, i, r));
  }

  lemma {:induction false} AllNodesAreNodes(hash: string -> Word, addresses: seq<string>, n: nat, replicas: nat)
    requires n <= |addresses|
    ensures forall node | node in AllNodes(hash, addresses, n, replicas) :: IsNode(hash, addresses, node, replicas)
  {
    if n > 0 {
      AllNodesAreNodes(hash, addresses, n - 1, replicas);
      NodesOfAreNodes(hash, addresses, n - 1, replicas);
    }
  }

  lemma AllNodesHold(hash: string -> Word, addresses: seq<string>, replicas: nat)
    ensures forall i: nat, r: nat | i < |addresses| && r < replicas ::
              NodeAt(hash, addresses, i, r) in AllNodes(hash, addresses, |addresses|, replicas)
    ensures forall node | node in AllNodes(hash, addresses, |addresses|, replicas) ::
              IsNode(hash, addresses, node, replicas)
  {
    forall i: nat, r: nat | i < |addresses| && r < replicas
      ensures NodeAt(hash, addresses, i, r) in AllNodes(hash, addresses, |addresses|, replicas)
    {
      AllNodesAreThere(hash, addresses, |addresses|, replicas, i, r);
    }
    AllNodesAreNodes(hash, addresses, |addresses|, replicas);
  }

  lemma {:induction false} NodesOfCount(hash: string -> Word, addresses: seq<string>, i: nat, replicas: nat)
    requires i < |addresses|
    ensures |NodesOf(hash, addresses, i, replicas)| == replicas
  {
    if replicas > 0 {
      NodesOfCount(hash, addresses, i, replicas - 1);
    }
  }

  lemma {:induction false} AllNodesCount(hash: string -> Word, addresses: seq<string>, n: nat, replicas: nat)
    requires n <= |addresses|
    ensures |AllNodes(hash, addresses, n, replicas)| == n * replicas
  {
    if n > 0 {
      AllNodesCount(hash, addresses, n - 1, replicas);
      NodesOfCount(hash, addresses, n - 1, replicas);
      assert n * replicas == (n - 1) * replicas + replicas;
    }
  }

  function SortByHash(nodes: seq<Node>): seq<Node> {
    StableSort.Sort(nodes, seq(|nodes|, p requires 0 <= p < |nodes| => nodes[p].hash))
  }

  lemma SortedByHash(nodes: seq<Node>)
    ensures Sorted(SortByHash(nodes))
    ensures forall node :: node in SortByHash(nodes) <==> node in nodes
  {
    var keys: seq<int> := seq(|nodes|, p requires 0 <= p < |nodes| => nodes[p].hash);
    var order := StableSort.SortedPositions(keys);
    var ring := SortByHash(nodes);
    assert forall p | 0 <= p < |nodes| :: order[p] < |nodes| && ring[p] == nodes[order[p]];
    forall p, q | 0 <= p < q < |ring| ensures ring[p].hash <= ring[q].hash {
      StableSort.LeastInOrder(keys, order, p, q);
    }
    forall node | node in nodes ensures node in ring {
      var j :| 0 <= j < |nodes| && nodes[j] == node;
      var q := StableSort.PositionOf(keys, order, j);
      assert ring[q] == node;
    }
  }

  /** `ConsistentHash::new`. */
  method BuildRing(hash: string -> Word, addresses: seq<string>, configured: nat) returns (ring: seq<Node>)
    ensures Sorted(ring) && Holds(ring, hash, addresses, Replicas(configured))
    ensures |ring| == |addresses| * (if configured == 0 then 100 else configured)
  {
    var replicas := Replicas(configured);
    var nodes := [];
    for i := 0 to |addresses|
      invariant nodes == AllNodes(hash, addresses, i, replicas)
    {
      for r := 0 to replicas
        invariant nodes == AllNodes(hash, addresses, i, replicas) + NodesOf(hash, addresses, i, r)
      {
        var key := addresses[i] + ":" + Decimal.Print(r);
        nodes := nodes + [Node(hash(key), i)];
      }
    }
    ring := SortByHash(nodes);
    SortedByHash(nodes);
    AllNodesHold(hash, addresses, replicas);
    AllNodesCount(hash, addresses, |addresses|, replicas);
    assert forall p | 0 <= p < |ring| :: ring[p] in nodes;
  }

  // -------------------------------------------------------------------------
  // Who owns a key
  // -------------------------------------------------------------------------

  /** How far a node lies clockwise of a key. */
  function Clockwise(key: Word, node: Word): nat {
    (node - key) % CIRCLE
  }

  /** No virtual node of the ring is nearer, clockwise, than some node of this endpoint. */
  ghost predicate Owns(hash: string -> Word, addresses: seq<string>, replicas: nat, key: Word, owner: nat) {
    owner < |addresses| && exists r: nat :: r < replicas && Nearest(hash, addresses, replicas, key, NodeHash(hash, addresses[owner], r))
  }

  ghost predicate Nearest(hash: string -> Word, addresses: seq<string>, replicas: nat, key: Word, node: Word) {
    forall j: nat, q: nat | j < |addresses| && q < replicas ::
      Clockwise(key, node) <= Clockwise(key, NodeAt(hash, addresses, j, q).hash)
  }

  /** Binary search: some position with this hash, or else where it would be inserted. */
  method BinarySearch(ring: seq<Node>, key: Word) returns (r: Result<nat, nat>)
    requires Sorted(ring)
    ensures r.Ok? ==> r.value < |ring| && ring[r.value].hash == key
    ensures r.Err? ==>
              && r.error <= |ring|
              && (forall q | 0 <= q < r.error :: ring[q].hash < key)
              && (forall q | r.error <= q < |ring| :: key < ring[q].hash)
  {
    var lo, hi := 0, |ring|;
    while lo < hi
      invariant 0 <= lo <= hi <= |ring|
      invariant forall q | 0 <= q < lo :: ring[q].hash < key
      invariant forall q | hi <= q < |ring| :: key < ring[q].hash
    {
      var mid := (lo + hi) / 2;
      if ring[mid].hash == key {
        return Ok(mid);
      } else if ring[mid].hash < key {
        lo := mid + 1;
      } else {
        hi := mid;
      }
    }
    return Err(lo);
  }

  lemma ClockwiseSplit(key: Word, node: Word)
    ensures Clockwise(key, node) == if node >= key then node - key else node - key + CIRCLE
  {}

  lemma RingIsEmpty(ring: seq<Node>, hash: string -> Word, addresses: seq<string>, replicas: nat)
    requires Holds(ring, hash, addresses, replicas) && replicas > 0
    ensures ring == [] <==> addresses == []
  {
    if addresses != [] {
      assert NodeAt(hash, addresses, 0, 0) in ring;
    }
    assert ring != [] ==> ring[0].endpoint < |addresses|;
  }

  /** The lookup answers exactly the owner, and nothing only for an empty ring. */
  method SelectByKey(ring: seq<Node>, hash: string -> Word, key: string,
                     ghost addresses: seq<string>, ghost replicas: nat) returns (r: Option<nat>)
    requires Sorted(ring) && Holds(ring, hash, addresses, replicas) && replicas > 0
    ensures r.None? <==> addresses == []
    ensures r.Some? ==> Owns(hash, addresses, replicas, hash(key), r.value)
  {
    RingIsEmpty(ring, hash, addresses, replicas);
    if ring == [] {
      return None;
    }
    var h := hash(key);
    var idx;
    var found := BinarySearch(ring, h);
    match found {
      case Ok(p) => idx := p;
      case Err(p) => idx := if p >= |ring| then 0 else p;
    }
    forall j: nat, q: nat | j < |addresses| && q < replicas
      ensures Clockwise(h, ring[idx].hash) <= Clockwise(h, NodeAt(hash, addresses, j, q).hash)
    {
      var node := NodeAt(hash, addresses, j, q);
      assert node in ring;
      var p :| 0 <= p < |ring| && ring[p] == node;
      ClockwiseSplit(h, ring[idx].hash);
      ClockwiseSplit(h, ring[p].hash);
      assert ring[idx].hash == h || (p < idx && ring[p].hash < h <= ring[idx].hash) || ring[idx].hash <= ring[p].hash;
    }
    return Some(ring[idx].endpoint);
  }

  /** No two virtual nodes share a hash. */
  ghost predicate Distinct(hash: string -> Word, addresses: seq<string>, replicas: nat) {
    forall i: nat, r: nat, j: nat, q: nat
      | i < |addresses| && r < replicas && j < |addresses| && q < replicas
        && NodeAt(hash, addresses, i, r).hash == NodeAt(hash, addresses, j, q).hash
      :: i == j && r == q
  }

  lemma ClockwiseInjective(key: Word, a: Word, b: Word)
    requires Clockwise(key, a) == Clockwise(key, b)
    ensures a == b
  {
    ClockwiseSplit(key, a);
    ClockwiseSplit(key, b);
  }

  /** With distinct node hashes, a key has one owner. */
  lemma OneOwner(hash: string -> Word, addresses: seq<string>, replicas: nat, key: Word, i: nat, j: nat)
    requires Distinct(hash, addresses, replicas)
    requires Owns(hash, addresses, replicas, key, i) && Owns(hash, addresses, replicas, key, j)
    ensures i == j
  {
    var r: nat :| r < replicas && Nearest(hash, addresses, replicas, key, NodeHash(hash, addresses[i], r));
    var q: nat :| q < replicas && Nearest(hash, addresses, replicas, key, NodeHash(hash, addresses[j], q));
    var a, b := NodeAt(hash, addresses, i, r), NodeAt(hash, addresses, j, q);
    ClockwiseInjective(key, a.hash, b.hash);
  }

  ghost predicate Subring(fewer: seq<string>, addresses: seq<string>) {
    forall j: nat | j < |fewer| :: fewer[j] in addresses
  }

  /** An endpoint that owns a key still owns it among fewer endpoints. */
  lemma OwnerStays(hash: string -> Word, addresses: seq<string>, fewer: seq<string>, replicas: nat, key: Word,
                   i: nat, j: nat)
    requires Subring(fewer, addresses) && Owns(hash, addresses, replicas, key, i)
    requires j < |fewer| && fewer[j] == addresses[i]
    ensures Owns(hash, fewer, replicas, key, j)
  {
    var r: nat :| r < replicas && Nearest(hash, addresses, replicas, key, NodeHash(hash, addresses[i], r));
    forall k: nat, q: nat | k < |fewer| && q < replicas
      ensures Clockwise(key, NodeHash(hash, fewer[j], r)) <= Clockwise(key, NodeAt(hash, fewer, k, q).hash)
    {
      assert fewer[k] in addresses;
      var m: nat :| m < |addresses| && addresses[m] == fewer[k];
      assert NodeAt(hash, addresses, m, q).hash == NodeAt(hash, fewer, k, q).hash;
    }
    assert Nearest(hash, fewer, replicas, key, NodeHash(hash, fewer[j], r));
  }

  /**
   Taking endpoints away moves only the keys they owned: with distinct node
   hashes, a key's owner by address is the same before and after if and only if
   that owner is still there.
   */
  lemma OnlyTheirKeysMove(hash: string -> Word, addresses: seq<string>, fewer: seq<string>, replicas: nat, key: Word,
                          i: nat, j: nat)
    requires Distinct(hash, fewer, replicas) && Subring(fewer, addresses)
    requires Owns(hash, addresses, replicas, key, i) && Owns(hash, fewer, replicas, key, j)
    ensures fewer[j] == addresses[i] <==> addresses[i] in fewer
  {
    if addresses[i] in fewer {
      var k: nat :| k < |fewer| && fewer[k] == addresses[i];
      OwnerStays(hash, addresses, fewer, replicas, key, i, k);
      OneOwner(hash, fewer, replicas, key, j, k);
    }
  }

  function Without(addresses: seq<string>, gone: nat): seq<string>
    requires gone < |addresses|
  {
    addresses[..gone] + addresses[gone + 1..]
  }

  /** A ring without one endpoint is a smaller ring with distinct hashes. */
  lemma WithoutIsSubring(hash: string -> Word, addresses: seq<string>, replicas: nat, gone: nat)
    requires gone < |addresses| && Distinct(hash, addresses, replicas)
    ensures Subring(Without(addresses, gone), addresses) && Distinct(hash, Without(addresses, gone), replicas)
  {
    var fewer := Without(addresses, gone);
    forall i: nat, r: nat, j: nat, q: nat
      | i < |fewer| && r < replicas && j < |fewer| && q < replicas
        && NodeAt(hash, fewer, i, r).hash == NodeAt(hash, fewer, j, q).hash
      ensures i == j && r == q
    {
      var i', j' := if i < gone then i else i + 1, if j < gone then j else j + 1;
      assert NodeAt(hash, addresses, i', r).hash == NodeAt(hash, addresses, j', q).hash;
    }
  }

  lemma AddressesDiffer(hash: string -> Word, addresses: seq<string>, replicas: nat, i: nat, j: nat)
    requires Distinct(hash, addresses, replicas) && replicas > 0
    requires i < |addresses| && j < |addresses| && i != j
    ensures addresses[i] != addresses[j]
  {
    assert addresses[i] == addresses[j] ==>
        NodeAt(hash, addresses, i, 0).hash == NodeAt(hash, addresses, j, 0).hash;
  }

  /** Removing one endpoint never moves a key that was on another one. */
  lemma RemovalMovesOnlyItsKeys(hash: string -> Word, addresses: seq<string>, replicas: nat, gone: nat, key: Word,
                                i: nat, j: nat)
    requires gone < |addresses| && Distinct(hash, addresses, replicas)
    requires Owns(hash, addresses, replicas, key, i) && Owns(hash, Without(addresses, gone), replicas, key, j)
    ensures Without(addresses, gone)[j] == addresses[i] <==> i != gone
  {
    var fewer := Without(addresses, gone);
    WithoutIsSubring(hash, addresses, replicas, gone);
    OnlyTheirKeysMove(hash, addresses, fewer, replicas, key, i, j);
    if i != gone {
      assert fewer[if i < gone then i else i - 1] == addresses[i];
    } else {
      AddressesDiffer(hash, addresses, replicas, gone, if j < gone then j else j + 1);
    }
  }
}
