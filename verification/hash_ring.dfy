/** Consistent hashing (src/hashring/hash_ring.cpp). */
module HashRing {
  import opened Status
  import opened Blocks

  type NodeId = string

  datatype NodeInfo = NodeInfo(id: NodeId, alive: bool, vnodeCount: u32)

  datatype ShardMap = ShardMap(version: u64, nodes: seq<NodeInfo>)

  /** Where virtual node `v` of a node lies on the ring: a hash of "id#v", any function of it. */
  type PointHash = (NodeId, nat) -> u64

  type Ring = map<u64, NodeId>

  // ---- Building ----

  function Vnodes(node: NodeInfo): nat {
    if node.vnodeCount > 0 then node.vnodeCount else 1
  }

  /** The ring after the first `n` virtual nodes of `id`, each replacing whatever was at its point. */
  function WithPoints(ring: Ring, id: NodeId, n: nat, hash: PointHash): Ring {
    if n == 0 then ring else WithPoints(ring, id, n - 1, hash)[hash(id, n - 1) := id]
  }

  function WithNode(ring: Ring, node: NodeInfo, hash: PointHash): Ring {
    if node.alive then WithPoints(ring, node.id, Vnodes(node), hash) else ring
  }

  function RingOf(nodes: seq<NodeInfo>, hash: PointHash): Ring {
    if nodes == [] then map[] else WithNode(RingOf(nodes[..|nodes| - 1], hash), nodes[|nodes| - 1], hash)
  }

  ghost predicate HasPoint(node: NodeInfo, hash: PointHash, point: u64) {
    node.alive && exists v :: 0 <= v < Vnodes(node) && hash(node.id, v) == point
  }

  lemma {:induction false} PointsAdded(ring: Ring, id: NodeId, n: nat, hash: PointHash, point: u64)
    ensures var r := WithPoints(ring, id, n, hash);
            if exists v :: 0 <= v < n && hash(id, v) == point then point in r && r[point] == id
            else (point in r <==> point in ring) && (point in r ==> r[point] == ring[point])
  {
    if n > 0 {
      PointsAdded(ring, id, n - 1, hash, point);
      if hash(id, n - 1) != point && exists v :: 0 <= v < n && hash(id, v) == point {
        var v :| 0 <= v < n && hash(id, v) == point;
        assert 0 <= v < n - 1;
      }
    }
  }

  /** A point belongs to the last live node of the list that has a virtual node there. */
  lemma {:induction false} PointBelongsToLast(nodes: seq<NodeInfo>, hash: PointHash, point: u64, i: nat)
    requires i < |nodes| && HasPoint(nodes[i], hash, point)
    requires forall j :: i < j < |nodes| ==> !HasPoint(nodes[j], hash, point)
    ensures point in RingOf(nodes, hash) && RingOf(nodes, hash)[point] == nodes[i].id
  {
    var before, last := nodes[..|nodes| - 1], nodes[|nodes| - 1];
    if last.alive {
      PointsAdded(RingOf(before, hash), last.id, Vnodes(last), hash, point);
    }
    if i < |nodes| - 1 {
      assert !HasPoint(last, hash, point);
      PointBelongsToLast(before, hash, point, i);
    }
  }

  /** A point that no live node has is not on the ring. */
  lemma {:induction false} NoOtherPoints(nodes: seq<NodeInfo>, hash: PointHash, point: u64)
    requires forall j :: 0 <= j < |nodes| ==> !HasPoint(nodes[j], hash, point)
    ensures point !in RingOf(nodes, hash)
  {
    if nodes != [] {
      var before, last := nodes[..|nodes| - 1], nodes[|nodes| - 1];
      NoOtherPoints(before, hash, point);
      assert !HasPoint(last, hash, point);
      if last.alive {
        PointsAdded(RingOf(before, hash), last.id, Vnodes(last), hash, point);
      }
    }
  }

  /** Every virtual node of a live node is on the ring: `vnodeCount` of them, and one at least. */
  lemma EveryVnodeIsOnRing(nodes: seq<NodeInfo>, hash: PointHash, i: nat, v: nat)
    requires i < |nodes| && nodes[i].alive && (v < nodes[i].vnodeCount || v == 0)
    ensures hash(nodes[i].id, v) in RingOf(nodes, hash)
  {
    var point := hash(nodes[i].id, v);
    assert HasPoint(nodes[i], hash, point);
    var last := LastWithPoint(nodes, hash, point);
    PointBelongsToLast(nodes, hash, point, last);
  }

  lemma {:induction false} LastWithPoint(nodes: seq<NodeInfo>, hash: PointHash, point: u64) returns (i: nat)
    requires exists j :: 0 <= j < |nodes| && HasPoint(nodes[j], hash, point)
    ensures i < |nodes| && HasPoint(nodes[i], hash, point)
    ensures forall j :: i < j < |nodes| ==> !HasPoint(nodes[j], hash, point)
  {
    if HasPoint(nodes[|nodes| - 1], hash, point) {
      i := |nodes| - 1;
    } else {
      i := LastWithPoint(nodes[..|nodes| - 1], hash, point);
    }
  }

  /** And every point of the ring is one of them, of the node it belongs to. */
  lemma EveryPointIsAVnode(nodes: seq<NodeInfo>, hash: PointHash, point: u64) returns (i: nat, v: nat)
    requires point in RingOf(nodes, hash)
    ensures i < |nodes| && nodes[i].alive && (v < nodes[i].vnodeCount || v == 0)
    ensures hash(nodes[i].id, v) == point && RingOf(nodes, hash)[point] == nodes[i].id
  {
    if forall j :: 0 <= j < |nodes| ==> !HasPoint(nodes[j], hash, point) {
      NoOtherPoints(nodes, hash, point);
      assert false;
    }
    i := LastWithPoint(nodes, hash, point);
    PointBelongsToLast(nodes, hash, point, i);
    v :| 0 <= v < Vnodes(nodes[i]) && hash(nodes[i].id, v) == point;
  }

  /** The label is one that a rebuild puts on the ring. */
  predicate IsLabel(nodes: seq<NodeInfo>, i: int, v: int) {
    0 <= i < |nodes| && nodes[i].alive && 0 <= v && (v < nodes[i].vnodeCount || v == 0)
  }

  /** No two labels of the list share a point. */
  ghost predicate NoCollisions(nodes: seq<NodeInfo>, hash: PointHash) {
    forall i, v, j, w :: IsLabel(nodes, i, v) && IsLabel(nodes, j, w) && hash(nodes[i].id, v) == hash(nodes[j].id, w) ==>
      i == j && v == w
  }

  ghost function PointsOf(ring: Ring, id: NodeId): set<u64> {
    set p | p in ring && ring[p] == id
  }

  ghost function FirstPoints(id: NodeId, hash: PointHash, n: nat): set<u64> {
    set v | 0 <= v < n :: hash(id, v)
  }

  lemma {:induction false} CountPoints(id: NodeId, hash: PointHash, n: nat)
    requires forall v, w :: 0 <= v < n && 0 <= w < n && hash(id, v) == hash(id, w) ==> v == w
    ensures |FirstPoints(id, hash, n)| == n
  {
    if n > 0 {
      CountPoints(id, hash, n - 1);
      assert FirstPoints(id, hash, n) == FirstPoints(id, hash, n - 1) + {hash(id, n - 1)};
      assert hash(id, n - 1) !in FirstPoints(id, hash, n - 1);
    }
  }

  /** Without collisions, a live node has exactly as many points as it asks for, and one if it asks for none. */
  lemma PointsAreWeights(nodes: seq<NodeInfo>, hash: PointHash, i: nat)
    requires i < |nodes| && nodes[i].alive && NoCollisions(nodes, hash)
    ensures |PointsOf(RingOf(nodes, hash), nodes[i].id)| == if nodes[i].vnodeCount == 0 then 1 else nodes[i].vnodeCount
  {
    var node, n := nodes[i], if nodes[i].vnodeCount == 0 then 1 else nodes[i].vnodeCount;
    var ring := RingOf(nodes, hash);
    forall v, w | 0 <= v < n && 0 <= w < n && hash(node.id, v) == hash(node.id, w)
      ensures v == w
    {
      assert IsLabel(nodes, i, v) && IsLabel(nodes, i, w);
    }
    CountPoints(node.id, hash, n);
    forall p
      ensures p in PointsOf(ring, node.id) <==> p in FirstPoints(node.id, hash, n)
    {
      OwnPoint(nodes, hash, i, n, p);
    }
    assert PointsOf(ring, node.id) == FirstPoints(node.id, hash, n);
  }

  lemma OwnPoint(nodes: seq<NodeInfo>, hash: PointHash, i: nat, n: nat, p: u64)
    requires i < |nodes| && nodes[i].alive && NoCollisions(nodes, hash)
    requires n == if nodes[i].vnodeCount == 0 then 1 else nodes[i].vnodeCount
    ensures p in PointsOf(RingOf(nodes, hash), nodes[i].id) <==> p in FirstPoints(nodes[i].id, hash, n)
  {
    if p in PointsOf(RingOf(nodes, hash), nodes[i].id) {
      var j, w := EveryPointIsAVnode(nodes, hash, p);
      assert IsLabel(nodes, i, 0) && IsLabel(nodes, j, 0);
      assert i == j;
    }
    if p in FirstPoints(nodes[i].id, hash, n) {
      var v :| 0 <= v < n && hash(nodes[i].id, v) == p;
      EveryVnodeIsOnRing(nodes, hash, i, v);
      var j, w := EveryPointIsAVnode(nodes, hash, p);
      assert IsLabel(nodes, i, v) && IsLabel(nodes, j, w);
    }
  }

  // ---- Lookup ----

  /** How far clockwise `point` is from `h`. */
  function Distance(h: u64, point: u64): nat {
    if point >= h then point - h else point + TWO_64 - h
  }

  /** The point of the ring that is nearest clockwise. */
  ghost predicate IsSuccessor(ring: Ring, h: u64, point: u64) {
    point in ring && forall q :: q in ring ==> Distance(h, point) <= Distance(h, q)
  }

  lemma SuccessorUnique(ring: Ring, h: u64, a: u64, b: u64)
    requires IsSuccessor(ring, h, a) && IsSuccessor(ring, h, b)
    ensures a == b
  {
    assert Distance(h, a) == Distance(h, b);
  }

  /** What the ring answers for a key hash: the node at the nearest point clockwise. */
  ghost predicate Owns(ring: Ring, h: u64, id: NodeId) {
    exists point :: IsSuccessor(ring, h, point) && ring[point] == id
  }

  lemma OwnerUnique(ring: Ring, h: u64, a: NodeId, b: NodeId)
    requires Owns(ring, h, a) && Owns(ring, h, b)
    ensures a == b
  {
    var p :| IsSuccessor(ring, h, p) && ring[p] == a;
    var q :| IsSuccessor(ring, h, q) && ring[q] == b;
    SuccessorUnique(ring, h, p, q);
  }

  class HashRing {
    const hash: PointHash
    var ring: Ring
    var version: u64

    constructor (hash: PointHash)
      ensures this.hash == hash && ring == map[] && version == 0
    {
      this.hash, ring, version := hash, map[], 0;
    }

    /** Virtual node `v` of node `i` is on the ring, if the node is alive and has that one. */
    ghost predicate OnRing(nodes: seq<NodeInfo>, i: nat, v: nat)
      reads this
    {
      i < |nodes| && nodes[i].alive && (v < nodes[i].vnodeCount || v == 0) ==> hash(nodes[i].id, v) in ring
    }

    method Rebuild(shards: ShardMap)
      modifies this
      ensures ring == RingOf(shards.nodes, hash) && version == shards.version
      ensures forall i, v :: OnRing(shards.nodes, i, v)
    {
      ring := map[];
      version := shards.version;
      for i := 0 to |shards.nodes|
        invariant ring == RingOf(shards.nodes[..i], hash) && version == shards.version
      {
        var node := shards.nodes[i];
        assert shards.nodes[..i + 1][..i] == shards.nodes[..i];
        if !node.alive {
          continue;
        }
        ghost var before := ring;
        var vnodes := if node.vnodeCount > 0 then node.vnodeCount else 1;
        for v := 0 to vnodes
          invariant ring == WithPoints(before, node.id, v, hash) && version == shards.version
        {
          ring := ring[hash(node.id, v) := node.id];
        }
      }
      assert shards.nodes[..|shards.nodes|] == shards.nodes;
      forall i: nat, v: nat
        ensures OnRing(shards.nodes, i, v)
      {
        if i < |shards.nodes| && shards.nodes[i].alive && (v < shards.nodes[i].vnodeCount || v == 0) {
          EveryVnodeIsOnRing(shards.nodes, hash, i, v);
        }
      }
    }

    /** std::map::lower_bound. */
    method LowerBound(h: u64) returns (r: Option<u64>)
      ensures r.None? ==> forall p :: p in ring ==> p < h
      ensures r.Some? ==> r.value in ring && h <= r.value && forall p :: p in ring && h <= p ==> r.value <= p
    {
      r := None;
      var todo := ring.Keys;
      while todo != {}
        invariant todo <= ring.Keys
        invariant r.None? ==> forall p :: p in ring && p !in todo ==> p < h
        invariant r.Some? ==> r.value in ring && h <= r.value
        invariant r.Some? ==> forall p :: p in ring && p !in todo && h <= p ==> r.value <= p
        decreases |todo|
      {
        var p :| p in todo;
        todo := todo - {p};
        if h <= p && (r.None? || p < r.value) {
          r := Some(p);
        }
      }
    }

    /** `p` is the first point at or after `h`, or the first of all if there is none. */
    ghost predicate FirstFrom(h: u64, p: u64)
      reads this
    {
      if h <= p then forall q :: q in ring && h <= q ==> p <= q
      else (forall q :: q in ring ==> q < h) && (forall q :: q in ring ==> p <= q)
    }

    method Owner(key: BlockKey) returns (r: Result<NodeId>)
      ensures ring == map[] ==> r == Failure(Unavailable)
      ensures ring != map[] ==> r.Success? && Owns(ring, key.prefixHash, r.value)
      ensures ring != map[] ==> exists p :: p in ring && r == Success(ring[p]) && FirstFrom(key.prefixHash, p)
    {
      if ring == map[] {
        return Failure(Unavailable);
      }
      var it := LowerBound(key.prefixHash);
      if it.None? {
        it := LowerBound(0);
      }
      assert IsSuccessor(ring, key.prefixHash, it.value);
      assert FirstFrom(key.prefixHash, it.value);
      return Success(ring[it.value]);
    }
  }

  // ---- Movement ----

  /** `more` is `ring` with some points added or taken over by `id`. */
  ghost predicate Extends(more: Ring, ring: Ring, id: NodeId) {
    && (forall p :: p in ring ==> p in more)
    && (forall p :: p in more ==> more[p] == id || (p in ring && more[p] == ring[p]))
  }

  lemma {:induction false} PointsExtend(ring: Ring, id: NodeId, n: nat, hash: PointHash)
    ensures Extends(WithPoints(ring, id, n, hash), ring, id)
  {
    if n > 0 {
      PointsExtend(ring, id, n - 1, hash);
    }
  }

  lemma {:induction false} SamePoints(more: Ring, ring: Ring, id: NodeId, other: NodeId, n: nat, hash: PointHash)
    requires Extends(more, ring, id)
    ensures Extends(WithPoints(more, other, n, hash), WithPoints(ring, other, n, hash), id)
  {
    if n > 0 {
      SamePoints(more, ring, id, other, n - 1, hash);
    }
  }

  /** The list with one node more, or with one node alive that was dead, and whatever nodes around it. */
  lemma {:induction false} OneMoreNode(front: seq<NodeInfo>, node: NodeInfo, back: seq<NodeInfo>, hash: PointHash)
    requires node.alive
    ensures Extends(RingOf(front + [node] + back, hash), RingOf(front + back, hash), node.id)
    ensures Extends(RingOf(front + [node] + back, hash), RingOf(front + [node.(alive := false)] + back, hash), node.id)
    decreases |back|
  {
    var dead := node.(alive := false);
    if back == [] {
      assert front + [node] + back == front + [node] && front + [dead] + back == front + [dead] && front + back == front;
      assert (front + [node])[..|front|] == front && (front + [dead])[..|front|] == front;
      PointsExtend(RingOf(front, hash), node.id, Vnodes(node), hash);
    } else {
      var rest, last := back[..|back| - 1], back[|back| - 1];
      OneMoreNode(front, node, rest, hash);
      RingLast(front + [node], rest, last, back, hash);
      RingLast(front + [dead], rest, last, back, hash);
      RingLast(front, rest, last, back, hash);
      if last.alive {
        SamePoints(RingOf(front + [node] + rest, hash), RingOf(front + rest, hash), node.id, last.id, Vnodes(last), hash);
        SamePoints(RingOf(front + [node] + rest, hash), RingOf(front + [dead] + rest, hash), node.id, last.id, Vnodes(last), hash);
      }
    }
  }

  lemma RingLast(front: seq<NodeInfo>, rest: seq<NodeInfo>, last: NodeInfo, back: seq<NodeInfo>, hash: PointHash)
    requires back == rest + [last]
    ensures RingOf(front + back, hash) == WithNode(RingOf(front + rest, hash), last, hash)
  {
    assert (front + back)[..|front + back| - 1] == front + rest;
  }

  lemma OwnerStays(more: Ring, ring: Ring, id: NodeId, h: u64, before: NodeId, after: NodeId)
    requires Extends(more, ring, id) && Owns(ring, h, before) && Owns(more, h, after)
    ensures after == before || after == id
  {
    var p :| IsSuccessor(more, h, p) && more[p] == after;
    if after != id {
      assert IsSuccessor(ring, h, p);
      OwnerUnique(ring, h, ring[p], before);
    }
  }

  /** Minimal movement: when a node joins, wherever it stands in the list and whichever points it
      shares, a key keeps its owner or moves to that node. Read the other way, when a node leaves or
      dies, only its own keys move. */
  lemma MinimalMovement(front: seq<NodeInfo>, node: NodeInfo, back: seq<NodeInfo>, hash: PointHash, h: u64,
                        before: NodeId, after: NodeId)
    requires node.alive && Owns(RingOf(front + [node] + back, hash), h, after)
    requires || Owns(RingOf(front + back, hash), h, before)
             || Owns(RingOf(front + [node.(alive := false)] + back, hash), h, before)
    ensures after == before || after == node.id
  {
    OneMoreNode(front, node, back, hash);
    var more := RingOf(front + [node] + back, hash);
    if Owns(RingOf(front + back, hash), h, before) {
      OwnerStays(more, RingOf(front + back, hash), node.id, h, before, after);
    } else {
      OwnerStays(more, RingOf(front + [node.(alive := false)] + back, hash), node.id, h, before, after);
    }
  }
}
