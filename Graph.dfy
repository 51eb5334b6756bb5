/**
 * The floor graph: location markers ("nodes") placed on a floor-plan image, kept in
 * insertion order, each with a list of connections to other nodes.
 *
 * Every graph mutation of the editor is a pure function from the old node list to the
 * new one (the source computes each with `map`/`filter`).  The lemmas show which of
 * the graph invariants (symmetric connections, no self-edges, no duplicate entries,
 * unique ids) each mutation keeps.
 */
module Graph {
  import opened Wrappers

  type NodeId = string

  datatype NodeType = Room | Corridor | Door | Stairs | Elevator

  /** Stored position of a node, in percent of the image or in image pixels, and the floor it is on. */
  datatype Coordinates = Coordinates(x: real, y: real, floor: string)

  /** One end of an edge: the id of the node at the other end and the edge's length. */
  datatype Connection = Connection(nodeId: NodeId, distance: real)

  datatype Node = Node(nodeId: NodeId, name: string, kind: NodeType,
                       coordinates: Coordinates, connections: seq<Connection>)

  datatype FloorPlan = FloorPlan(id: string, projectId: string, name: string, level: int,
                                 nodes: seq<Node>)

  /** The distance written on every new connection; the editor never computes one. */
  const DefaultDistance: real := 0.0

  // ---------------------------------------------------------------------------
  // Lookups
  // ---------------------------------------------------------------------------

  predicate HasNode(nodes: seq<Node>, id: NodeId) {
    exists j :: 0 <= j < |nodes| && nodes[j].nodeId == id
  }

  /** Index of the first node with the given id (`Array.prototype.findIndex`). */
  function FindIndex(nodes: seq<Node>, id: NodeId): (r: Option<nat>)
    ensures r.Some? ==> r.value < |nodes| && nodes[r.value].nodeId == id
    ensures r.Some? ==> forall j :: 0 <= j < r.value ==> nodes[j].nodeId != id
    ensures r.None? <==> !HasNode(nodes, id)
  {
    if |nodes| == 0 then None
    else if nodes[0].nodeId == id then Some(0)
    else
      match FindIndex(nodes[1..], id)
      case None =>
        assert forall j :: 1 <= j < |nodes| ==> nodes[j] == nodes[1..][j - 1];
        None
      case Some(j) => Some(j + 1)
  }

  /** The first node with the given id (`Array.prototype.find`). */
  function Find(nodes: seq<Node>, id: NodeId): (r: Option<Node>)
    ensures r.Some? <==> HasNode(nodes, id)
    ensures r.Some? ==> r.value in nodes && r.value.nodeId == id
    ensures r.Some? ==> r.value == nodes[FindIndex(nodes, id).value]
  {
    match FindIndex(nodes, id)
    case None => None
    case Some(j) => Some(nodes[j])
  }

  /** `n.connections.some(c => c.nodeId === target)` */
  predicate ConnectsTo(n: Node, target: NodeId) {
    exists c :: c in n.connections && c.nodeId == target
  }

  // ---------------------------------------------------------------------------
  // Invariants of a floor graph
  // ---------------------------------------------------------------------------

  /** Some node with id `a` stores a connection to `b`. */
  ghost predicate Linked(nodes: seq<Node>, a: NodeId, b: NodeId) {
    exists n :: n in nodes && n.nodeId == a && ConnectsTo(n, b)
  }

  /** Every stored connection A -> B is matched by a stored connection B -> A. */
  ghost predicate Symmetric(nodes: seq<Node>) {
    forall n, c :: n in nodes && c in n.connections ==> Linked(nodes, c.nodeId, n.nodeId)
  }

  ghost predicate NoSelfEdges(nodes: seq<Node>) {
    forall n :: n in nodes ==> !ConnectsTo(n, n.nodeId)
  }

  /** No connection list names the same target twice. */
  ghost predicate DistinctTargets(cs: seq<Connection>) {
    forall k1, k2 :: 0 <= k1 < k2 < |cs| ==> cs[k1].nodeId != cs[k2].nodeId
  }

  ghost predicate NoDuplicateConnections(nodes: seq<Node>) {
    forall n :: n in nodes ==> DistinctTargets(n.connections)
  }

  ghost predicate UniqueIds(nodes: seq<Node>) {
    forall j1, j2 :: 0 <= j1 < j2 < |nodes| ==> nodes[j1].nodeId != nodes[j2].nodeId
  }

  /** The graph invariant the editor is meant to keep. */
  ghost predicate WellFormed(nodes: seq<Node>) {
    Symmetric(nodes) && NoSelfEdges(nodes) && NoDuplicateConnections(nodes) && UniqueIds(nodes)
  }

  lemma SymmetricBothWays(nodes: seq<Node>, a: NodeId, b: NodeId)
    requires Symmetric(nodes)
    ensures Linked(nodes, a, b) <==> Linked(nodes, b, a)
  {
    if Linked(nodes, a, b) {
      var n :| n in nodes && n.nodeId == a && ConnectsTo(n, b);
      var c :| c in n.connections && c.nodeId == b;
    }
    if Linked(nodes, b, a) {
      var n :| n in nodes && n.nodeId == b && ConnectsTo(n, a);
      var c :| c in n.connections && c.nodeId == a;
    }
  }

  /** Two node lists with the same ids and connections, position by position. */
  ghost predicate SameShape(xs: seq<Node>, ys: seq<Node>) {
    |xs| == |ys| &&
    forall i :: 0 <= i < |xs| ==>
      xs[i].nodeId == ys[i].nodeId && xs[i].connections == ys[i].connections
  }

  /** The invariant only looks at ids and connections. */
  lemma WellFormedOnlyByShape(xs: seq<Node>, ys: seq<Node>)
    requires SameShape(xs, ys)
    ensures WellFormed(xs) ==> WellFormed(ys)
  {
    if WellFormed(xs) {
      SymmetricOnlyByShape(xs, ys);
      forall n | n in ys ensures !ConnectsTo(n, n.nodeId) && DistinctTargets(n.connections) {
        var i :| 0 <= i < |ys| && ys[i] == n;
        assert xs[i] in xs;
      }
    }
  }

  lemma SymmetricOnlyByShape(xs: seq<Node>, ys: seq<Node>)
    requires SameShape(xs, ys) && Symmetric(xs)
    ensures Symmetric(ys)
  {
    forall n, c | n in ys && c in n.connections ensures Linked(ys, c.nodeId, n.nodeId) {
      var i :| 0 <= i < |ys| && ys[i] == n;
      assert c in xs[i].connections;
      var p :| p in xs && p.nodeId == c.nodeId && ConnectsTo(p, n.nodeId);
      var j :| 0 <= j < |xs| && xs[j] == p;
      var d :| d in p.connections && d.nodeId == n.nodeId;
      assert d in ys[j].connections;
    }
  }

  // ---------------------------------------------------------------------------
  // createConnection
  // ---------------------------------------------------------------------------

  /** Append a zero-distance connection to `target` unless one is already stored. */
  function AddIfAbsent(n: Node, target: NodeId): (r: Node)
    ensures ConnectsTo(r, target)
    ensures ConnectsTo(n, target) ==> r == n
    ensures !ConnectsTo(n, target) ==> |r.connections| == |n.connections| + 1
    ensures r.nodeId == n.nodeId && r.name == n.name && r.kind == n.kind
    ensures r.coordinates == n.coordinates
    ensures n.connections <= r.connections && |r.connections| <= |n.connections| + 1
    ensures forall k :: |n.connections| <= k < |r.connections| ==>
              r.connections[k] == Connection(target, DefaultDistance)
  {
    if ConnectsTo(n, target) then n
    else
      var r := n.(connections := n.connections + [Connection(target, DefaultDistance)]);
      assert r.connections[|n.connections|] in r.connections;
      r
  }

  /**
   * What the `map` in `createConnection` does to one node: a node with id `a` connects
   * to `b`, one with id `b` to `a`, any other node is returned as it is; a node keeps its
   * fields and its old entries and gains at most one entry, naming the other end.
   */
  function LinkNode(n: Node, a: NodeId, b: NodeId): (r: Node)
    ensures n.nodeId == a ==> ConnectsTo(r, b)
    ensures n.nodeId == b ==> ConnectsTo(r, a)
    ensures n.nodeId != a && n.nodeId != b ==> r == n
    ensures r.nodeId == n.nodeId && r.name == n.name && r.kind == n.kind
    ensures r.coordinates == n.coordinates
    ensures n.connections <= r.connections && |r.connections| <= |n.connections| + 1
    ensures forall k :: |n.connections| <= k < |r.connections| ==>
              r.connections[k] == Connection(if n.nodeId == a then b else a, DefaultDistance)
  {
    if n.nodeId == a then AddIfAbsent(n, b)
    else if n.nodeId == b then AddIfAbsent(n, a)
    else n
  }

  /**
   * Connect the nodes with ids `a` and `b`: nothing happens unless both exist; then every
   * node with id `a` gets a connection to `b` and every node with id `b` one to `a`, each
   * only if it is not already there.  `a == b` is not rejected here.
   */
  function CreateConnection(nodes: seq<Node>, a: NodeId, b: NodeId): (r: seq<Node>)
    ensures !HasNode(nodes, a) || !HasNode(nodes, b) ==> r == nodes
    ensures |r| == |nodes|
    ensures forall i :: 0 <= i < |r| ==>
              r[i].nodeId == nodes[i].nodeId && r[i].name == nodes[i].name &&
              r[i].kind == nodes[i].kind && r[i].coordinates == nodes[i].coordinates &&
              nodes[i].connections <= r[i].connections
  {
    if Find(nodes, a).None? || Find(nodes, b).None? then nodes
    else seq(|nodes|, i requires 0 <= i < |nodes| => LinkNode(nodes[i], a, b))
  }

  /**
   * When both ends exist, each node with id `a` connects to `b`, each with id `b`
   * connects to `a`, nodes with other ids are untouched, and a node gains at most one
   * entry, naming the other end with distance 0, only if it had none for it.
   */
  lemma CreateConnectionEffect(nodes: seq<Node>, a: NodeId, b: NodeId, i: nat)
    requires HasNode(nodes, a) && HasNode(nodes, b)
    requires i < |nodes|
    ensures var r := CreateConnection(nodes, a, b);
      && (nodes[i].nodeId == a ==> ConnectsTo(r[i], b))
      && (nodes[i].nodeId == b ==> ConnectsTo(r[i], a))
      && (nodes[i].nodeId != a && nodes[i].nodeId != b ==> r[i] == nodes[i])
      && (r[i].connections == nodes[i].connections ||
          exists t :: t == (if nodes[i].nodeId == a then b else a) && !ConnectsTo(nodes[i], t) &&
                      r[i].connections == nodes[i].connections + [Connection(t, DefaultDistance)])
  {
    var r := CreateConnection(nodes, a, b);
    assert r[i] == LinkNode(nodes[i], a, b);
    if r[i].connections != nodes[i].connections {
      var t := if nodes[i].nodeId == a then b else a;
      assert r[i].connections == nodes[i].connections + [Connection(t, DefaultDistance)];
    }
  }

  /** With both ends present, position `i` of the result is node `i` linked. */
  lemma CreateConnectionAt(nodes: seq<Node>, a: NodeId, b: NodeId, i: nat)
    requires HasNode(nodes, a) && HasNode(nodes, b)
    requires i < |nodes|
    ensures CreateConnection(nodes, a, b)[i] == LinkNode(nodes[i], a, b)
  {
  }

  /** Linking a node a second time changes nothing: the first link already stored the entry. */
  lemma LinkNodeIdempotent(n: Node, a: NodeId, b: NodeId)
    ensures LinkNode(LinkNode(n, a, b), a, b) == LinkNode(n, a, b)
  {
  }

  /** Connecting the same two ids a second time changes nothing. */
  lemma CreateConnectionIdempotent(nodes: seq<Node>, a: NodeId, b: NodeId)
    ensures CreateConnection(CreateConnection(nodes, a, b), a, b) == CreateConnection(nodes, a, b)
  {
    if HasNode(nodes, a) && HasNode(nodes, b) {
      ConnectedKeepsEnds(nodes, a, b);
      RelinkChangesNothing(nodes, a, b);
    }
  }

  /** Both ends are still present after connecting them. */
  lemma ConnectedKeepsEnds(nodes: seq<Node>, a: NodeId, b: NodeId)
    requires HasNode(nodes, a) && HasNode(nodes, b)
    ensures HasNode(CreateConnection(nodes, a, b), a) && HasNode(CreateConnection(nodes, a, b), b)
  {
    var r := CreateConnection(nodes, a, b);
    var ja :| 0 <= ja < |nodes| && nodes[ja].nodeId == a;
    var jb :| 0 <= jb < |nodes| && nodes[jb].nodeId == b;
    assert r[ja].nodeId == a && r[jb].nodeId == b;
  }

  lemma RelinkChangesNothing(nodes: seq<Node>, a: NodeId, b: NodeId)
    requires HasNode(nodes, a) && HasNode(nodes, b)
    requires HasNode(CreateConnection(nodes, a, b), a) && HasNode(CreateConnection(nodes, a, b), b)
    ensures CreateConnection(CreateConnection(nodes, a, b), a, b) == CreateConnection(nodes, a, b)
  {
    var r := CreateConnection(nodes, a, b);
    var r2 := CreateConnection(r, a, b);
    assert |r2| == |r|;
    forall i | 0 <= i < |r| ensures r2[i] == r[i] {
      CreateConnectionAt(nodes, a, b, i);
      CreateConnectionAt(r, a, b, i);
      LinkNodeIdempotent(nodes[i], a, b);
    }
  }

  lemma AddIfAbsentKeepsDistinct(n: Node, target: NodeId)
    requires DistinctTargets(n.connections)
    ensures DistinctTargets(AddIfAbsent(n, target).connections)
  {
    if !ConnectsTo(n, target) {
      var cs := AddIfAbsent(n, target).connections;
      forall k1, k2 | 0 <= k1 < k2 < |cs| ensures cs[k1].nodeId != cs[k2].nodeId {
        if k2 == |n.connections| {
          assert cs[k1] in n.connections;
        }
      }
    }
  }

  /** A node linked to a distinct other end keeps no self-edge and no duplicate targets. */
  lemma LinkNodeKeepsNodeInvariant(n: Node, a: NodeId, b: NodeId)
    requires a != b
    requires !ConnectsTo(n, n.nodeId) && DistinctTargets(n.connections)
    ensures var m := LinkNode(n, a, b); !ConnectsTo(m, m.nodeId) && DistinctTargets(m.connections)
  {
    var m := LinkNode(n, a, b);
    if n.nodeId == a {
      AddIfAbsentKeepsDistinct(n, b);
    } else if n.nodeId == b {
      AddIfAbsentKeepsDistinct(n, a);
    }
  }

  /** Connecting keeps every connection matched by one in the opposite direction. */
  lemma CreateConnectionKeepsSymmetric(nodes: seq<Node>, a: NodeId, b: NodeId)
    requires Symmetric(nodes)
    ensures Symmetric(CreateConnection(nodes, a, b))
  {
    var r := CreateConnection(nodes, a, b);
    if HasNode(nodes, a) && HasNode(nodes, b) {
      forall n, c | n in r && c in n.connections ensures Linked(r, c.nodeId, n.nodeId) {
        var i :| 0 <= i < |r| && r[i] == n;
        var k :| 0 <= k < |n.connections| && n.connections[k] == c;
        if k < |nodes[i].connections| {
          OldConnectionStillLinked(nodes, a, b, i, k);
        } else {
          NewConnectionLinked(nodes, a, b, i, k);
        }
      }
    }
  }

  lemma OldConnectionStillLinked(nodes: seq<Node>, a: NodeId, b: NodeId, i: nat, k: nat)
    requires Symmetric(nodes)
    requires HasNode(nodes, a) && HasNode(nodes, b)
    requires i < |nodes| && k < |nodes[i].connections|
    ensures var r := CreateConnection(nodes, a, b);
      Linked(r, nodes[i].connections[k].nodeId, nodes[i].nodeId)
  {
    var c := nodes[i].connections[k];
    assert c in nodes[i].connections && nodes[i] in nodes;
    assert Linked(nodes, c.nodeId, nodes[i].nodeId);
    var p :| p in nodes && p.nodeId == c.nodeId && ConnectsTo(p, nodes[i].nodeId);
    var j :| 0 <= j < |nodes| && nodes[j] == p;
    var r := CreateConnection(nodes, a, b);
    ConnectsToExtended(p, r[j], nodes[i].nodeId);
    assert r[j] in r;
  }

  /** A connection stays found when entries are appended after it. */
  lemma ConnectsToExtended(n: Node, m: Node, t: NodeId)
    requires n.connections <= m.connections && ConnectsTo(n, t)
    ensures ConnectsTo(m, t)
  {
    var c :| c in n.connections && c.nodeId == t;
    var k :| 0 <= k < |n.connections| && n.connections[k] == c;
    assert m.connections[k] == c;
  }

  lemma NewConnectionLinked(nodes: seq<Node>, a: NodeId, b: NodeId, i: nat, k: nat)
    requires HasNode(nodes, a) && HasNode(nodes, b)
    requires i < |nodes|
    requires |nodes[i].connections| <= k < |CreateConnection(nodes, a, b)[i].connections|
    ensures var r := CreateConnection(nodes, a, b);
      Linked(r, r[i].connections[k].nodeId, r[i].nodeId)
  {
    var r := CreateConnection(nodes, a, b);
    assert r[i] == LinkNode(nodes[i], a, b);
    var t := if nodes[i].nodeId == a then b else a;
    assert r[i].connections[k].nodeId == t;
    var j :| 0 <= j < |nodes| && nodes[j].nodeId == t;
    assert r[j] == LinkNode(nodes[j], a, b);
    assert r[j] in r;
    assert ConnectsTo(r[j], r[i].nodeId);
  }

  /** Connecting two distinct ids never creates a self-edge. */
  lemma CreateConnectionKeepsNoSelfEdges(nodes: seq<Node>, a: NodeId, b: NodeId)
    requires a != b
    requires NoSelfEdges(nodes)
    ensures NoSelfEdges(CreateConnection(nodes, a, b))
  {
    var r := CreateConnection(nodes, a, b);
    if HasNode(nodes, a) && HasNode(nodes, b) {
      forall n | n in r ensures !ConnectsTo(n, n.nodeId) {
        var i :| 0 <= i < |r| && r[i] == n;
        assert nodes[i] in nodes;
        assert n == LinkNode(nodes[i], a, b);
        forall k | 0 <= k < |n.connections| ensures n.connections[k].nodeId != n.nodeId {
          if k < |nodes[i].connections| {
            assert n.connections[k] == nodes[i].connections[k];
            assert n.connections[k] in nodes[i].connections;
          }
        }
      }
    }
  }

  /** Called directly with the same id twice, the operation does store a self-edge. */
  lemma CreateConnectionSameIdStoresSelfEdge()
    ensures var nodes := [Node("A", "Node 1", Room, Coordinates(0.0, 0.0, "F"), [])];
            CreateConnection(nodes, "A", "A")[0].connections == [Connection("A", DefaultDistance)]
  {
    var nodes := [Node("A", "Node 1", Room, Coordinates(0.0, 0.0, "F"), [])];
    assert HasNode(nodes, "A") by { assert nodes[0].nodeId == "A"; }
    assert CreateConnection(nodes, "A", "A")[0] == LinkNode(nodes[0], "A", "A");
  }

  /** Connecting two distinct ids keeps the graph invariant. */
  lemma CreateConnectionKeepsWellFormed(nodes: seq<Node>, a: NodeId, b: NodeId)
    requires a != b
    requires WellFormed(nodes)
    ensures WellFormed(CreateConnection(nodes, a, b))
  {
    var r := CreateConnection(nodes, a, b);
    CreateConnectionKeepsSymmetric(nodes, a, b);
    if HasNode(nodes, a) && HasNode(nodes, b) {
      forall n | n in r ensures !ConnectsTo(n, n.nodeId) && DistinctTargets(n.connections) {
        var i :| 0 <= i < |r| && r[i] == n;
        assert nodes[i] in nodes;
        assert n == LinkNode(nodes[i], a, b);
        LinkNodeKeepsNodeInvariant(nodes[i], a, b);
      }
    }
  }

  // ---------------------------------------------------------------------------
  // deleteNode
  // ---------------------------------------------------------------------------

  /** `cs.filter(c => c.nodeId !== id)` */
  function RemoveConnectionsTo(cs: seq<Connection>, id: NodeId): (r: seq<Connection>)
    ensures |r| <= |cs|
    ensures forall c :: c in r <==> c in cs && c.nodeId != id
  {
    if |cs| == 0 then []
    else
      assert forall c :: c in cs <==> c == cs[0] || c in cs[1..];
      (if cs[0].nodeId == id then [] else [cs[0]]) + RemoveConnectionsTo(cs[1..], id)
  }

  /** The filter works entry by entry, so the kept entries stay in their order. */
  lemma {:induction false} RemoveConnectionsToAppend(xs: seq<Connection>, ys: seq<Connection>, id: NodeId)
    ensures RemoveConnectionsTo(xs + ys, id) == RemoveConnectionsTo(xs, id) + RemoveConnectionsTo(ys, id)
  {
    if |xs| == 0 {
      assert xs + ys == ys;
    } else {
      assert (xs + ys)[1..] == xs[1..] + ys;
      RemoveConnectionsToAppend(xs[1..], ys, id);
    }
  }

  lemma {:induction false} RemoveConnectionsToKeepsDistinct(cs: seq<Connection>, id: NodeId)
    requires DistinctTargets(cs)
    ensures DistinctTargets(RemoveConnectionsTo(cs, id))
  {
    if |cs| > 0 {
      var tail := cs[1..];
      assert DistinctTargets(tail) by {
        forall k1, k2 | 0 <= k1 < k2 < |tail| ensures tail[k1].nodeId != tail[k2].nodeId {
          assert tail[k1] == cs[k1 + 1] && tail[k2] == cs[k2 + 1];
        }
      }
      RemoveConnectionsToKeepsDistinct(tail, id);
      var rest := RemoveConnectionsTo(tail, id);
      if cs[0].nodeId != id {
        var r := [cs[0]] + rest;
        forall k1, k2 | 0 <= k1 < k2 < |r| ensures r[k1].nodeId != r[k2].nodeId {
          if k1 == 0 {
            assert r[k2] == rest[k2 - 1] && rest[k2 - 1] in rest;
            var m :| 0 <= m < |tail| && tail[m] == rest[k2 - 1];
            assert tail[m] == cs[m + 1];
          } else {
            assert r[k1] == rest[k1 - 1] && r[k2] == rest[k2 - 1];
          }
        }
      }
    }
  }

  /** What `deleteNode`'s `map` does to one surviving node. */
  function Detach(n: Node, id: NodeId): (r: Node)
    ensures r.nodeId == n.nodeId && r.name == n.name && r.kind == n.kind
    ensures r.coordinates == n.coordinates
    ensures forall t :: ConnectsTo(r, t) <==> ConnectsTo(n, t) && t != id
    ensures r.connections == RemoveConnectionsTo(n.connections, id)
  {
    var r := n.(connections := RemoveConnectionsTo(n.connections, id));
    assert forall t :: ConnectsTo(r, t) ==> ConnectsTo(n, t) && t != id by {
      forall t | ConnectsTo(r, t) ensures ConnectsTo(n, t) && t != id {
        var c :| c in r.connections && c.nodeId == t;
      }
    }
    assert forall t :: ConnectsTo(n, t) && t != id ==> ConnectsTo(r, t) by {
      forall t | ConnectsTo(n, t) && t != id ensures ConnectsTo(r, t) {
        var c :| c in n.connections && c.nodeId == t;
        assert c in r.connections;
      }
    }
    r
  }

  /**
   * Delete the node `id`: drop every node with that id, then strip every connection to
   * `id` from the nodes that remain.  No node of the result has that id or a connection to it.
   */
  function DeleteNode(nodes: seq<Node>, id: NodeId): (r: seq<Node>)
    ensures |r| <= |nodes|
    ensures forall n :: n in r ==> n.nodeId != id && !ConnectsTo(n, id)
  {
    if |nodes| == 0 then []
    else (if nodes[0].nodeId == id then [] else [Detach(nodes[0], id)]) + DeleteNode(nodes[1..], id)
  }

  /**
   * Deleting distributes over concatenation: the survivors keep their relative order.
   * Together with the single-node case below, this determines the result.
   */
  lemma {:induction false} DeleteNodeAppend(xs: seq<Node>, ys: seq<Node>, id: NodeId)
    ensures DeleteNode(xs + ys, id) == DeleteNode(xs, id) + DeleteNode(ys, id)
  {
    if |xs| == 0 {
      assert xs + ys == ys;
    } else {
      assert (xs + ys)[1..] == xs[1..] + ys;
      DeleteNodeAppend(xs[1..], ys, id);
    }
  }

  /** A single node either disappears (it is the deleted one) or loses its connections to `id`. */
  lemma DeleteNodeSingle(n: Node, id: NodeId)
    ensures DeleteNode([n], id) == if n.nodeId == id then [] else [Detach(n, id)]
  {
    assert [n][1..] == [];
  }

  /** Exactly the nodes with another id survive, each with its connections to `id` removed. */
  lemma {:induction false} DeleteNodeMembers(nodes: seq<Node>, id: NodeId)
    ensures forall m :: m in nodes && m.nodeId != id ==> Detach(m, id) in DeleteNode(nodes, id)
    ensures forall n :: n in DeleteNode(nodes, id) ==>
              exists m :: m in nodes && m.nodeId != id && n == Detach(m, id)
  {
    if |nodes| > 0 {
      DeleteNodeMembers(nodes[1..], id);
      assert forall m :: m in nodes <==> m == nodes[0] || m in nodes[1..];
    }
  }

  lemma RemoveConnectionsToAbsent(cs: seq<Connection>, id: NodeId)
    requires forall c :: c in cs ==> c.nodeId != id
    ensures RemoveConnectionsTo(cs, id) == cs
  {
    if |cs| > 0 {
      assert cs[0] in cs;
      assert forall c :: c in cs[1..] ==> c in cs;
      RemoveConnectionsToAbsent(cs[1..], id);
    }
  }

  /** Deleting an id that no node has and no connection names changes nothing. */
  lemma {:induction false} DeleteNodeAbsent(nodes: seq<Node>, id: NodeId)
    requires !HasNode(nodes, id)
    requires forall n :: n in nodes ==> !ConnectsTo(n, id)
    ensures DeleteNode(nodes, id) == nodes
  {
    if |nodes| > 0 {
      assert nodes[0] in nodes;
      assert forall c :: c in nodes[0].connections ==> c.nodeId != id;
      RemoveConnectionsToAbsent(nodes[0].connections, id);
      assert !HasNode(nodes[1..], id) by {
        forall j | 0 <= j < |nodes[1..]| ensures nodes[1..][j].nodeId != id {
          assert nodes[1..][j] == nodes[j + 1];
        }
      }
      assert forall n :: n in nodes[1..] ==> n in nodes;
      DeleteNodeAbsent(nodes[1..], id);
      assert nodes == [nodes[0]] + nodes[1..];
    }
  }

  /**
   * In a well-formed plan a connection to `id` has a reverse, stored by a node with that
   * id; so when no node has the id, deleting it changes nothing.
   */
  lemma DeleteNodeAbsentWellFormed(nodes: seq<Node>, id: NodeId)
    requires WellFormed(nodes)
    requires !HasNode(nodes, id)
    ensures DeleteNode(nodes, id) == nodes
  {
    TargetsPresent(nodes);
    DeleteNodeAbsent(nodes, id);
  }

  /** In a symmetric plan every connection names a node that exists. */
  lemma TargetsPresent(nodes: seq<Node>)
    requires Symmetric(nodes)
    ensures forall n, c :: n in nodes && c in n.connections ==> HasNode(nodes, c.nodeId)
  {
    forall n, c | n in nodes && c in n.connections ensures HasNode(nodes, c.nodeId) {
      var p :| p in nodes && p.nodeId == c.nodeId && ConnectsTo(p, n.nodeId);
      var j :| 0 <= j < |nodes| && nodes[j] == p;
    }
  }

  /** Deleting the same id twice is the same as deleting it once. */
  lemma DeleteNodeIdempotent(nodes: seq<Node>, id: NodeId)
    ensures DeleteNode(DeleteNode(nodes, id), id) == DeleteNode(nodes, id)
  {
    var r := DeleteNode(nodes, id);
    assert !HasNode(r, id) by {
      forall j | 0 <= j < |r| ensures r[j].nodeId != id {
        assert r[j] in r;
      }
    }
    DeleteNodeAbsent(r, id);
  }

  lemma {:induction false} DeleteNodeKeepsUniqueIds(nodes: seq<Node>, id: NodeId)
    requires UniqueIds(nodes)
    ensures UniqueIds(DeleteNode(nodes, id))
  {
    if |nodes| > 0 {
      var tail := nodes[1..];
      assert UniqueIds(tail) by {
        forall j1, j2 | 0 <= j1 < j2 < |tail| ensures tail[j1].nodeId != tail[j2].nodeId {
          assert tail[j1] == nodes[j1 + 1] && tail[j2] == nodes[j2 + 1];
        }
      }
      DeleteNodeKeepsUniqueIds(tail, id);
      DeleteNodeMembers(tail, id);
      var rest := DeleteNode(tail, id);
      if nodes[0].nodeId != id {
        var r := [Detach(nodes[0], id)] + rest;
        forall j1, j2 | 0 <= j1 < j2 < |r| ensures r[j1].nodeId != r[j2].nodeId {
          if j1 == 0 {
            assert r[j2] == rest[j2 - 1] && rest[j2 - 1] in rest;
            var m :| m in tail && m.nodeId != id && rest[j2 - 1] == Detach(m, id);
            var j :| 0 <= j < |tail| && tail[j] == m;
            assert nodes[j + 1] == m;
          } else {
            assert r[j1] == rest[j1 - 1] && r[j2] == rest[j2 - 1];
          }
        }
      }
    }
  }

  /** Deleting a node keeps the graph invariant; in particular the cascade keeps symmetry. */
  lemma DeleteNodeKeepsWellFormed(nodes: seq<Node>, id: NodeId)
    requires WellFormed(nodes)
    ensures WellFormed(DeleteNode(nodes, id))
  {
    var r := DeleteNode(nodes, id);
    DeleteNodeMembers(nodes, id);
    DeleteNodeKeepsUniqueIds(nodes, id);
    forall n, c | n in r && c in n.connections ensures Linked(r, c.nodeId, n.nodeId) {
      var m :| m in nodes && m.nodeId != id && n == Detach(m, id);
      assert c in m.connections && c.nodeId != id;
      var p :| p in nodes && p.nodeId == c.nodeId && ConnectsTo(p, m.nodeId);
      assert Detach(p, id) in r;
      assert ConnectsTo(Detach(p, id), n.nodeId);
    }
    forall n | n in r ensures !ConnectsTo(n, n.nodeId) && DistinctTargets(n.connections) {
      var m :| m in nodes && m.nodeId != id && n == Detach(m, id);
      RemoveConnectionsToKeepsDistinct(m.connections, id);
    }
  }

  // ---------------------------------------------------------------------------
  // updateNode
  // ---------------------------------------------------------------------------

  /** The field edits the node editor panel issues: the name text box and the type selector. */
  datatype NodeEdit = Rename(name: string) | Retype(kind: NodeType)

  /** One edit changes the one field it names; id, position and connections are kept. */
  function ApplyEdit(n: Node, e: NodeEdit): (r: Node)
    ensures r.nodeId == n.nodeId && r.coordinates == n.coordinates && r.connections == n.connections
    ensures e.Rename? ==> r.name == e.name && r.kind == n.kind
    ensures e.Retype? ==> r.kind == e.kind && r.name == n.name
  {
    match e
    case Rename(s) => n.(name := s)
    case Retype(k) => n.(kind := k)
  }

  /** Apply `e` to every node with id `id`; all other nodes, and the order, stay as they are. */
  function UpdateNode(nodes: seq<Node>, id: NodeId, e: NodeEdit): (r: seq<Node>)
    ensures SameShape(nodes, r)
    ensures forall i :: 0 <= i < |r| ==> r[i].coordinates == nodes[i].coordinates
  {
    seq(|nodes|, i requires 0 <= i < |nodes| =>
      if nodes[i].nodeId == id then ApplyEdit(nodes[i], e) else nodes[i])
  }

  /** The edited nodes carry the new value and nothing else about them changes. */
  lemma UpdateNodeEffect(nodes: seq<Node>, id: NodeId, e: NodeEdit, i: nat)
    requires i < |nodes|
    ensures var n, r := nodes[i], UpdateNode(nodes, id, e)[i];
      && (n.nodeId != id ==> r == n)
      && (n.nodeId == id && e.Rename? ==> r.name == e.name && r.kind == n.kind)
      && (n.nodeId == id && e.Retype? ==> r.kind == e.kind && r.name == n.name)
  {
  }

  lemma UpdateNodeAbsent(nodes: seq<Node>, id: NodeId, e: NodeEdit)
    requires !HasNode(nodes, id)
    ensures UpdateNode(nodes, id, e) == nodes
  {
  }

  lemma UpdateNodeIdempotent(nodes: seq<Node>, id: NodeId, e: NodeEdit)
    ensures UpdateNode(UpdateNode(nodes, id, e), id, e) == UpdateNode(nodes, id, e)
  {
  }

  lemma UpdateNodeKeepsWellFormed(nodes: seq<Node>, id: NodeId, e: NodeEdit)
    requires WellFormed(nodes)
    ensures WellFormed(UpdateNode(nodes, id, e))
  {
    WellFormedOnlyByShape(nodes, UpdateNode(nodes, id, e));
  }

  // ---------------------------------------------------------------------------
  // Node creation
  // ---------------------------------------------------------------------------

  function DigitChar(d: nat): char
    requires d < 10
  {
    "0123456789"[d]
  }

  /** Decimal text of a natural number, as a template literal prints it. */
  function NatToString(n: nat): (r: string)
    ensures |r| >= 1
    ensures n > 0 ==> r[0] != '0'
    ensures |r| > 1 ==> r[0] != '0'
    ensures forall i :: 0 <= i < |r| ==> '0' <= r[i] <= '9'
  {
    if n < 10 then [DigitChar(n)] else NatToString(n / 10) + [DigitChar(n % 10)]
  }

  /** The value of a string of decimal digits. */
  function DecimalValue(s: string): nat
    requires forall i :: 0 <= i < |s| ==> '0' <= s[i] <= '9'
  {
    if |s| == 0 then 0 else DecimalValue(s[..|s| - 1]) * 10 + ((s[|s| - 1] as int) - ('0' as int))
  }

  lemma {:induction false} NatToStringRoundTrip(n: nat)
    ensures DecimalValue(NatToString(n)) == n
  {
    var s := NatToString(n);
    if n >= 10 {
      NatToStringRoundTrip(n / 10);
      assert s[..|s| - 1] == NatToString(n / 10);
    }
  }

  /**
   * `Node ${count + 1}`: the default name of the node created when `count` nodes exist.
   * It is "Node " followed by decimal digits that read back as the new node count.
   */
  function DefaultName(count: nat): (r: string)
    ensures |r| > 5 && r[..5] == "Node " && r[5] != '0'
    ensures forall i :: 5 <= i < |r| ==> '0' <= r[i] <= '9'
    ensures DecimalValue(r[5..]) == count + 1
  {
    var r := "Node " + NatToString(count + 1);
    assert r[5..] == NatToString(count + 1);
    NatToStringRoundTrip(count + 1);
    r
  }

  /** With six nodes on the plan, the next one is named "Node 7". */
  lemma DefaultNameExample()
    ensures DefaultName(6) == "Node 7"
  {
    assert NatToString(7) == "7";
  }

  /**
   * Append the node a click in add-node mode creates: a room with the fresh id, the
   * default name for the current count, the stored position and no connections.
   */
  function AddNode(nodes: seq<Node>, id: NodeId, floor: string, x: real, y: real): (r: seq<Node>)
    ensures |r| == |nodes| + 1 && r[..|nodes|] == nodes
    ensures r[|nodes|].nodeId == id && r[|nodes|].connections == []
    ensures r[|nodes|].name == DefaultName(|nodes|)
    ensures r[|nodes|].kind == Room && r[|nodes|].coordinates == Coordinates(x, y, floor)
  {
    nodes + [Node(id, DefaultName(|nodes|), Room, Coordinates(x, y, floor), [])]
  }

  /** Adding a node with a fresh id keeps the graph invariant. */
  lemma AddNodeKeepsWellFormed(nodes: seq<Node>, id: NodeId, floor: string, x: real, y: real)
    requires WellFormed(nodes)
    requires !HasNode(nodes, id)
    ensures WellFormed(AddNode(nodes, id, floor, x, y))
  {
    var r := AddNode(nodes, id, floor, x, y);
    var added := Node(id, DefaultName(|nodes|), Room, Coordinates(x, y, floor), []);
    assert r == nodes + [added];
    forall n | n in r ensures n in nodes || n == added { }
    forall n, c | n in r && c in n.connections ensures Linked(r, c.nodeId, n.nodeId) {
      assert n in nodes;
      var p :| p in nodes && p.nodeId == c.nodeId && ConnectsTo(p, n.nodeId);
      assert p in r;
    }
    forall j1, j2 | 0 <= j1 < j2 < |r| ensures r[j1].nodeId != r[j2].nodeId {
      if j2 < |nodes| {
        assert r[j1] == nodes[j1] && r[j2] == nodes[j2];
      } else {
        assert r[j1] == nodes[j1];
      }
    }
  }
}
