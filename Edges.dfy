/**
 * Enumeration of the connection lines drawn over the floor plan.  Each stored
 * connection is keyed by its two endpoint ids in sorted order, and a key is drawn at most
 * once, so a connection stored at both ends gives one line.
 */
module Edges {
  import opened Wrappers
  import opened Graph

  /** A canonical unordered pair of node ids, `lo` not after `hi`. */
  datatype Pair = Pair(lo: NodeId, hi: NodeId)

  /** A line from the coordinates of one node to those of another. */
  datatype Line = Line(key: Pair, x1: real, y1: real, x2: real, y2: real)

  /** The order the default `Array.prototype.sort` puts strings in: lexicographic by character. */
  predicate Before(a: string, b: string) {
    if |a| == 0 then |b| > 0
    else if |b| == 0 then false
    else if a[0] == b[0] then Before(a[1..], b[1..])
    else a[0] < b[0]
  }

  /**
   * The textbook definition of lexicographic order: `a` is a proper prefix of `b`, or at
   * the first position where they differ the character of `a` is the smaller.
   */
  ghost predicate Lexicographic(a: string, b: string) {
    (|a| < |b| && a == b[..|a|]) ||
    exists k :: 0 <= k < |a| && k < |b| && a[..k] == b[..k] && a[k] < b[k]
  }

  /** Two strings with the same first character are ordered as their tails are. */
  lemma LexicographicTail(a: string, b: string)
    requires |a| > 0 && |b| > 0 && a[0] == b[0]
    ensures Lexicographic(a, b) <==> Lexicographic(a[1..], b[1..])
  {
    var a', b' := a[1..], b[1..];
    if |a| < |b| {
      assert a == b[..|a|] <==> a' == b'[..|a'|] by {
        assert a == [a[0]] + a' && b[..|a|] == [b[0]] + b'[..|a'|];
      }
    }
    if exists k :: 0 <= k < |a| && k < |b| && a[..k] == b[..k] && a[k] < b[k] {
      var k :| 0 <= k < |a| && k < |b| && a[..k] == b[..k] && a[k] < b[k];
      assert k > 0;
      assert a'[..k - 1] == a[1..k] && b'[..k - 1] == b[1..k];
      assert a'[k - 1] < b'[k - 1];
    }
    if exists k :: 0 <= k < |a'| && k < |b'| && a'[..k] == b'[..k] && a'[k] < b'[k] {
      var k :| 0 <= k < |a'| && k < |b'| && a'[..k] == b'[..k] && a'[k] < b'[k];
      assert a[..k + 1] == [a[0]] + a'[..k] && b[..k + 1] == [b[0]] + b'[..k];
      assert a[k + 1] < b[k + 1];
    }
  }

  /** `Before` is the lexicographic order on character codes. */
  lemma {:induction false} BeforeIsLexicographic(a: string, b: string)
    ensures Before(a, b) <==> Lexicographic(a, b)
  {
    if |a| > 0 && |b| > 0 {
      if a[0] == b[0] {
        BeforeIsLexicographic(a[1..], b[1..]);
        LexicographicTail(a, b);
      } else {
        assert a[..0] == b[..0];
        forall k | 0 < k <= |a| && k <= |b| ensures a[..k] != b[..k] {
          assert a[..k][0] == a[0] && b[..k][0] == b[0];
        }
      }
    }
  }

  lemma {:induction false} BeforeIrreflexive(a: string)
    ensures !Before(a, a)
  {
    if |a| > 0 {
      BeforeIrreflexive(a[1..]);
    }
  }

  /** Of two distinct strings exactly one comes first. */
  lemma {:induction false} BeforeTotal(a: string, b: string)
    requires a != b
    ensures Before(a, b) != Before(b, a)
  {
    if |a| > 0 && |b| > 0 && a[0] == b[0] {
      assert a == [a[0]] + a[1..] && b == [b[0]] + b[1..];
      BeforeTotal(a[1..], b[1..]);
    }
  }

  lemma BeforeAsymmetric(a: string, b: string)
    requires Before(a, b)
    ensures !Before(b, a)
  {
    BeforeIrreflexive(a);
    BeforeTotal(a, b);
  }

  /** `[a, b].sort()`: the two ids in sorted order. */
  function SortKey(a: NodeId, b: NodeId): (r: Pair)
    ensures (r.lo == a && r.hi == b) || (r.lo == b && r.hi == a)
    ensures !Before(r.hi, r.lo)
  {
    if Before(b, a) then
      BeforeAsymmetric(b, a);
      Pair(b, a)
    else
      Pair(a, b)
  }

  /** The key does not depend on which endpoint stores the connection. */
  lemma SortKeyCommutes(a: NodeId, b: NodeId)
    ensures SortKey(a, b) == SortKey(b, a)
  {
    if a != b {
      BeforeTotal(a, b);
    }
  }

  /** The key of the `k`-th connection of the `i`-th node. */
  function KeyAt(nodes: seq<Node>, i: nat, k: nat): Pair
    requires i < |nodes| && k < |nodes[i].connections|
  {
    SortKey(nodes[i].nodeId, nodes[i].connections[k].nodeId)
  }

  /** The line drawn from node `n` to node `t`. */
  function LineBetween(n: Node, t: Node): (r: Line)
    ensures r.x1 == n.coordinates.x && r.y1 == n.coordinates.y
    ensures r.x2 == t.coordinates.x && r.y2 == t.coordinates.y
    ensures {r.key.lo, r.key.hi} == {n.nodeId, t.nodeId} && !Before(r.key.hi, r.key.lo)
  {
    Line(SortKey(n.nodeId, t.nodeId), n.coordinates.x, n.coordinates.y,
         t.coordinates.x, t.coordinates.y)
  }

  /**
   * `line` is the one drawn for the `k`-th connection of the `i`-th node: its target
   * exists, and the line runs from that node to the first node with the target id.
   */
  ghost predicate DrawnFor(nodes: seq<Node>, i: nat, k: nat, line: Line)
    requires i < |nodes| && k < |nodes[i].connections|
  {
    var t := Find(nodes, nodes[i].connections[k].nodeId);
    t.Some? && line == LineBetween(nodes[i], t.value)
  }

  /** `line` is drawn for some stored connection. */
  ghost predicate DrawnFromSome(nodes: seq<Node>, line: Line) {
    exists i: nat, k: nat :: i < |nodes| && k < |nodes[i].connections| && DrawnFor(nodes, i, k, line)
  }

  predicate HasKey(lines: seq<Line>, key: Pair) {
    exists m :: 0 <= m < |lines| && lines[m].key == key
  }

  /** The key of line `m`, or `d` when there is no such line. */
  function KeyOr(lines: seq<Line>, m: int, d: Pair): Pair {
    if 0 <= m < |lines| then lines[m].key else d
  }

  /** Every connection visited so far, up to connection `k` of node `i`, has its key recorded. */
  ghost predicate Visited(nodes: seq<Node>, i: nat, k: nat, rendered: set<Pair>) {
    forall i', k' ::
      (0 <= i' < |nodes| && 0 <= k' < |nodes[i'].connections| && (i' < i || (i' == i && k' < k)))
      ==> KeyAt(nodes, i', k') in rendered
  }

  /**
   * A recorded key that was not drawn names a missing node, and every line drawn is one
   * recorded key, drawn once, for a connection whose index pair `origin` holds.
   */
  ghost predicate Drawn(nodes: seq<Node>, rendered: set<Pair>, lines: seq<Line>, origin: seq<(nat, nat)>) {
    && (forall key :: key in rendered ==>
          HasKey(lines, key) || !HasNode(nodes, key.lo) || !HasNode(nodes, key.hi))
    && (forall m :: 0 <= m < |lines| ==> lines[m].key in rendered)
    && (forall m1, m2 :: 0 <= m1 < m2 < |lines| ==> lines[m1].key != lines[m2].key)
    && |origin| == |lines|
    && (forall m :: 0 <= m < |lines| ==>
          origin[m].0 < |nodes| && origin[m].1 < |nodes[origin[m].0].connections| &&
          DrawnFor(nodes, origin[m].0, origin[m].1, lines[m]))
  }

  /**
   * The body of `renderConnections`: visit every connection of every node in order,
   * skip a key already seen, record it, skip a connection whose target node is missing,
   * and draw the rest.
   */
  method EnumerateEdges(nodes: seq<Node>) returns (lines: seq<Line>)
    ensures forall m1, m2 :: 0 <= m1 < m2 < |lines| ==> lines[m1].key != lines[m2].key
    ensures forall m :: 0 <= m < |lines| ==> DrawnFromSome(nodes, lines[m])
    ensures forall i, k ::
              (0 <= i < |nodes| && 0 <= k < |nodes[i].connections| &&
               HasNode(nodes, nodes[i].connections[k].nodeId)) ==> HasKey(lines, KeyAt(nodes, i, k))
  {
    var rendered: set<Pair> := {};
    lines := [];
    ghost var origin: seq<(nat, nat)> := [];
    var i := 0;
    while i < |nodes|
      invariant 0 <= i <= |nodes|
      invariant Visited(nodes, i, 0, rendered)
      invariant Drawn(nodes, rendered, lines, origin)
    {
      rendered, lines, origin := DrawConnectionsOf(nodes, i, rendered, lines, origin);
      i := i + 1;
    }
    forall m | 0 <= m < |lines| ensures DrawnFromSome(nodes, lines[m]) {
      var i', k' := origin[m].0, origin[m].1;
      assert DrawnFor(nodes, i', k', lines[m]);
    }
    forall i', k' | 0 <= i' < |nodes| && 0 <= k' < |nodes[i'].connections| &&
                    HasNode(nodes, nodes[i'].connections[k'].nodeId)
      ensures HasKey(lines, KeyAt(nodes, i', k'))
    {
      var key := KeyAt(nodes, i', k');
      assert key in rendered;
      assert HasNode(nodes, nodes[i'].nodeId);
    }
  }

  /** The inner `forEach` of `renderConnections`, over the connections of node `i`. */
  method DrawConnectionsOf(nodes: seq<Node>, i: nat, rendered0: set<Pair>, lines0: seq<Line>,
                           ghost origin0: seq<(nat, nat)>)
    returns (rendered: set<Pair>, lines: seq<Line>, ghost origin: seq<(nat, nat)>)
    requires i < |nodes|
    requires Visited(nodes, i, 0, rendered0)
    requires Drawn(nodes, rendered0, lines0, origin0)
    ensures Visited(nodes, i + 1, 0, rendered)
    ensures Drawn(nodes, rendered, lines, origin)
  {
    rendered, lines, origin := rendered0, lines0, origin0;
    var node := nodes[i];
    var k := 0;
    while k < |node.connections|
      invariant 0 <= k <= |node.connections|
      invariant Visited(nodes, i, k, rendered)
      invariant Drawn(nodes, rendered, lines, origin)
    {
      var conn := node.connections[k];
      var key := SortKey(node.nodeId, conn.nodeId);
      ghost var before := rendered;
      if key !in rendered {
        var target := Find(nodes, conn.nodeId);
        if target.Some? {
          DrawLineKeepsDrawn(nodes, rendered, lines, origin, i, k);
          lines := lines + [LineBetween(node, target.value)];
          origin := origin + [(i, k)];
        } else {
          SkipMissingKeepsDrawn(nodes, rendered, lines, origin, key, conn.nodeId);
        }
        rendered := rendered + {key};
      }
      VisitedStep(nodes, i, k, before, rendered);
      k := k + 1;
    }
  }

  /** Recording one more key, at or above the one just visited, extends what is visited. */
  lemma VisitedStep(nodes: seq<Node>, i: nat, k: nat, rendered: set<Pair>, rendered': set<Pair>)
    requires i < |nodes| && k < |nodes[i].connections|
    requires Visited(nodes, i, k, rendered)
    requires rendered <= rendered' && KeyAt(nodes, i, k) in rendered'
    ensures Visited(nodes, i, k + 1, rendered')
  {
  }

  /** Recording the key of a connection whose target is missing keeps the invariant. */
  lemma SkipMissingKeepsDrawn(nodes: seq<Node>, rendered: set<Pair>, lines: seq<Line>,
                              origin: seq<(nat, nat)>, key: Pair, t: NodeId)
    requires Drawn(nodes, rendered, lines, origin)
    requires (key.lo == t || key.hi == t) && !HasNode(nodes, t)
    ensures Drawn(nodes, rendered + {key}, lines, origin)
  {
  }

  /** Drawing the line of a connection with a new key and an existing target keeps the invariant. */
  lemma DrawLineKeepsDrawn(nodes: seq<Node>, rendered: set<Pair>, lines: seq<Line>,
                           origin: seq<(nat, nat)>, i: nat, k: nat)
    requires i < |nodes| && k < |nodes[i].connections|
    requires Drawn(nodes, rendered, lines, origin)
    requires KeyAt(nodes, i, k) !in rendered
    requires Find(nodes, nodes[i].connections[k].nodeId).Some?
    ensures Drawn(nodes, rendered + {KeyAt(nodes, i, k)},
                  lines + [LineBetween(nodes[i], Find(nodes, nodes[i].connections[k].nodeId).value)],
                  origin + [(i, k)])
  {
    var key := KeyAt(nodes, i, k);
    var line := LineBetween(nodes[i], Find(nodes, nodes[i].connections[k].nodeId).value);
    var lines' := lines + [line];
    assert line.key == key;
    forall key' | HasKey(lines, key') ensures HasKey(lines', key') {
      var m :| 0 <= m < |lines| && lines[m].key == key';
      assert lines'[m] == lines[m];
    }
    assert lines'[|lines|] == line;
    assert DrawnFor(nodes, i, k, line);
  }

  /**
   * Two nodes that each store a connection to the other are drawn as exactly one line,
   * whichever of them is visited first.
   */
  method MutualConnectionDrawnOnce() returns (lines: seq<Line>)
    ensures |lines| == 1
    ensures lines[0].key == Pair("A", "B")
  {
    var a := Node("A", "Node 1", Room, Coordinates(10.0, 10.0, "F"), [Connection("B", 0.0)]);
    var b := Node("B", "Node 2", Room, Coordinates(40.0, 50.0, "F"), [Connection("A", 0.0)]);
    var nodes := [a, b];
    lines := EnumerateEdges(nodes);
    assert Before("A", "B");
    assert KeyAt(nodes, 0, 0) == Pair("A", "B") && KeyAt(nodes, 1, 0) == Pair("A", "B");
    assert HasNode(nodes, "B") by { assert nodes[1].nodeId == "B"; }
    assert HasKey(lines, Pair("A", "B"));
    forall m | 0 <= m < |lines| ensures lines[m].key == Pair("A", "B") {
      assert DrawnFromSome(nodes, lines[m]);
      var i: nat, k: nat :| i < |nodes| && k < |nodes[i].connections| && DrawnFor(nodes, i, k, lines[m]);
      assert lines[m].key == KeyAt(nodes, i, k);
    }
    assert |lines| >= 1;
    ghost var first, second := KeyOr(lines, 0, Pair("A", "B")), KeyOr(lines, 1, Pair("A", "B"));
    assert second == Pair("A", "B");
    assert |lines| >= 2 ==> first != second;
  }
}
