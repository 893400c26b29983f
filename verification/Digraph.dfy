/**
 Finite directed graphs: paths, reachability, acyclicity and topological orders.
 The dependency model states its guarantees in these terms.
 */
module Digraph {
  import opened Collections

  type Node = nat
  type Edges = set<(Node, Node)>

  ghost predicate IsPath(g: Edges, p: seq<Node>) {
    |p| > 0 && forall i :: 0 <= i < |p| - 1 ==> (p[i], p[i + 1]) in g
  }

  ghost predicate Connects(g: Edges, p: seq<Node>, a: Node, b: Node) {
    IsPath(g, p) && p[0] == a && p[|p| - 1] == b
  }

  /** b can be reached from a along zero or more edges. */
  ghost predicate Reaches(g: Edges, a: Node, b: Node) {
    exists p :: Connects(g, p, a, b)
  }

  /** No path with at least one edge returns to its first node. */
  ghost predicate Acyclic(g: Edges) {
    forall p :: IsPath(g, p) && |p| >= 2 ==> p[0] != p[|p| - 1]
  }

  ghost predicate Closed(g: Edges, s: set<Node>) {
    forall e :: e in g && e.0 in s ==> e.1 in s
  }

  lemma ReachesSelf(g: Edges, a: Node)
    ensures Reaches(g, a, a)
  {
    assert Connects(g, [a], a, a);
  }

  lemma ReachesViaEdge(g: Edges, a: Node, b: Node, c: Node)
    requires (a, b) in g && Reaches(g, b, c)
    ensures Reaches(g, a, c)
  {
    var p :| Connects(g, p, b, c);
    assert Connects(g, [a] + p, a, c);
  }

  lemma ReachesTransitive(g: Edges, a: Node, b: Node, c: Node)
    requires Reaches(g, a, b) && Reaches(g, b, c)
    ensures Reaches(g, a, c)
  {
    var p :| Connects(g, p, a, b);
    var q :| Connects(g, q, b, c);
    var r := p + q[1..];
    forall i | 0 <= i < |r| - 1 ensures (r[i], r[i + 1]) in g {
      if i >= |p| - 1 {
        assert r[i] == q[i - (|p| - 1)] && r[i + 1] == q[i + 1 - (|p| - 1)];
      }
    }
    assert Connects(g, r, a, c);
  }

  /** Splits a path with an edge at its first edge. */
  lemma FirstStep(g: Edges, p: seq<Node>)
    requires IsPath(g, p) && |p| >= 2
    ensures (p[0], p[1]) in g
    ensures IsPath(g, p[1..]) && Reaches(g, p[1], p[|p| - 1])
  {
    var q := p[1..];
    forall i | 0 <= i < |q| - 1 ensures (q[i], q[i + 1]) in g {
      assert q[i] == p[i + 1] && q[i + 1] == p[i + 1 + 1];
    }
    assert Connects(g, q, p[1], p[|p| - 1]);
  }

  /** Whatever a closed set reaches lies inside it. */
  lemma {:induction false} ClosedUnderReach(g: Edges, s: set<Node>, p: seq<Node>)
    requires Closed(g, s) && IsPath(g, p) && p[0] in s
    ensures p[|p| - 1] in s
    decreases |p|
  {
    if |p| >= 2 {
      FirstStep(g, p);
      assert (p[0], p[1]) in g;
      ClosedUnderReach(g, s, p[1..]);
    }
  }

  lemma ReachStaysInClosed(g: Edges, s: set<Node>, a: Node, b: Node)
    requires Closed(g, s) && a in s && Reaches(g, a, b)
    ensures b in s
  {
    var p :| Connects(g, p, a, b);
    ClosedUnderReach(g, s, p);
  }

  /** Acyclicity edge by edge: no edge can be walked back. */
  lemma AcyclicByEdges(g: Edges)
    ensures Acyclic(g) <==> forall a, b :: (a, b) in g ==> !Reaches(g, b, a)
  {
    if Acyclic(g) {
      forall a, b | (a, b) in g ensures !Reaches(g, b, a) {
        if Reaches(g, b, a) {
          var p :| Connects(g, p, b, a);
          assert IsPath(g, [a] + p);
        }
      }
    }
    if !Acyclic(g) {
      var p :| IsPath(g, p) && |p| >= 2 && p[0] == p[|p| - 1];
      FirstStep(g, p);
      assert (p[0], p[1]) in g && Reaches(g, p[1], p[0]);
    }
  }

  lemma AcyclicSubgraph(g: Edges, h: Edges)
    requires Acyclic(g) && h <= g
    ensures Acyclic(h)
  {
    forall p | IsPath(h, p) && |p| >= 2 ensures p[0] != p[|p| - 1] {
      assert IsPath(g, p);
    }
  }

  /** A path of the graph plus one edge either avoids that edge or passes through it. */
  lemma {:induction false} AvoidsOrUses(g: Edges, a: Node, b: Node, p: seq<Node>)
    requires IsPath(g + {(a, b)}, p)
    ensures Reaches(g, p[0], p[|p| - 1]) || (Reaches(g, p[0], a) && Reaches(g, b, p[|p| - 1]))
    decreases |p|
  {
    if |p| == 1 {
      ReachesSelf(g, p[0]);
    } else {
      FirstStep(g + {(a, b)}, p);
      AvoidsOrUses(g, a, b, p[1..]);
      if (p[0], p[1]) in g {
        if Reaches(g, p[1], p[|p| - 1]) {
          ReachesViaEdge(g, p[0], p[1], p[|p| - 1]);
        } else {
          ReachesViaEdge(g, p[0], p[1], a);
        }
      } else {
        ReachesSelf(g, a);
      }
    }
  }

  /** Adding an edge keeps an acyclic graph acyclic exactly when its head cannot reach its tail. */
  lemma AddEdgeAcyclic(g: Edges, a: Node, b: Node)
    requires Acyclic(g)
    ensures Acyclic(g + {(a, b)}) <==> !Reaches(g, b, a)
  {
    var h := g + {(a, b)};
    AcyclicByEdges(g);
    AcyclicByEdges(h);
    if Reaches(g, b, a) {
      var p :| Connects(g, p, b, a);
      assert Connects(h, p, b, a);
      assert (a, b) in h;
    } else {
      forall x, y | (x, y) in h ensures !Reaches(h, y, x) {
        if Reaches(h, y, x) {
          var p :| Connects(h, p, y, x);
          AvoidsOrUses(g, a, b, p);
          if (x, y) in g {
            // then y reaches a and b reaches x without the new edge
            ReachesViaEdge(g, x, y, a);
            ReachesTransitive(g, b, x, a);
          }
        }
      }
    }
  }

  /**
   Two edges that are each safe on their own are safe together exactly when no cycle leads through both:
   the head of one reaches the tail of the other and back.
   */
  lemma AddTwoEdgesAcyclic(g: Edges, a: Node, b: Node, c: Node, d: Node)
    requires Acyclic(g) && !Reaches(g, b, a) && !Reaches(g, d, c)
    ensures Acyclic(g + {(a, b)} + {(c, d)}) <==> !(Reaches(g, b, c) && Reaches(g, d, a))
  {
    var h := g + {(a, b)};
    AddEdgeAcyclic(g, a, b);
    AddEdgeAcyclic(h, c, d);
    if Reaches(h, d, c) {
      var p :| Connects(h, p, d, c);
      AvoidsOrUses(g, a, b, p);
    }
    if Reaches(g, b, c) && Reaches(g, d, a) {
      var p :| Connects(g, p, d, a);
      var q :| Connects(g, q, b, c);
      assert Connects(h, p, d, a) && Connects(h, q, b, c);
      ReachesViaEdge(h, a, b, c);
      ReachesTransitive(h, d, a, c);
    }
  }

  // ----- topological orders

  /** Every node once, and every edge from an earlier to a later place. */
  ghost predicate Topological(g: Edges, nodes: set<Node>, order: seq<Node>) {
    && (forall n :: n in nodes <==> n in order)
    && Distinct(order)
    && (forall i, j :: 0 <= i < |order| && 0 <= j < |order| && (order[i], order[j]) in g ==> i < j)
  }

  ghost predicate Within(g: Edges, nodes: set<Node>) {
    forall e :: e in g ==> e.0 in nodes && e.1 in nodes
  }

  /** The nodes that reach n; along an edge of an acyclic graph this set grows strictly. */
  ghost function Ancestors(g: Edges, nodes: set<Node>, n: Node): set<Node> {
    set m | m in nodes && Reaches(g, m, n)
  }

  lemma AncestorsGrow(g: Edges, nodes: set<Node>, a: Node, b: Node)
    requires Acyclic(g) && Within(g, nodes) && (a, b) in g
    ensures Ancestors(g, nodes, a) < Ancestors(g, nodes, b)
  {
    ReachesSelf(g, b);
    ReachesViaEdge(g, a, b, b);
    forall m | m in Ancestors(g, nodes, a) ensures m in Ancestors(g, nodes, b) {
      ReachesTransitive(g, m, a, b);
    }
    AcyclicByEdges(g);
    assert b in Ancestors(g, nodes, b) && b !in Ancestors(g, nodes, a);
  }

  lemma SmallerSet(s: set<Node>, t: set<Node>)
    requires s < t
    ensures |s| < |t|
  {
    assert !(t <= s);
    var x :| x in t && x !in s;
    SubsetSize(s, t - {x});
  }

  /** Some node of a nonempty set has the most ancestors. */
  lemma {:induction false} Deepest(g: Edges, nodes: set<Node>, s: set<Node>) returns (d: Node)
    requires s != {}
    ensures d in s
    ensures forall n :: n in s ==> |Ancestors(g, nodes, n)| <= |Ancestors(g, nodes, d)|
    decreases |s|
  {
    d :| d in s;
    if s != {d} {
      var e := Deepest(g, nodes, s - {d});
      if |Ancestors(g, nodes, d)| < |Ancestors(g, nodes, e)| {
        d := e;
      }
    }
  }

  lemma {:induction false} OrderByDepth(g: Edges, nodes: set<Node>, s: set<Node>) returns (order: seq<Node>)
    requires Acyclic(g) && Within(g, nodes) && s <= nodes
    ensures Topological(g, s, order)
    decreases |s|
  {
    if s == {} {
      order := [];
    } else {
      var d := Deepest(g, nodes, s);
      var rest := OrderByDepth(g, nodes, s - {d});
      order := rest + [d];
      forall i, j | 0 <= i < |order| && 0 <= j < |order| && (order[i], order[j]) in g ensures i < j {
        AncestorsGrow(g, nodes, order[i], order[j]);
        SmallerSet(Ancestors(g, nodes, order[i]), Ancestors(g, nodes, order[j]));
        assert order[j] in order;
      }
    }
  }

  lemma {:induction false} PathClimbs(g: Edges, nodes: set<Node>, order: seq<Node>, p: seq<Node>, i: nat, j: nat)
    requires Topological(g, nodes, order) && Within(g, nodes) && IsPath(g, p) && |p| >= 2
    requires i < |order| && j < |order| && order[i] == p[0] && order[j] == p[|p| - 1]
    ensures i < j
    decreases |p|
  {
    FirstStep(g, p);
    if |p| > 2 {
      assert (p[0], p[1]) in g;
      assert p[1] in order;
      var k :| 0 <= k < |order| && order[k] == p[1];
      PathClimbs(g, nodes, order, p[1..], k, j);
    }
  }

  /** A finite graph is acyclic exactly when its nodes can be put in topological order. */
  lemma AcyclicIffOrdered(g: Edges, nodes: set<Node>)
    requires Within(g, nodes)
    ensures Acyclic(g) <==> exists order :: Topological(g, nodes, order)
  {
    if Acyclic(g) {
      var order := OrderByDepth(g, nodes, nodes);
    }
    if exists order :: Topological(g, nodes, order) {
      var order :| Topological(g, nodes, order);
      forall p | IsPath(g, p) && |p| >= 2 ensures p[0] != p[|p| - 1] {
        FirstStep(g, p);
        assert (p[0], p[1]) in g;
        assert p[0] in order;
        var i :| 0 <= i < |order| && order[i] == p[0];
        if p[0] == p[|p| - 1] {
          PathClimbs(g, nodes, order, p, i, i);
        }
      }
    }
  }
}
