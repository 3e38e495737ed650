/** Finite directed graphs as adjacency lists, reachability and strong connectivity. */
module Graphs {

  type Graph = seq<seq<nat>>

  predicate Wf(G: Graph) {
    forall n, j | 0 <= n < |G| && 0 <= j < |G[n]| :: G[n][j] < |G|
  }

  ghost predicate IsPath(G: Graph, p: seq<nat>, x: nat, y: nat) {
    && p != [] && p[0] == x && p[|p| - 1] == y
    && (forall i | 0 <= i < |p| :: p[i] < |G|)
    && (forall i | 0 <= i < |p| - 1 :: p[i + 1] in G[p[i]])
  }

  ghost predicate Reach(G: Graph, x: nat, y: nat) {
    exists p :: IsPath(G, p, x, y)
  }

  lemma ReachRefl(G: Graph, x: nat)
    requires x < |G|
    ensures Reach(G, x, x)
  {
    assert IsPath(G, [x], x, x);
  }

  lemma ReachEdge(G: Graph, x: nat, y: nat)
    requires x < |G| && y < |G| && y in G[x]
    ensures Reach(G, x, y)
  {
    assert IsPath(G, [x, y], x, y);
  }

  lemma ReachTrans(G: Graph, x: nat, y: nat, z: nat)
    requires Reach(G, x, y) && Reach(G, y, z)
    ensures Reach(G, x, z)
  {
    var p :| IsPath(G, p, x, y);
    var q :| IsPath(G, q, y, z);
    var r := p + q[1..];
    forall i | 0 <= i < |r| - 1 ensures r[i + 1] in G[r[i]] {
      if i >= |p| - 1 {
        assert r[i] == q[i - (|p| - 1)] && r[i + 1] == q[i - (|p| - 1) + 1];
      }
    }
    assert r[|r| - 1] == z by {
      if |q| == 1 {
        assert r == p;
      }
    }
    assert IsPath(G, r, x, z);
  }

  lemma ReachInGraph(G: Graph, x: nat, y: nat)
    requires Reach(G, x, y)
    ensures x < |G| && y < |G|
  {
    var p :| IsPath(G, p, x, y);
    assert p[0] == x && p[|p| - 1] == y;
  }

  ghost predicate Closed(G: Graph, K: set<nat>) {
    forall x | x in K :: x < |G| && forall j | 0 <= j < |G[x]| :: G[x][j] in K
  }

  /** Nothing leaves a set that is closed under edges. */
  lemma ReachStaysInside(G: Graph, K: set<nat>, x: nat, y: nat)
    requires Closed(G, K) && x in K && Reach(G, x, y)
    ensures y in K
  {
    var p :| IsPath(G, p, x, y);
    var i := 0;
    while i < |p| - 1
      invariant 0 <= i < |p| && p[i] in K
    {
      assert p[i + 1] in G[p[i]];
      i := i + 1;
    }
  }

  /** Reaching another node takes at least one edge. */
  lemma ReachFirstStep(G: Graph, x: nat, y: nat) returns (z: nat)
    requires Reach(G, x, y) && x != y
    ensures x < |G| && z in G[x] && Reach(G, z, y)
  {
    var p :| IsPath(G, p, x, y);
    z := p[1];
    assert p[0 + 1] in G[p[0]];
    var q := p[1..];
    forall i | 0 <= i < |q| - 1 ensures q[i + 1] in G[q[i]] {
      assert p[(i + 1) + 1] in G[p[i + 1]];
    }
    assert IsPath(G, q, z, y);
  }

  /** A strongly connected component: everything mutually reachable from any of its members. */
  ghost predicate IsScc(G: Graph, K: set<nat>) {
    K != {} && forall x, y | x in K :: y in K <==> Reach(G, x, y) && Reach(G, y, x)
  }

  ghost predicate ReachFrom(G: Graph, starts: seq<nat>, y: nat) {
    exists i | 0 <= i < |starts| :: Reach(G, starts[i], y)
  }

  /** No cycle at all, not even of length one. */
  ghost predicate Acyclic(G: Graph) {
    forall x, j | 0 <= x < |G| && 0 <= j < |G[x]| :: !Reach(G, G[x][j], x)
  }

  /** Another node is reached that reaches k. */
  ghost predicate OnLoop(G: Graph, k: nat) {
    exists v: nat :: v != k && Reach(G, k, v) && Reach(G, v, k)
  }

  lemma {:induction false} SubsetSize(a: set<nat>, b: set<nat>)
    requires a <= b
    ensures |a| <= |b|
    decreases b
  {
    if b != {} {
      var x :| x in b;
      SubsetSize(a - {x}, b - {x});
      assert x in a ==> |a| == |a - {x}| + 1;
      assert x !in a ==> a - {x} == a;
    }
  }
}
