/** Taking the children from nodes, one after the other, each while it still lies on a loop. */
module Sweeping {
  import opened Graphs
  import opened TarjanScc
  import opened LoopFinding

  /** The nodes after those in the list have lost their children. */
  function Sweep(nodes: seq<SubstNode>, order: seq<nat>): (r: seq<SubstNode>)
    ensures |r| == |nodes|
    ensures forall n: nat | n < |nodes| :: r[n] == if n in order then nodes[n].(children := Swiped) else nodes[n]
  {
    seq(|nodes|, n requires 0 <= n < |nodes| => if n in order then nodes[n].(children := Swiped) else nodes[n])
  }

  /** Each node of the list lies on a loop that is left when those before it have lost their children. */
  ghost predicate InOrder(nodes: seq<SubstNode>, order: seq<nat>) {
    order == [] || (
      var before, n := order[..|order| - 1], order[|order| - 1];
      InOrder(nodes, before) && n < |nodes| && OnLoop(GraphOf(Sweep(nodes, before)), n))
  }

  lemma InOrderMore(nodes: seq<SubstNode>, order: seq<nat>, n: nat)
    requires InOrder(nodes, order) && n < |nodes| && OnLoop(GraphOf(Sweep(nodes, order)), n)
    ensures InOrder(nodes, order + [n])
  {
    hide OnLoop;
    assert (order + [n])[..|order|] == order;
  }

  predicate AreNodes(nodes: seq<SubstNode>, order: seq<nat>) {
    forall i | 0 <= i < |order| :: order[i] < |nodes|
  }

  lemma {:induction false} InOrderNodes(nodes: seq<SubstNode>, order: seq<nat>)
    requires InOrder(nodes, order)
    ensures AreNodes(nodes, order)
  {
    if order != [] {
      InOrderNodes(nodes, order[..|order| - 1]);
      assert order == order[..|order| - 1] + [order[|order| - 1]];
    }
  }

  lemma PathRest(G: Graph, p: seq<nat>, x: nat, y: nat, i: nat)
    requires IsPath(G, p, x, y) && i < |p|
    ensures Reach(G, p[i], y)
  {
    var q := p[i..];
    forall j | 0 <= j < |q| - 1 ensures q[j + 1] in G[q[j]] {
      assert p[(i + j) + 1] in G[p[i + j]];
    }
    assert IsPath(G, q, p[i], y);
  }

  /** A component stays connected as long as its own nodes keep their edges. */
  lemma ReachInside(G: Graph, G': Graph, K: set<nat>, x: nat, y: nat)
    requires IsScc(G, K) && x in K && y in K && |G'| == |G|
    requires forall n: nat, c: nat | n in K && n < |G| && c in G[n] :: c in G'[n]
    ensures Reach(G', x, y)
  {
    assert Reach(G, x, y) && Reach(G, y, x);
    var p :| IsPath(G, p, x, y);
    ReachInGraph(G, x, y);
    ReachRefl(G', x);
    hide Reach;
    var i := 0;
    while i < |p| - 1
      invariant 0 <= i < |p| && p[i] in K && Reach(G', x, p[i])
    {
      assert p[i + 1] in G[p[i]] && Reach(G, x, p[i]);
      ReachEdge(G, p[i], p[i + 1]);
      ReachTrans(G, x, p[i], p[i + 1]);
      PathRest(G, p, x, y, i + 1);
      ReachTrans(G, p[i + 1], y, x);
      ReachEdge(G', p[i], p[i + 1]);
      ReachTrans(G', x, p[i], p[i + 1]);
      i := i + 1;
    }
  }

  ghost predicate NoneEmpty(loops: seq<seq<nat>>) {
    forall i | 0 <= i < |loops| :: loops[i] != []
  }

  /** The last nodes of the loops. */
  ghost function Lasts(loops: seq<seq<nat>>): (r: seq<nat>)
    requires NoneEmpty(loops)
    ensures |r| == |loops| && forall i | 0 <= i < |r| :: r[i] == loops[i][|loops[i]| - 1]
  {
    seq(|loops|, i requires 0 <= i < |loops| => loops[i][|loops[i]| - 1])
  }

  /** The loops found together are disjoint: each is still there when the others are broken. */
  lemma {:induction false} LastsInOrder(nodes0: seq<SubstNode>, order: seq<nat>, starts: seq<nat>, loops: seq<seq<nat>>, k: nat)
    requires InOrder(nodes0, order) && LoopsExact(GraphOf(Sweep(nodes0, order)), starts, loops) && k <= |loops|
    requires NoneEmpty(loops)
    ensures InOrder(nodes0, order + Lasts(loops)[..k])
    decreases k
  {
    hide InOrder, LoopsExact, GraphOf, Sweep, OnLoop;
    if k == 0 {
      assert order + Lasts(loops)[..0] == order;
    } else {
      LastsInOrder(nodes0, order, starts, loops, k - 1);
      var before := order + Lasts(loops)[..k - 1];
      var loop := loops[k - 1];
      var n := loop[|loop| - 1];
      LoopSurvives(nodes0, order, starts, loops, k - 1, before);
      InOrderMore(nodes0, before, n);
      assert Lasts(loops)[..k] == Lasts(loops)[..k - 1] + [n];
      assert order + Lasts(loops)[..k] == before + [n];
    }
  }

  lemma LoopSurvives(nodes0: seq<SubstNode>, order: seq<nat>, starts: seq<nat>, loops: seq<seq<nat>>, k: nat, before: seq<nat>)
    requires LoopsExact(GraphOf(Sweep(nodes0, order)), starts, loops) && k < |loops| && NoneEmpty(loops)
    requires before == order + Lasts(loops)[..k]
    ensures var n := loops[k][|loops[k]| - 1]; n < |nodes0| && OnLoop(GraphOf(Sweep(nodes0, before)), n)
  {
    hide Reach, ReachFrom, OnALoop;
    var G, G' := GraphOf(Sweep(nodes0, order)), GraphOf(Sweep(nodes0, before));
    var loop, K := loops[k], Members(loops[k]);
    var n, v := loop[|loop| - 1], loop[0];
    assert IsLoopList(G, loop) && IsScc(G, K);
    forall m | m in K && m < |G| ensures G'[m] == G[m] {
      forall i | 0 <= i < k ensures Lasts(loops)[i] != m {
        assert Members(loops[i]) !! Members(loops[k]);
        assert Lasts(loops)[i] in Members(loops[i]);
      }
      assert m in before <==> m in order;
    }
    assert n in K && v in K && v != n;
    ReachInside(G, G', K, n, v);
    ReachInside(G, G', K, v, n);
  }
}
