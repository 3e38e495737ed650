/** The substitution graph and how its loops are broken. */
module SubstLoops {
  import opened Terms
  import opened LogicStore
  import opened Vectors
  import opened Graphs
  import opened TarjanScc
  import opened LoopFinding
  import opened Sweeping

  type Substs = map<PTRef, PtAsgn>    // key, target and whether the entry is enabled

  predicate SubstsOk(T: seq<Pterm>, S: Substs) {
    forall k | k in S :: k < |T| && IsVarSym(T[k].symb) && S[k].tr < |T|
  }

  function TargetOf(S: Substs, k: PTRef): OptRef {
    if k in S && S[k].sgn then SomeRef(S[k].tr) else NoRef
  }

  /** An enabled entry replaces k by a term in which v occurs. */
  ghost predicate DependsOn(T: seq<Pterm>, S: Substs, k: PTRef, v: PTRef)
    requires WfTerms(T) && SubstsOk(T, S)
  {
    k in S && S[k].sgn && Occurs(T, S[k].tr, v)
  }

  ghost function DependsList(T: seq<Pterm>, S: Substs, k: PTRef, n: nat): (r: seq<nat>)
    requires WfTerms(T) && SubstsOk(T, S)
    ensures forall v: nat :: v in r <==> v < n && DependsOn(T, S, k, v)
  {
    if n == 0 then []
    else DependsList(T, S, k, n - 1) + if DependsOn(T, S, k, n - 1) then [n - 1] else []
  }

  /** The dependency graph of a substitution map over all terms of the store. */
  ghost function DependsGraph(T: seq<Pterm>, S: Substs): (G: Graph)
    requires WfTerms(T) && SubstsOk(T, S)
    ensures |G| == |T| && forall k: nat, v: nat | k < |T| :: v in G[k] <==> v < |T| && DependsOn(T, S, k, v)
  {
    seq(|T|, k requires 0 <= k < |T| => DependsList(T, S, k, |T|))
  }

  ghost predicate AcyclicSubsts(T: seq<Pterm>, S: Substs)
    requires WfTerms(T) && SubstsOk(T, S)
  {
    Acyclic(DependsGraph(T, S))
  }

  // ----- the substitution graph -----

  function SlotTerm(nodes: seq<SubstNode>, s: Slot): PTRef {
    if s.TermSlot? then s.t else if s.n < |nodes| then nodes[s.n].tr else 0
  }

  function Slots(n: SubstNode): (r: seq<Slot>)
    ensures |r| == NChildren(n)
  {
    if n.children.Swiped? then [] else n.children.list.vars
  }

  /** The terms that the children of a node stand for, whether or not they are nodes already. */
  function ChildTerms(nodes: seq<SubstNode>, n: SubstNode): (r: seq<PTRef>)
    ensures |r| == NChildren(n) && forall j | 0 <= j < |r| :: r[j] == SlotTerm(nodes, Slots(n)[j])
  {
    seq(NChildren(n), j requires 0 <= j < NChildren(n) => SlotTerm(nodes, Slots(n)[j]))
  }

  ghost predicate Indexed(nodes: seq<SubstNode>, source: map<PTRef, nat>) {
    && (forall n: nat | n < |nodes| :: nodes[n].tr in source && source[nodes[n].tr] == n)
    && (forall t | t in source :: source[t] < |nodes| && nodes[source[t]].tr == t)
  }

  /** The node stands for its term with the variables of its target, as far as it is processed. */
  ghost predicate NodeOk(T: seq<Pterm>, S: Substs, nodes: seq<SubstNode>, n: nat)
    requires WfTerms(T) && SubstsOk(T, S) && n < |nodes|
  {
    && nodes[n].children.ChildList? && nodes[n].mark == CLEAR && nodes[n].tr < |T|
    && (forall j | 0 <= j < NChildren(nodes[n]) && Slots(nodes[n])[j].NodeSlot? :: Slots(nodes[n])[j].n < |nodes|)
    && (forall v: PTRef :: v in ChildTerms(nodes, nodes[n]) <==> DependsOn(T, S, nodes[n].tr, v))
  }

  /** Nodes whose term was seen are processed, except the current one; the others are untouched. */
  ghost predicate SeenOk(nodes: seq<SubstNode>, seen: set<PTRef>, current: OptNode) {
    forall n: nat | n < |nodes| && current != SomeNode(n) ::
      if nodes[n].tr in seen then IsProcessed(nodes[n])
      else forall j | 0 <= j < NChildren(nodes[n]) :: Slots(nodes[n])[j].TermSlot?
  }

  ghost predicate Building(T: seq<Pterm>, S: Substs, nodes: seq<SubstNode>, source: map<PTRef, nat>, seen: set<PTRef>, current: OptNode)
    requires WfTerms(T) && SubstsOk(T, S)
  {
    && Indexed(nodes, source) && SeenOk(nodes, seen, current)
    && (forall n: nat | n < |nodes| :: NodeOk(T, S, nodes, n))
  }

  /** The finished graph: edges are exactly the dependencies. */
  ghost predicate Represents(T: seq<Pterm>, S: Substs, nodes: seq<SubstNode>, source: map<PTRef, nat>)
    requires WfTerms(T) && SubstsOk(T, S)
  {
    && Indexed(nodes, source) && AllProcessed(nodes) && Wf(GraphOf(nodes))
    && (forall n: nat | n < |nodes| :: nodes[n].tr < |T|)
    && (forall n: nat, v: nat | n < |nodes| && DependsOn(T, S, nodes[n].tr, v) :: v in source)
    && (forall n: nat, m: nat | n < |nodes| && m < |nodes| ::
          m in GraphOf(nodes)[n] <==> DependsOn(T, S, nodes[n].tr, nodes[m].tr))
    && (forall k | k in S && S[k].sgn :: k in source)
  }

  // ----- steps of the construction -----

  /** Nodes keep their terms and their children keep what they stand for. */
  ghost predicate KeepsTerms(nodes: seq<SubstNode>, nodes': seq<SubstNode>) {
    |nodes| <= |nodes'| && forall n: nat | n < |nodes| ::
      && nodes'[n].tr == nodes[n].tr && nodes'[n].mark == nodes[n].mark
      && nodes'[n].children.ChildList? == nodes[n].children.ChildList?
      && ChildTerms(nodes', nodes'[n]) == ChildTerms(nodes, nodes[n])
      && (forall j | 0 <= j < NChildren(nodes'[n]) && Slots(nodes'[n])[j].NodeSlot? ::
            Slots(nodes'[n])[j].n < |nodes'|)
  }

  lemma NodeOkKept(T: seq<Pterm>, S: Substs, nodes: seq<SubstNode>, nodes': seq<SubstNode>)
    requires WfTerms(T) && SubstsOk(T, S) && KeepsTerms(nodes, nodes')
    requires forall n: nat | n < |nodes| :: NodeOk(T, S, nodes, n)
    ensures forall n: nat | n < |nodes| :: NodeOk(T, S, nodes', n)
  {
    hide DependsOn, ChildTerms;
    forall n: nat | n < |nodes| ensures NodeOk(T, S, nodes', n) {
      assert NodeOk(T, S, nodes, n);
      assert nodes'[n].tr == nodes[n].tr;
    }
  }

  /** A node for a new term. */
  lemma AllocStep(T: seq<Pterm>, S: Substs, nodes: seq<SubstNode>, source: map<PTRef, nat>, seen: set<PTRef>, current: OptNode,
                  tr: PTRef, nodes': seq<SubstNode>)
    requires WfTerms(T) && SubstsOk(T, S) && Building(T, S, nodes, source, seen, current) && seen <= source.Keys
    requires tr !in source && tr < |T| && |nodes'| == |nodes| + 1 && nodes'[..|nodes|] == nodes
    requires nodes'[|nodes|].tr == tr && nodes'[|nodes|].mark == CLEAR && nodes'[|nodes|].children.ChildList?
    requires ListsVars(T, TargetOf(S, tr), nodes'[|nodes|].children.list.vars)
    requires current.SomeNode? ==> current.n < |nodes|
    ensures Building(T, S, nodes', source[tr := |nodes|], seen, current)
    ensures KeepsTerms(nodes, nodes')
  {
    hide Occurs, IsProcessed;
    assert forall n: nat | n < |nodes| :: nodes'[n] == nodes[n];
    forall n: nat | n < |nodes|
      ensures ChildTerms(nodes', nodes[n]) == ChildTerms(nodes, nodes[n])
      ensures forall j | 0 <= j < NChildren(nodes[n]) && Slots(nodes[n])[j].NodeSlot? :: Slots(nodes[n])[j].n < |nodes|
    {
      assert NodeOk(T, S, nodes, n);
    }
    assert KeepsTerms(nodes, nodes');
    NodeOkKept(T, S, nodes, nodes');
    var m, d := |nodes|, nodes'[|nodes|];
    forall v: PTRef ensures v in ChildTerms(nodes', d) <==> DependsOn(T, S, tr, v) {
      if v in ChildTerms(nodes', d) {
        var j :| 0 <= j < NChildren(d) && ChildTerms(nodes', d)[j] == v;
        assert d.children.list.vars[j] == TermSlot(v);
      }
      if DependsOn(T, S, tr, v) {
        var j :| 0 <= j < |d.children.list.vars| && d.children.list.vars[j] == TermSlot(v);
        assert ChildTerms(nodes', d)[j] == v;
      }
    }
    assert NodeOk(T, S, nodes', m);
  }

  /** A child that is a term becomes the node of that term, and node lists may change their state. */
  ghost predicate SlotSet(nodes: seq<SubstNode>, n: nat, j: nat, c: nat, nodes': seq<SubstNode>) {
    && n < |nodes| && c < |nodes| && nodes[n].children.ChildList? && j < NChildren(nodes[n])
    && Slots(nodes[n])[j] == TermSlot(nodes[c].tr)
    && nodes' == nodes[n := nodes[n].(children := ChildList(nodes[n].children.list.(vars := Slots(nodes[n])[j := NodeSlot(c)])))]
  }

  lemma SlotStep(T: seq<Pterm>, S: Substs, nodes: seq<SubstNode>, source: map<PTRef, nat>, seen: set<PTRef>, n: nat, j: nat, c: nat,
                 nodes': seq<SubstNode>)
    requires WfTerms(T) && SubstsOk(T, S) && Building(T, S, nodes, source, seen, SomeNode(n)) && SlotSet(nodes, n, j, c, nodes')
    ensures Building(T, S, nodes', source, seen, SomeNode(n)) && KeepsTerms(nodes, nodes')
  {
    hide DependsOn, IsProcessed, WfTerms, SubstsOk;
    assert forall i | 0 <= i < NChildren(nodes[n]) && i != j :: Slots(nodes'[n])[i] == Slots(nodes[n])[i];
    assert forall s: Slot :: SlotTerm(nodes', s) == SlotTerm(nodes, s);
    forall x: nat | x < |nodes|
      ensures ChildTerms(nodes', nodes'[x]) == ChildTerms(nodes, nodes[x])
      ensures forall i | 0 <= i < NChildren(nodes'[x]) && Slots(nodes'[x])[i].NodeSlot? :: Slots(nodes'[x])[i].n < |nodes|
    {
      assert NodeOk(T, S, nodes, x);
      if x != n {
        assert nodes'[x] == nodes[x];
      }
    }
    assert KeepsTerms(nodes, nodes');
    NodeOkKept(T, S, nodes, nodes');
  }

  /** The parent of a node, or the state of its list, is set. */
  lemma FieldStep(T: seq<Pterm>, S: Substs, nodes: seq<SubstNode>, source: map<PTRef, nat>, seen: set<PTRef>, current: OptNode, n: nat, d: SubstNode)
    requires WfTerms(T) && SubstsOk(T, S) && Building(T, S, nodes, source, seen, current) && n < |nodes|
    requires d.tr == nodes[n].tr && d.mark == nodes[n].mark && d.children.ChildList? && nodes[n].children.ChildList?
    requires d.children.list.vars == nodes[n].children.list.vars
    requires current == SomeNode(n) || d.children == nodes[n].children
    ensures Building(T, S, nodes[n := d], source, seen, current) && KeepsTerms(nodes, nodes[n := d])
  {
    hide DependsOn;
    var nodes' := nodes[n := d];
    assert forall s: Slot :: SlotTerm(nodes', s) == SlotTerm(nodes, s);
    forall x: nat | x < |nodes|
      ensures ChildTerms(nodes', nodes'[x]) == ChildTerms(nodes, nodes[x])
      ensures forall i | 0 <= i < NChildren(nodes'[x]) && Slots(nodes'[x])[i].NodeSlot? :: Slots(nodes'[x])[i].n < |nodes|
    {
      assert NodeOk(T, S, nodes, x);
      if x != n {
        assert nodes'[x] == nodes[x];
      }
    }
    assert KeepsTerms(nodes, nodes');
    NodeOkKept(T, S, nodes, nodes');
  }

  function WithState(nodes: seq<SubstNode>, n: nat, proc: Proc): (r: seq<SubstNode>)
    requires n < |nodes| && nodes[n].children.ChildList?
  {
    nodes[n := nodes[n].(children := ChildList(nodes[n].children.list.(proc := proc)))]
  }

  function WithSlot(nodes: seq<SubstNode>, n: nat, j: nat, c: nat): (r: seq<SubstNode>)
    requires n < |nodes| && nodes[n].children.ChildList? && j < NChildren(nodes[n])
  {
    nodes[n := nodes[n].(children := ChildList(nodes[n].children.list.(vars := Slots(nodes[n])[j := NodeSlot(c)])))]
  }

  ghost predicate TermsKept(nodes: seq<SubstNode>, nodes': seq<SubstNode>) {
    |nodes| <= |nodes'| && forall i | 0 <= i < |nodes| :: nodes'[i].tr == nodes[i].tr
  }

  lemma KeepsTermsFacts(nodes: seq<SubstNode>, nodes': seq<SubstNode>, n: nat)
    requires KeepsTerms(nodes, nodes') && n < |nodes|
    ensures TermsKept(nodes, nodes') && ChildTerms(nodes', nodes'[n]) == ChildTerms(nodes, nodes[n])
    ensures nodes'[n].children.ChildList? == nodes[n].children.ChildList?
  {
  }

  lemma SlotSetFacts(nodes: seq<SubstNode>, n: nat, j: nat, c: nat)
    requires n < |nodes| && c < |nodes| && nodes[n].children.ChildList? && j < NChildren(nodes[n])
    requires Slots(nodes[n])[j] == TermSlot(nodes[c].tr)
    ensures SlotSet(nodes, n, j, c, WithSlot(nodes, n, j, c))
  {
  }

  /** Starting to process a node makes it the current one. */
  lemma StartNode(T: seq<Pterm>, S: Substs, nodes: seq<SubstNode>, source: map<PTRef, nat>, seen: set<PTRef>, n: nat)
    requires WfTerms(T) && SubstsOk(T, S) && Building(T, S, nodes, source, seen, NoNode) && n < |nodes| && nodes[n].tr !in seen
    ensures nodes[n].children.ChildList? && nodes[n].tr in source && nodes[n].tr < |T|
    ensures Building(T, S, WithState(nodes, n, Processing), source, seen + {nodes[n].tr}, SomeNode(n))
    ensures TermsKept(nodes, WithState(nodes, n, Processing))
    ensures ChildTerms(WithState(nodes, n, Processing), WithState(nodes, n, Processing)[n]) == ChildTerms(nodes, nodes[n])
    ensures forall v: PTRef | v in ChildTerms(nodes, nodes[n]) :: v < |T| && DependsOn(T, S, nodes[n].tr, v)
    ensures forall j | 0 <= j < NChildren(nodes[n]) :: Slots(nodes[n])[j] == TermSlot(ChildTerms(nodes, nodes[n])[j])
  {
    hide DependsOn;
    BuildingNode(T, S, nodes, source, seen, NoNode, n);
    var seen' := seen + {nodes[n].tr};
    forall m: nat | m < |nodes| && m != n ensures nodes[m].tr != nodes[n].tr {
      assert source[nodes[m].tr] == m;
    }
    assert SeenOk(nodes, seen', SomeNode(n));
    FieldStep(T, S, nodes, source, seen', SomeNode(n), n, WithState(nodes, n, Processing)[n]);
    VarsInStore(T, S, nodes[n].tr);
  }

  lemma VarsInStore(T: seq<Pterm>, S: Substs, k: PTRef)
    requires WfTerms(T) && SubstsOk(T, S)
    ensures forall v: PTRef | DependsOn(T, S, k, v) :: v < |T|
  {
  }

  lemma FinishNode(T: seq<Pterm>, S: Substs, nodes: seq<SubstNode>, source: map<PTRef, nat>, seen: set<PTRef>, n: nat)
    requires WfTerms(T) && SubstsOk(T, S) && Building(T, S, nodes, source, seen, SomeNode(n)) && n < |nodes| && nodes[n].tr in seen
    requires forall j | 0 <= j < NChildren(nodes[n]) :: Slots(nodes[n])[j].NodeSlot?
    ensures nodes[n].children.ChildList?
    ensures Building(T, S, WithState(nodes, n, Processed), source, seen, NoNode)
    ensures TermsKept(nodes, WithState(nodes, n, Processed))
  {
    hide DependsOn;
    BuildingNode(T, S, nodes, source, seen, SomeNode(n), n);
    var nodes' := WithState(nodes, n, Processed);
    FieldStep(T, S, nodes, source, seen, SomeNode(n), n, nodes'[n]);
    assert IsProcessed(nodes'[n]) by {
      assert forall j | 0 <= j < NChildren(nodes'[n]) :: Slots(nodes'[n])[j] == Slots(nodes[n])[j];
      assert Slots(nodes'[n]) == nodes'[n].children.list.vars;
    }
    assert SeenOk(nodes', seen, SomeNode(n));
    assert SeenOk(nodes', seen, NoNode);
  }

  lemma BuildingNone(T: seq<Pterm>, S: Substs, seen: set<PTRef>)
    requires WfTerms(T) && SubstsOk(T, S)
    ensures Building(T, S, [], map[], seen, NoNode)
  {
  }

  lemma BuildingSource(T: seq<Pterm>, S: Substs, nodes: seq<SubstNode>, source: map<PTRef, nat>, seen: set<PTRef>, current: OptNode)
    requires WfTerms(T) && SubstsOk(T, S) && Building(T, S, nodes, source, seen, current)
    ensures forall t | t in source :: source[t] < |nodes| && nodes[source[t]].tr == t
    ensures forall n: nat | n < |nodes| :: nodes[n].tr in source && source[nodes[n].tr] == n
  {
  }

  lemma KeepsTermsRefl(T: seq<Pterm>, S: Substs, nodes: seq<SubstNode>, source: map<PTRef, nat>, seen: set<PTRef>, current: OptNode)
    requires WfTerms(T) && SubstsOk(T, S) && Building(T, S, nodes, source, seen, current)
    ensures KeepsTerms(nodes, nodes)
  {
    forall x: nat | x < |nodes|
      ensures forall j | 0 <= j < NChildren(nodes[x]) && Slots(nodes[x])[j].NodeSlot? :: Slots(nodes[x])[j].n < |nodes|
    {
      assert NodeOk(T, S, nodes, x);
    }
  }

  lemma BuildingNode(T: seq<Pterm>, S: Substs, nodes: seq<SubstNode>, source: map<PTRef, nat>, seen: set<PTRef>, current: OptNode, n: nat)
    requires WfTerms(T) && SubstsOk(T, S) && Building(T, S, nodes, source, seen, current) && n < |nodes|
    ensures nodes[n].children.ChildList? && nodes[n].tr < |T| && nodes[n].tr in source && source[nodes[n].tr] == n
    ensures forall v: PTRef :: v in ChildTerms(nodes, nodes[n]) <==> DependsOn(T, S, nodes[n].tr, v)
    ensures current == NoNode && nodes[n].tr !in seen ==> forall j | 0 <= j < NChildren(nodes[n]) :: Slots(nodes[n])[j].TermSlot?
  {
    assert NodeOk(T, S, nodes, n);
  }

  // ----- breaking the loops -----

  ghost predicate IsLast(loops: seq<seq<nat>>, n: nat) {
    exists i | 0 <= i < |loops| :: loops[i] != [] && loops[i][|loops[i]| - 1] == n
  }

  /** The last node of every loop has lost its children, and these are listed as orphans. */
  ghost predicate Broken(nodes: seq<SubstNode>, loops: seq<seq<nat>>, nodes': seq<SubstNode>, orphans: seq<nat>) {
    && |nodes'| == |nodes|
    && (forall n: nat | n < |nodes| :: nodes'[n] == if IsLast(loops, n) then nodes[n].(children := Swiped) else nodes[n])
    && (forall n: nat, c: nat | n < |nodes| && IsLast(loops, n) && c in Succ(nodes[n]) :: c in orphans)
    && (forall i | 0 <= i < |orphans| :: orphans[i] < |nodes|)
  }

  lemma BrokenMore(nodes: seq<SubstNode>, loops: seq<seq<nat>>, nodes1: seq<SubstNode>, orphans: seq<nat>, loop: seq<nat>)
    requires Broken(nodes, loops, nodes1, orphans) && Wf(GraphOf(nodes)) && loop != [] && loop[|loop| - 1] < |nodes|
    ensures var n := loop[|loop| - 1];
      Broken(nodes, loops + [loop], nodes1[n := nodes1[n].(children := Swiped)], orphans + Succ(nodes1[n]))
  {
    var last := loop[|loop| - 1];
    var loops' := loops + [loop];
    assert loops'[|loops|] == loop;
    forall n: nat ensures IsLast(loops', n) <==> IsLast(loops, n) || n == last {
      if IsLast(loops, n) {
        var i :| 0 <= i < |loops| && loops[i] != [] && loops[i][|loops[i]| - 1] == n;
        assert loops'[i] == loops[i];
      }
    }
    forall j | 0 <= j < |Succ(nodes1[last])| ensures Succ(nodes1[last])[j] < |nodes| {
      assert Succ(nodes1[last]) == GraphOf(nodes)[last];
    }
  }

  /** What was swiped so far. */
  ghost predicate Swept(nodes: seq<SubstNode>, nodes': seq<SubstNode>) {
    && |nodes'| == |nodes|
    && forall n: nat | n < |nodes| :: nodes'[n] == nodes[n] || nodes'[n] == nodes[n].(children := Swiped)
  }

  /** Every node stays reachable from the start nodes and the orphans. */
  lemma StillReached(nodes: seq<SubstNode>, loops: seq<seq<nat>>, nodes': seq<SubstNode>, starts: seq<nat>, orphans: seq<nat>,
                     starts': seq<nat>, y: nat)
    requires Broken(nodes, loops, nodes', orphans) && Wf(GraphOf(nodes)) && ReachFrom(GraphOf(nodes), starts, y)
    requires forall x | x in starts || x in orphans :: x in starts'
    ensures ReachFrom(GraphOf(nodes'), starts', y)
  {
    var G, G' := GraphOf(nodes), GraphOf(nodes');
    var k :| 0 <= k < |starts| && Reach(G, starts[k], y);
    ReachInGraph(G, starts[k], y);
    var p :| IsPath(G, p, starts[k], y);
    hide Reach;
    StartReached(G', starts', starts[k]);
    var i := 0;
    while i < |p| - 1
      invariant 0 <= i < |p| && ReachFrom(G', starts', p[i])
    {
      assert p[i + 1] in G[p[i]] && p[i + 1] < |G|;
      if IsLast(loops, p[i]) {
        StartReached(G', starts', p[i + 1]);
      } else {
        assert nodes'[p[i]] == nodes[p[i]];
        var j :| 0 <= j < |starts'| && Reach(G', starts'[j], p[i]);
        ReachEdge(G', p[i], p[i + 1]);
        ReachTrans(G', starts'[j], p[i], p[i + 1]);
      }
      i := i + 1;
    }
  }

  lemma StartReached(G: Graph, starts: seq<nat>, x: nat)
    requires x in starts && x < |G|
    ensures ReachFrom(G, starts, x)
  {
    var i :| 0 <= i < |starts| && starts[i] == x;
    ReachRefl(G, x);
  }

  lemma ReachMonotone(G: Graph, G': Graph, x: nat, y: nat)
    requires |G'| == |G| && (forall n: nat, c: nat | n < |G| && c in G[n] :: c in G'[n]) && Reach(G, x, y)
    ensures Reach(G', x, y)
  {
    var p :| IsPath(G, p, x, y);
    assert IsPath(G', p, x, y);
  }

  /** Nodes that have a child list. */
  ghost function Listed(nodes: seq<SubstNode>): set<nat> {
    set n: nat | n < |nodes| && nodes[n].children.ChildList?
  }

  /** The state of the breaker between two searches: children were taken from the nodes of the list,
      from each while it still lay on a loop, and every node can still be reached. */
  ghost predicate Breaking(nodes0: seq<SubstNode>, nodes: seq<SubstNode>, starts: seq<nat>, order: seq<nat>) {
    && nodes == Sweep(nodes0, order) && InOrder(nodes0, order)
    && Swept(nodes0, nodes) && AllProcessed(nodes) && AllClear(nodes) && Wf(GraphOf(nodes))
    && (forall n: nat | n < |nodes0| && nodes[n] != nodes0[n] :: OnLoop(GraphOf(nodes0), n))
    && (forall i | 0 <= i < |starts| :: starts[i] < |nodes|)
    && (forall n: nat | n < |nodes| :: ReachFrom(GraphOf(nodes), starts, n))
  }

  lemma BreakStep(nodes0: seq<SubstNode>, nodes: seq<SubstNode>, starts: seq<nat>, loops: seq<seq<nat>>, nodes': seq<SubstNode>,
                  orphans: seq<nat>, starts': seq<nat>, order: seq<nat>)
    requires Breaking(nodes0, nodes, starts, order) && LoopsExact(GraphOf(nodes), starts, loops) && loops != []
    requires Broken(nodes, loops, nodes', orphans)
    requires forall x :: x in starts' <==> x in starts || x in orphans
    ensures NoneEmpty(loops) && Breaking(nodes0, nodes', starts', order + Lasts(loops))
    ensures Listed(nodes') < Listed(nodes)
  {
    hide Reach, ReachFrom, InOrder, OnLoop, Sweep, GraphOf;
    forall n: nat | n < |nodes| && IsLast(loops, n) ensures OnLoop(GraphOf(nodes0), n) {
      LastOnLoop(nodes0, nodes, starts, loops, n, order);
    }
    LastsSwept(nodes0, nodes, starts, loops, nodes', orphans, order);
    forall n: nat | n < |nodes'| ensures ReachFrom(GraphOf(nodes'), starts', n) {
      StillReached(nodes, loops, nodes', starts, orphans, starts', n);
    }
    BrokenNodes(nodes, loops, nodes', orphans);
    forall i | 0 <= i < |starts'| ensures starts'[i] < |nodes| {
      assert starts'[i] in starts || starts'[i] in orphans;
    }
    FewerListed(nodes0, nodes, starts, loops, nodes', orphans, order);
  }

  lemma BrokenNodes(nodes: seq<SubstNode>, loops: seq<seq<nat>>, nodes': seq<SubstNode>, orphans: seq<nat>)
    requires AllProcessed(nodes) && AllClear(nodes) && Wf(GraphOf(nodes)) && Broken(nodes, loops, nodes', orphans)
    ensures AllProcessed(nodes') && AllClear(nodes') && Wf(GraphOf(nodes'))
  {
    hide IsLast;
    forall n: nat | n < |nodes| ensures IsProcessed(nodes'[n]) && nodes'[n].mark == CLEAR {
      assert IsProcessed(nodes[n]);
    }
    forall n: nat, j | n < |nodes| && 0 <= j < |GraphOf(nodes')[n]| ensures GraphOf(nodes')[n][j] < |nodes| {
      assert GraphOf(nodes')[n] == GraphOf(nodes)[n];
    }
  }

  lemma FewerListed(nodes0: seq<SubstNode>, nodes: seq<SubstNode>, starts: seq<nat>, loops: seq<seq<nat>>, nodes': seq<SubstNode>,
                    orphans: seq<nat>, order: seq<nat>)
    requires Breaking(nodes0, nodes, starts, order) && LoopsExact(GraphOf(nodes), starts, loops) && loops != []
    requires Broken(nodes, loops, nodes', orphans)
    ensures Listed(nodes') < Listed(nodes)
  {
    hide Reach, ReachFrom, InOrder, OnLoop, Sweep, Breaking;
    var l := loops[0];
    assert IsLoopList(GraphOf(nodes), l);
    assert IsLast(loops, l[|l| - 1]);
    LastOnLoop(nodes0, nodes, starts, loops, l[|l| - 1], order);
    assert l[|l| - 1] in Listed(nodes) && l[|l| - 1] !in Listed(nodes');
  }

  /** Breaking the loops takes the children from their last nodes, one after the other. */
  lemma LastsSwept(nodes0: seq<SubstNode>, nodes: seq<SubstNode>, starts: seq<nat>, loops: seq<seq<nat>>, nodes': seq<SubstNode>,
                   orphans: seq<nat>, order: seq<nat>)
    requires Breaking(nodes0, nodes, starts, order) && LoopsExact(GraphOf(nodes), starts, loops)
    requires Broken(nodes, loops, nodes', orphans)
    ensures NoneEmpty(loops) && nodes' == Sweep(nodes0, order + Lasts(loops)) && InOrder(nodes0, order + Lasts(loops))
  {
    hide Reach, ReachFrom, InOrder, OnLoop;
    forall i | 0 <= i < |loops| ensures loops[i] != [] {
      assert IsLoopList(GraphOf(nodes), loops[i]);
    }
    LastsInOrder(nodes0, order, starts, loops, |loops|);
    assert Lasts(loops)[..|loops|] == Lasts(loops);
    forall n: nat | n < |nodes| ensures IsLast(loops, n) <==> n in Lasts(loops) {
      if n in Lasts(loops) {
        var i :| 0 <= i < |loops| && Lasts(loops)[i] == n;
        assert loops[i][|loops[i]| - 1] == n;
      }
      if IsLast(loops, n) {
        var i :| 0 <= i < |loops| && loops[i] != [] && loops[i][|loops[i]| - 1] == n;
        assert Lasts(loops)[i] == n;
      }
    }
  }

  /** The last node of a loop lies on a loop of the original graph and has a child to lose. */
  lemma LastOnLoop(nodes0: seq<SubstNode>, nodes: seq<SubstNode>, starts: seq<nat>, loops: seq<seq<nat>>, n: nat, order: seq<nat>)
    requires Breaking(nodes0, nodes, starts, order) && LoopsExact(GraphOf(nodes), starts, loops) && n < |nodes| && IsLast(loops, n)
    ensures OnLoop(GraphOf(nodes0), n) && nodes[n].children.ChildList?
  {
    hide Reach;
    var G, G0 := GraphOf(nodes), GraphOf(nodes0);
    var i :| 0 <= i < |loops| && loops[i] != [] && loops[i][|loops[i]| - 1] == n;
    assert IsLoopList(G, loops[i]) && IsScc(G, Members(loops[i]));
    var m := loops[i][0];
    assert m in Members(loops[i]) && n in Members(loops[i]) && m != n;
    assert Reach(G, n, m) && Reach(G, m, n);
    var z := ReachFirstStep(G, n, m);
    assert forall x: nat, c: nat | x < |G| && c in G[x] :: c in G0[x];
    ReachMonotone(G, G0, n, m);
    ReachMonotone(G, G0, m, n);
  }

  // ----- the resulting map -----

  /** Disables the enabled entries whose node has lost its children. */
  function Disabled(S: Substs, nodes: seq<SubstNode>, source: map<PTRef, nat>): (R: Substs)
    ensures R.Keys == S.Keys
    ensures forall k | k in S :: R[k].tr == S[k].tr && (R[k].sgn ==> S[k].sgn)
  {
    map k | k in S ::
      if S[k].sgn && k in source && source[k] < |nodes| && nodes[source[k]].children.Swiped? then PtAsgn(S[k].tr, false) else S[k]
  }

  lemma DisabledRepresents(T: seq<Pterm>, S: Substs, nodes0: seq<SubstNode>, nodes: seq<SubstNode>, source: map<PTRef, nat>)
    requires WfTerms(T) && SubstsOk(T, S) && Represents(T, S, nodes0, source) && Swept(nodes0, nodes)
    requires AllProcessed(nodes) && Wf(GraphOf(nodes))
    ensures SubstsOk(T, Disabled(S, nodes, source)) && Represents(T, Disabled(S, nodes, source), nodes, source)
  {
    var R := Disabled(S, nodes, source);
    assert SubstsOk(T, R);
    assert forall k | k in R && R[k].sgn :: S[k].sgn;
    hide AllProcessed, Wf, GraphOf, DependsOn, Disabled, Swept;
    DisabledIndexed(T, S, nodes0, nodes, source);
    forall n: nat | n < |nodes|
      ensures nodes[n].tr < |T| && forall v: nat | DependsOn(T, R, nodes[n].tr, v) :: v in source
      ensures forall m: nat | m < |nodes| :: m in GraphOf(nodes)[n] <==> DependsOn(T, R, nodes[n].tr, nodes[m].tr)
    {
      DisabledNode(T, S, nodes0, nodes, source, n);
    }
  }

  lemma DisabledIndexed(T: seq<Pterm>, S: Substs, nodes0: seq<SubstNode>, nodes: seq<SubstNode>, source: map<PTRef, nat>)
    requires WfTerms(T) && SubstsOk(T, S) && Represents(T, S, nodes0, source) && Swept(nodes0, nodes)
    ensures |nodes| == |nodes0| && Indexed(nodes, source)
  {
    hide AllProcessed, Wf, GraphOf, DependsOn;
  }

  /** A swiped node has no edges and its entry is disabled; any other is as it was. */
  lemma DisabledNode(T: seq<Pterm>, S: Substs, nodes0: seq<SubstNode>, nodes: seq<SubstNode>, source: map<PTRef, nat>, n: nat)
    requires WfTerms(T) && SubstsOk(T, S) && Represents(T, S, nodes0, source) && Swept(nodes0, nodes) && n < |nodes|
    ensures SubstsOk(T, Disabled(S, nodes, source)) && nodes[n].tr < |T|
    ensures forall v: nat | DependsOn(T, Disabled(S, nodes, source), nodes[n].tr, v) :: v in source
    ensures forall m: nat | m < |nodes| ::
              m in GraphOf(nodes)[n] <==> DependsOn(T, Disabled(S, nodes, source), nodes[n].tr, nodes[m].tr)
  {
    hide Occurs, AllProcessed, Wf;
    var R := Disabled(S, nodes, source);
    assert source[nodes0[n].tr] == n && nodes[n].tr == nodes0[n].tr;
    if nodes[n].children.Swiped? {
      assert GraphOf(nodes)[n] == [] && forall v: nat :: !DependsOn(T, R, nodes[n].tr, v);
    } else {
      assert GraphOf(nodes)[n] == GraphOf(nodes0)[n];
      assert forall v: nat :: DependsOn(T, R, nodes[n].tr, v) == DependsOn(T, S, nodes[n].tr, v);
    }
  }

  /** When no loop is found, no variable depends on another that depends on it. */
  lemma NoLoopsLeft(T: seq<Pterm>, R: Substs, nodes: seq<SubstNode>, source: map<PTRef, nat>, starts: seq<nat>)
    requires WfTerms(T) && SubstsOk(T, R) && Represents(T, R, nodes, source)
    requires forall n: nat | n < |nodes| :: ReachFrom(GraphOf(nodes), starts, n)
    requires LoopsExact(GraphOf(nodes), starts, [])
    ensures NoLoops(T, R)
  {
    hide Reach, Occurs, DependsOn, LoopsExact;
    var DG := DependsGraph(T, R);
    forall k: nat ensures !OnLoop(DG, k) {
      if OnLoop(DG, k) {
        var v: nat :| v != k && Reach(DG, k, v) && Reach(DG, v, k);
        LoopReported(T, R, nodes, source, starts, [], k, v);
      }
    }
  }

  /** Two variables that depend on each other are on a reported loop. */
  lemma LoopReported(T: seq<Pterm>, R: Substs, nodes: seq<SubstNode>, source: map<PTRef, nat>, starts: seq<nat>,
                     loops: seq<seq<nat>>, k: nat, v: nat)
    requires WfTerms(T) && SubstsOk(T, R) && Represents(T, R, nodes, source)
    requires forall n: nat | n < |nodes| :: ReachFrom(GraphOf(nodes), starts, n)
    requires LoopsExact(GraphOf(nodes), starts, loops)
    requires v != k && Reach(DependsGraph(T, R), k, v) && Reach(DependsGraph(T, R), v, k)
    ensures loops != []
  {
    hide Reach, Occurs, DependsOn;
    var DG := DependsGraph(T, R);
    var c := ReachFirstStep(DG, k, v);
    DependsKey(T, R, k, c);
    ReachDown(T, R, nodes, source, source[k], v);
    ReachDown(T, R, nodes, source, source[v], k);
    assert nodes[source[k]].tr == k && nodes[source[v]].tr == v;
    assert ReachFrom(GraphOf(nodes), starts, source[k]) && OnALoop(loops, source[k], source[v]);
  }

  lemma DependsKey(T: seq<Pterm>, R: Substs, k: nat, c: nat)
    requires WfTerms(T) && SubstsOk(T, R) && k < |T| && c in DependsGraph(T, R)[k]
    ensures DependsOn(T, R, k, c) && k in R && R[k].sgn
  {
    hide Occurs;
  }

  /** Without loops of two or more variables, the only cycles are entries that mention their own key. */
  lemma OnlySelfCycles(T: seq<Pterm>, R: Substs)
    requires WfTerms(T) && SubstsOk(T, R) && NoLoops(T, R)
    ensures AcyclicSubsts(T, R) <==> forall k | k in R && R[k].sgn :: !DependsOn(T, R, k, k)
  {
    hide Reach, Occurs;
    var DG := DependsGraph(T, R);
    if forall k | k in R && R[k].sgn :: !DependsOn(T, R, k, k) {
      forall x, j | 0 <= x < |DG| && 0 <= j < |DG[x]| ensures !Reach(DG, DG[x][j], x) {
        var c := DG[x][j];
        assert c in DG[x] && DependsOn(T, R, x, c);
        ReachEdge(DG, x, c);
        assert !OnLoop(DG, x);
      }
    }
    forall k | k in R && R[k].sgn && DependsOn(T, R, k, k) ensures !Acyclic(DG) {
      assert k in DG[k];
      var j :| 0 <= j < |DG[k]| && DG[k][j] == k;
      ReachRefl(DG, k);
    }
  }

  // ----- in which order entries are disabled -----

  /** The map with the entries of these keys disabled. */
  function Disable(S: Substs, keys: seq<PTRef>): (R: Substs)
    ensures R.Keys == S.Keys
    ensures forall k | k in S :: R[k] == if k in keys then PtAsgn(S[k].tr, false) else S[k]
  {
    map k | k in S :: if k in keys then PtAsgn(S[k].tr, false) else S[k]
  }

  lemma DisableOk(T: seq<Pterm>, S: Substs, keys: seq<PTRef>)
    requires SubstsOk(T, S)
    ensures SubstsOk(T, Disable(S, keys))
  {
  }

  /** Each key of the list lies on a loop that is left when the entries before it are disabled. */
  ghost predicate LoopOrder(T: seq<Pterm>, S: Substs, keys: seq<PTRef>)
    requires WfTerms(T) && SubstsOk(T, S)
  {
    keys == [] || (
      var before, k := keys[..|keys| - 1], keys[|keys| - 1];
      DisableOk(T, S, before);
      LoopOrder(T, S, before) && k in S && OnLoop(DependsGraph(T, Disable(S, before)), k))
  }

  ghost predicate NoLoops(T: seq<Pterm>, S: Substs)
    requires WfTerms(T) && SubstsOk(T, S)
  {
    forall k: nat :: !OnLoop(DependsGraph(T, S), k)
  }

  /** Loops are broken one after the other, each by disabling one entry, until none is left. */
  ghost predicate LoopsBroken(T: seq<Pterm>, S: Substs, R: Substs)
    requires WfTerms(T) && SubstsOk(T, S) && SubstsOk(T, R)
  {
    NoLoops(T, R) && exists keys :: LoopOrder(T, S, keys) && R == Disable(S, keys)
  }

  function TermsOf(nodes: seq<SubstNode>, order: seq<nat>): (r: seq<PTRef>)
    requires AreNodes(nodes, order)
    ensures |r| == |order| && forall i | 0 <= i < |r| :: r[i] == nodes[order[i]].tr
  {
    seq(|order|, i requires 0 <= i < |order| => nodes[order[i]].tr)
  }

  /** Taking the children from nodes disables the entries of their terms. */
  lemma SweptDisabled(T: seq<Pterm>, S: Substs, nodes: seq<SubstNode>, source: map<PTRef, nat>, order: seq<nat>)
    requires WfTerms(T) && SubstsOk(T, S) && Indexed(nodes, source) && AreNodes(nodes, order)
    requires forall k | k in S && S[k].sgn :: k in source
    requires forall n: nat | n < |nodes| :: nodes[n].children.ChildList?
    ensures Disabled(S, Sweep(nodes, order), source) == Disable(S, TermsOf(nodes, order))
  {
    hide WfTerms, SubstsOk;
    var keys := TermsOf(nodes, order);
    forall k | k in S && k in source ensures k in keys <==> source[k] in order {
      if k in keys {
        var i :| 0 <= i < |keys| && keys[i] == k;
        assert source[nodes[order[i]].tr] == order[i];
      }
      if source[k] in order {
        var i :| 0 <= i < |order| && order[i] == source[k];
        assert keys[i] == k;
      }
    }
    forall k | k in S && k in keys ensures k in source {
      var i :| 0 <= i < |keys| && keys[i] == k;
    }
  }

  lemma {:induction false} OrderUp(T: seq<Pterm>, S: Substs, nodes: seq<SubstNode>, source: map<PTRef, nat>, order: seq<nat>)
    requires WfTerms(T) && SubstsOk(T, S) && Represents(T, S, nodes, source) && InOrder(nodes, order)
    requires forall n: nat | n < |nodes| :: nodes[n].children.ChildList?
    ensures AreNodes(nodes, order) && LoopOrder(T, S, TermsOf(nodes, order))
    decreases |order|
  {
    hide OnLoop, DependsOn, GraphOf, Represents, Sweep, TermsOf, LoopOrder, DependsGraph;
    InOrderNodes(nodes, order);
    if order == [] {
      NoOrder(T, S, nodes);
    } else {
      var before, n := order[..|order| - 1], order[|order| - 1];
      OrderUp(T, S, nodes, source, before);
      OneMoreUp(T, S, nodes, source, before, n);
      LoopOrderMore(T, S, TermsOf(nodes, before), nodes[n].tr);
      TermsOfMore(nodes, order);
    }
  }

  lemma NoOrder(T: seq<Pterm>, S: Substs, nodes: seq<SubstNode>)
    requires WfTerms(T) && SubstsOk(T, S)
    ensures LoopOrder(T, S, TermsOf(nodes, []))
  {
  }

  lemma LoopOrderMore(T: seq<Pterm>, S: Substs, keys: seq<PTRef>, k: PTRef)
    requires WfTerms(T) && SubstsOk(T, S) && LoopOrder(T, S, keys) && k in S
    requires SubstsOk(T, Disable(S, keys)) && OnLoop(DependsGraph(T, Disable(S, keys)), k)
    ensures LoopOrder(T, S, keys + [k])
  {
    hide OnLoop, DependsGraph, Disable;
    assert (keys + [k])[..|keys|] == keys;
  }

  lemma TermsOfMore(nodes: seq<SubstNode>, order: seq<nat>)
    requires AreNodes(nodes, order) && order != []
    ensures AreNodes(nodes, order[..|order| - 1])
    ensures TermsOf(nodes, order) == TermsOf(nodes, order[..|order| - 1]) + [nodes[order[|order| - 1]].tr]
  {
  }

  lemma OneMoreUp(T: seq<Pterm>, S: Substs, nodes: seq<SubstNode>, source: map<PTRef, nat>, before: seq<nat>, n: nat)
    requires WfTerms(T) && SubstsOk(T, S) && Represents(T, S, nodes, source) && AreNodes(nodes, before)
    requires forall n: nat | n < |nodes| :: nodes[n].children.ChildList?
    requires n < |nodes| && OnLoop(GraphOf(Sweep(nodes, before)), n)
    ensures var keys, k := TermsOf(nodes, before), nodes[n].tr;
      SubstsOk(T, Disable(S, keys)) && k in S && OnLoop(DependsGraph(T, Disable(S, keys)), k)
  {
    hide OnLoop, DependsOn, GraphOf, TermsOf, AreNodes;
    SweptDisabled(T, S, nodes, source, before);
    SweepFacts(nodes, before);
    DisabledRepresents(T, S, nodes, Sweep(nodes, before), source);
    DisabledOnLoop(T, Disabled(S, Sweep(nodes, before), source), Sweep(nodes, before), source, n);
    LoopKey(T, S, TermsOf(nodes, before), nodes[n].tr);
  }

  lemma LoopKey(T: seq<Pterm>, S: Substs, keys: seq<PTRef>, k: PTRef)
    requires WfTerms(T) && SubstsOk(T, S) && SubstsOk(T, Disable(S, keys)) && OnLoop(DependsGraph(T, Disable(S, keys)), k)
    ensures k in S && S[k].sgn && k !in keys
  {
    hide Reach;
    var R := Disable(S, keys);
    var v: nat :| v != k && Reach(DependsGraph(T, R), k, v) && Reach(DependsGraph(T, R), v, k);
    var c := ReachFirstStep(DependsGraph(T, R), k, v);
    DependsKey(T, R, k, c);
  }

  lemma SweepFacts(nodes: seq<SubstNode>, order: seq<nat>)
    requires AllProcessed(nodes) && Wf(GraphOf(nodes))
    ensures Swept(nodes, Sweep(nodes, order)) && AllProcessed(Sweep(nodes, order)) && Wf(GraphOf(Sweep(nodes, order)))
  {
    var nodes' := Sweep(nodes, order);
    forall n, j | 0 <= n < |nodes'| && 0 <= j < |GraphOf(nodes')[n]| ensures GraphOf(nodes')[n][j] < |nodes'| {
      assert GraphOf(nodes')[n] == GraphOf(nodes)[n];
    }
  }

  /** Every component of more than one variable keeps an enabled entry. */
  lemma ComponentKeepsEntry(T: seq<Pterm>, S: Substs, R: Substs, K: set<nat>) returns (k: nat)
    requires WfTerms(T) && SubstsOk(T, S) && SubstsOk(T, R) && LoopsBroken(T, S, R)
    requires IsScc(DependsGraph(T, S), K) && |K| > 1
    ensures k in K && k in R && R[k].sgn
  {
    hide OnLoop, Reach;
    var keys :| LoopOrder(T, S, keys) && R == Disable(S, keys);
    k := SurvivingKey(T, S, keys, K);
    KeyOfComponent(T, S, K, k);
  }

  /** The members of a component of more than one variable are enabled keys. */
  lemma KeyOfComponent(T: seq<Pterm>, S: Substs, K: set<nat>, k: nat)
    requires WfTerms(T) && SubstsOk(T, S) && IsScc(DependsGraph(T, S), K) && |K| > 1 && k in K
    ensures k in S && S[k].sgn
  {
    hide Reach;
    assert |K - {k}| > 0;
    var v :| v in K - {k};
    assert Reach(DependsGraph(T, S), k, v);
    var c := ReachFirstStep(DependsGraph(T, S), k, v);
    DependsKey(T, S, k, c);
  }

  lemma {:induction false} SurvivingKey(T: seq<Pterm>, S: Substs, keys: seq<PTRef>, K: set<nat>) returns (k: nat)
    requires WfTerms(T) && SubstsOk(T, S) && LoopOrder(T, S, keys)
    requires IsScc(DependsGraph(T, S), K) && |K| > 1
    ensures k in K && k !in keys
    decreases |keys|
  {
    hide Reach;
    if keys == [] {
      k :| k in K;
    } else {
      var before, x := keys[..|keys| - 1], keys[|keys| - 1];
      assert keys == before + [x];
      if x in K {
        DisableOk(T, S, before);
        var G, G' := DependsGraph(T, S), DependsGraph(T, Disable(S, before));
        var v: nat :| v != x && Reach(G', x, v) && Reach(G', v, x);
        FewerEntries(T, S, before, x, v);
        FewerEntries(T, S, before, v, x);
        var c := ReachFirstStep(G', v, x);
        DependsKey(T, Disable(S, before), v, c);
        k := v;
      } else {
        k := SurvivingKey(T, S, before, K);
      }
    }
  }

  lemma FewerEntries(T: seq<Pterm>, S: Substs, keys: seq<PTRef>, x: nat, y: nat)
    requires WfTerms(T) && SubstsOk(T, S) && SubstsOk(T, Disable(S, keys)) && Reach(DependsGraph(T, Disable(S, keys)), x, y)
    ensures Reach(DependsGraph(T, S), x, y)
  {
    hide Reach, Occurs;
    var G, G' := DependsGraph(T, S), DependsGraph(T, Disable(S, keys));
    forall n: nat, c: nat | n < |G'| && c in G'[n] ensures c in G[n] {
      assert DependsOn(T, Disable(S, keys), n, c);
    }
    ReachMonotone(G', G, x, y);
  }

  lemma OnLoopBy(G: Graph, x: nat, y: nat)
    requires x != y && Reach(G, x, y) && Reach(G, y, x)
    ensures OnLoop(G, x)
  {
  }

  lemma SameEdges(T: seq<Pterm>, S: Substs, R: Substs, K: set<nat>)
    requires WfTerms(T) && SubstsOk(T, S) && SubstsOk(T, R) && forall k | k in K :: k in S && k in R && R[k] == S[k]
    ensures var G, G' := DependsGraph(T, S), DependsGraph(T, R);
      forall n: nat, c: nat | n in K && n < |G| && c in G[n] :: c in G'[n]
  {
    hide Occurs;
    var G, G' := DependsGraph(T, S), DependsGraph(T, R);
    forall n: nat, c: nat | n in K && n < |G| && c in G[n] ensures c in G'[n] {
      assert DependsOn(T, S, n, c) && DependsOn(T, R, n, c);
    }
  }

  /** Of a loop of two entries exactly one is disabled. */
  lemma OneOfTwo(T: seq<Pterm>, S: Substs, R: Substs, x: nat, y: nat)
    requires WfTerms(T) && SubstsOk(T, S) && SubstsOk(T, R) && LoopsBroken(T, S, R)
    requires x != y && IsScc(DependsGraph(T, S), {x, y})
    ensures x in R && y in R && R[x].sgn != R[y].sgn
  {
    hide OnLoop, Reach;
    var keys :| LoopOrder(T, S, keys) && R == Disable(S, keys);
    var k := ComponentKeepsEntry(T, S, R, {x, y});
    KeyOfComponent(T, S, {x, y}, x);
    KeyOfComponent(T, S, {x, y}, y);
    if R[x].sgn && R[y].sgn {
      var G := DependsGraph(T, R);
      SameEdges(T, S, R, {x, y});
      ReachInside(DependsGraph(T, S), G, {x, y}, x, y);
      ReachInside(DependsGraph(T, S), G, {x, y}, y, x);
      OnLoopBy(G, x, y);
    }
  }

  /** Only keys that lie on a loop are disabled. */
  lemma DisabledOnLoop(T: seq<Pterm>, S: Substs, nodes: seq<SubstNode>, source: map<PTRef, nat>, n: nat)
    requires WfTerms(T) && SubstsOk(T, S) && Represents(T, S, nodes, source) && n < |nodes| && OnLoop(GraphOf(nodes), n)
    ensures OnLoop(DependsGraph(T, S), nodes[n].tr)
  {
    hide Reach;
    var v: nat :| v != n && Reach(GraphOf(nodes), n, v) && Reach(GraphOf(nodes), v, n);
    ReachUp(T, S, nodes, source, n, v);
    ReachUp(T, S, nodes, source, v, n);
    assert source[nodes[n].tr] == n && source[nodes[v].tr] == v;
  }

  lemma AcyclicNoLoop(G: Graph, k: nat)
    requires Acyclic(G) && Wf(G)
    ensures !OnLoop(G, k)
  {
    hide Reach;
    if OnLoop(G, k) {
      var v: nat :| v != k && Reach(G, k, v) && Reach(G, v, k);
      var z := ReachFirstStep(G, k, v);
      var j :| 0 <= j < |G[k]| && G[k][j] == z;
      ReachTrans(G, z, v, k);
    }
  }

  lemma BreakingStart(T: seq<Pterm>, S: Substs, nodes: seq<SubstNode>, source: map<PTRef, nat>, starts: seq<nat>)
    requires WfTerms(T) && SubstsOk(T, S) && Represents(T, S, nodes, source) && AllClear(nodes)
    requires forall i | 0 <= i < |starts| :: starts[i] < |nodes|
    requires forall n: nat | n < |nodes| :: ReachFrom(GraphOf(nodes), starts, n)
    ensures Breaking(nodes, nodes, starts, [])
  {
    hide ReachFrom, DependsOn;
  }

  lemma BreakingFacts(nodes0: seq<SubstNode>, nodes: seq<SubstNode>, starts: seq<nat>, order: seq<nat>)
    requires Breaking(nodes0, nodes, starts, order)
    ensures AllProcessed(nodes) && AllClear(nodes) && Wf(GraphOf(nodes))
    ensures forall i | 0 <= i < |starts| :: starts[i] < |nodes|
  {
    hide ReachFrom, OnLoop;
  }

  lemma LoopListsOk(nodes: seq<SubstNode>, starts: seq<nat>, loops: seq<seq<nat>>)
    requires LoopsExact(GraphOf(nodes), starts, loops)
    ensures forall i | 0 <= i < |loops| :: IsLoopList(GraphOf(nodes), loops[i])
  {
    hide Reach;
  }

  lemma BreakingDone(T: seq<Pterm>, S: Substs, nodes0: seq<SubstNode>, nodes: seq<SubstNode>, source: map<PTRef, nat>, starts: seq<nat>,
                     order: seq<nat>)
    requires WfTerms(T) && SubstsOk(T, S) && Represents(T, S, nodes0, source) && Breaking(nodes0, nodes, starts, order)
    requires LoopsExact(GraphOf(nodes), starts, [])
    requires forall n | 0 <= n < |nodes0| :: nodes0[n].children.ChildList?
    ensures forall k | k in S && S[k].sgn :: k in source && source[k] < |nodes|
    ensures var R := Disabled(S, nodes, source);
      && SubstsOk(T, R) && LoopsBroken(T, S, R)
      && (AcyclicSubsts(T, R) <==> forall k | k in R && R[k].sgn :: !DependsOn(T, R, k, k))
      && (forall k | k in S && S[k].sgn && !R[k].sgn :: OnLoop(DependsGraph(T, S), k))
      && (AcyclicSubsts(T, S) ==> R == S)
  {
    hide Reach, DependsOn, LoopsExact, GraphOf, OnLoop, InOrder;
    var R := Disabled(S, nodes, source);
    DisabledRepresents(T, S, nodes0, nodes, source);
    NoLoopsLeft(T, R, nodes, source, starts);
    OnlySelfCycles(T, R);
    OrderUp(T, S, nodes0, source, order);
    SweptDisabled(T, S, nodes0, source, order);
    forall k | k in S && S[k].sgn && !R[k].sgn ensures OnLoop(DependsGraph(T, S), k) {
      assert nodes[source[k]] != nodes0[source[k]];
      DisabledOnLoop(T, S, nodes0, source, source[k]);
    }
    if AcyclicSubsts(T, S) {
      var DG := DependsGraph(T, S);
      assert Wf(DG) by {
        assert forall n, j | 0 <= n < |DG| && 0 <= j < |DG[n]| :: DG[n][j] in DG[n];
      }
      forall k | k in S ensures R[k] == S[k] {
        AcyclicNoLoop(DependsGraph(T, S), k);
      }
    }
  }

  /** A queue of nodes, all of whose terms are reached from the roots. */
  ghost predicate Queued(DG: Graph, rootTerms: seq<PTRef>, nodes: seq<SubstNode>, queue: seq<nat>) {
    forall i | 0 <= i < |queue| :: queue[i] < |nodes| && ReachFrom(DG, rootTerms, nodes[queue[i]].tr)
  }

  lemma BuildFinished(T: seq<Pterm>, S: Substs, nodes: seq<SubstNode>, source: map<PTRef, nat>, seen: set<PTRef>)
    requires WfTerms(T) && SubstsOk(T, S) && Building(T, S, nodes, source, seen, NoNode)
    requires forall n: nat | n < |nodes| :: nodes[n].tr in seen
    requires forall k | k in S && S[k].sgn :: k in source
    ensures Represents(T, S, nodes, source) && AllClear(nodes) && forall n | 0 <= n < |nodes| :: nodes[n].children.ChildList?
  {
    hide DependsOn, GraphOf, Succ, NodeOk, IsProcessed, SeenOk;
    forall n: nat | n < |nodes|
      ensures IsProcessed(nodes[n]) && nodes[n].children.ChildList? && nodes[n].mark == CLEAR && nodes[n].tr < |T|
      ensures forall j | 0 <= j < |GraphOf(nodes)[n]| :: GraphOf(nodes)[n][j] < |nodes|
      ensures forall v: nat | DependsOn(T, S, nodes[n].tr, v) :: v in source && source[v] in GraphOf(nodes)[n]
      ensures forall m: nat | m < |nodes| && m in GraphOf(nodes)[n] :: DependsOn(T, S, nodes[n].tr, nodes[m].tr)
    {
      BuiltNode(T, S, nodes, source, seen, n);
    }
  }

  /** The edges of a finished node are its dependencies. */
  lemma BuiltNode(T: seq<Pterm>, S: Substs, nodes: seq<SubstNode>, source: map<PTRef, nat>, seen: set<PTRef>, n: nat)
    requires WfTerms(T) && SubstsOk(T, S) && Building(T, S, nodes, source, seen, NoNode) && n < |nodes| && nodes[n].tr in seen
    ensures IsProcessed(nodes[n]) && nodes[n].children.ChildList? && nodes[n].mark == CLEAR && nodes[n].tr < |T|
    ensures forall j | 0 <= j < |GraphOf(nodes)[n]| :: GraphOf(nodes)[n][j] < |nodes|
    ensures forall v: nat | DependsOn(T, S, nodes[n].tr, v) :: v in source && source[v] in GraphOf(nodes)[n]
    ensures forall m: nat | m < |nodes| && m in GraphOf(nodes)[n] :: DependsOn(T, S, nodes[n].tr, nodes[m].tr)
  {
    hide DependsOn;
    var d, terms := nodes[n], ChildTerms(nodes, nodes[n]);
    assert NodeOk(T, S, nodes, n) && IsProcessed(d) && GraphOf(nodes)[n] == Succ(d);
    forall j | 0 <= j < NChildren(d) ensures Succ(d)[j] < |nodes| && nodes[Succ(d)[j]].tr == terms[j] {
      assert Slots(d)[j].NodeSlot?;
    }
    forall v: nat | DependsOn(T, S, d.tr, v) ensures v in source && source[v] in Succ(d) {
      assert v in terms;
      var j :| 0 <= j < NChildren(d) && terms[j] == v;
      assert Succ(d)[j] == source[v];
    }
    forall m: nat | m < |nodes| && m in Succ(d) ensures DependsOn(T, S, d.tr, nodes[m].tr) {
      var j :| 0 <= j < |Succ(d)| && Succ(d)[j] == m;
      assert nodes[m].tr in terms;
    }
  }

  /** Paths of dependencies are paths of the substitution graph, and the other way round. */
  lemma ReachDown(T: seq<Pterm>, S: Substs, nodes: seq<SubstNode>, source: map<PTRef, nat>, n: nat, b: nat)
    requires WfTerms(T) && SubstsOk(T, S) && Represents(T, S, nodes, source)
    requires n < |nodes| && Reach(DependsGraph(T, S), nodes[n].tr, b)
    ensures b in source && Reach(GraphOf(nodes), n, source[b])
  {
    hide DependsOn;
    var DG, NG := DependsGraph(T, S), GraphOf(nodes);
    var p :| IsPath(DG, p, nodes[n].tr, b);
    ReachRefl(NG, n);
    hide Reach;
    var i := 0;
    while i < |p| - 1
      invariant 0 <= i < |p| && p[i] in source && Reach(NG, n, source[p[i]])
    {
      assert p[i + 1] in DG[p[i]];
      assert DependsOn(T, S, nodes[source[p[i]]].tr, p[i + 1]);
      ReachEdge(NG, source[p[i]], source[p[i + 1]]);
      ReachTrans(NG, n, source[p[i]], source[p[i + 1]]);
      i := i + 1;
    }
  }

  lemma ReachUp(T: seq<Pterm>, S: Substs, nodes: seq<SubstNode>, source: map<PTRef, nat>, n: nat, m: nat)
    requires WfTerms(T) && SubstsOk(T, S) && Represents(T, S, nodes, source) && Reach(GraphOf(nodes), n, m)
    ensures n < |nodes| && m < |nodes| && Reach(DependsGraph(T, S), nodes[n].tr, nodes[m].tr)
  {
    hide DependsOn;
    var DG, NG := DependsGraph(T, S), GraphOf(nodes);
    ReachInGraph(NG, n, m);
    var p :| IsPath(NG, p, n, m);
    ReachRefl(DG, nodes[n].tr);
    hide Reach;
    var i := 0;
    while i < |p| - 1
      invariant 0 <= i < |p| && p[i] < |nodes| && Reach(DG, nodes[n].tr, nodes[p[i]].tr)
    {
      assert p[i + 1] in NG[p[i]];
      ReachEdge(DG, nodes[p[i]].tr, nodes[p[i + 1]].tr);
      ReachTrans(DG, nodes[n].tr, nodes[p[i]].tr, nodes[p[i + 1]].tr);
      i := i + 1;
    }
  }

  ghost predicate RootTerms(nodes: seq<SubstNode>, roots: seq<nat>, rootTerms: seq<PTRef>) {
    |roots| == |rootTerms| && forall i | 0 <= i < |roots| :: roots[i] < |nodes| && nodes[roots[i]].tr == rootTerms[i]
  }

  /** What was seen is reached from the roots, and what was not is still to come. */
  ghost predicate Rooted(DG: Graph, nodes: seq<SubstNode>, seen: set<PTRef>, roots: seq<nat>, rootTerms: seq<PTRef>, later: seq<PTRef>) {
    && RootTerms(nodes, roots, rootTerms)
    && (forall t | t in seen :: ReachFrom(DG, rootTerms, t))
    && (forall n | 0 <= n < |nodes| :: nodes[n].tr in seen || nodes[n].tr in later)
  }

  ghost predicate KeysAllocated(S: Substs, keyNode: map<PTRef, nat>, source: map<PTRef, nat>) {
    && (forall k :: k in keyNode <==> k in S && S[k].sgn)
    && (forall k | k in keyNode :: k in source && source[k] == keyNode[k])
  }

  lemma RootsReachAll(T: seq<Pterm>, S: Substs, nodes: seq<SubstNode>, source: map<PTRef, nat>, seen: set<PTRef>,
                      roots: seq<nat>, rootTerms: seq<PTRef>, keyNode: map<PTRef, nat>)
    requires WfTerms(T) && SubstsOk(T, S) && Building(T, S, nodes, source, seen, NoNode)
    requires Rooted(DependsGraph(T, S), nodes, seen, roots, rootTerms, []) && KeysAllocated(S, keyNode, source)
    ensures Represents(T, S, nodes, source) && AllClear(nodes) && forall n | 0 <= n < |nodes| :: nodes[n].children.ChildList?
    ensures forall i | 0 <= i < |roots| :: roots[i] < |nodes|
    ensures forall n: nat | n < |nodes| :: ReachFrom(GraphOf(nodes), roots, n)
  {
    hide Reach, Represents, Building, ReachFrom, DependsOn;
    BuildFinished(T, S, nodes, source, seen);
    forall n: nat | n < |nodes| ensures ReachFrom(GraphOf(nodes), roots, n) {
      RootReaches(T, S, nodes, source, roots, rootTerms, n);
    }
  }

  lemma RootReaches(T: seq<Pterm>, S: Substs, nodes: seq<SubstNode>, source: map<PTRef, nat>, roots: seq<nat>, rootTerms: seq<PTRef>, n: nat)
    requires WfTerms(T) && SubstsOk(T, S) && Represents(T, S, nodes, source) && n < |nodes|
    requires RootTerms(nodes, roots, rootTerms) && ReachFrom(DependsGraph(T, S), rootTerms, nodes[n].tr)
    ensures ReachFrom(GraphOf(nodes), roots, n)
  {
    hide Reach;
    var i :| 0 <= i < |rootTerms| && Reach(DependsGraph(T, S), rootTerms[i], nodes[n].tr);
    ReachDown(T, S, nodes, source, roots[i], nodes[n].tr);
  }

  lemma QueuedKept(DG: Graph, rootTerms: seq<PTRef>, nodes: seq<SubstNode>, queue: seq<nat>, nodes': seq<SubstNode>)
    requires Queued(DG, rootTerms, nodes, queue) && TermsKept(nodes, nodes')
    ensures Queued(DG, rootTerms, nodes', queue)
  {
  }

  /** A new root is reached, and nothing is lost. */
  lemma FirstRoot(T: seq<Pterm>, S: Substs, roots: seq<nat>, rootTerms: seq<PTRef>, t: PTRef, nodes: seq<SubstNode>, root: nat, seen: set<PTRef>)
    requires WfTerms(T) && SubstsOk(T, S) && root < |nodes| && nodes[root].tr == t && t < |T| && RootTerms(nodes, roots, rootTerms)
    ensures RootTerms(nodes, roots + [root], rootTerms + [t])
    requires forall x | x in seen :: ReachFrom(DependsGraph(T, S), rootTerms, x)
    ensures Queued(DependsGraph(T, S), rootTerms + [t], nodes, [root])
    ensures forall x | x in seen :: ReachFrom(DependsGraph(T, S), rootTerms + [t], x)
  {
    var DG := DependsGraph(T, S);
    ReachRefl(DG, t);
    assert (rootTerms + [t])[|rootTerms|] == t;
    hide Reach;
    forall x | x in seen ensures ReachFrom(DG, rootTerms + [t], x) {
      var i :| 0 <= i < |rootTerms| && Reach(DG, rootTerms[i], x);
      assert (rootTerms + [t])[i] == rootTerms[i];
    }
  }

  lemma QueuedMore(DG: Graph, rootTerms: seq<PTRef>, nodes: seq<SubstNode>, queue: seq<nat>, c: nat, k: PTRef)
    requires Queued(DG, rootTerms, nodes, queue) && c < |nodes| && k < |DG| && nodes[c].tr < |DG|
    requires ReachFrom(DG, rootTerms, k) && nodes[c].tr in DG[k]
    ensures Queued(DG, rootTerms, nodes, queue + [c])
  {
    var i :| 0 <= i < |rootTerms| && Reach(DG, rootTerms[i], k);
    ReachEdge(DG, k, nodes[c].tr);
    ReachTrans(DG, rootTerms[i], k, nodes[c].tr);
  }

  class SubstLoopBreaker {
    const logic: Logic
    const sna: SubstNodeAllocator
    var seen: set<PTRef>

    constructor (logic: Logic)
      ensures this.logic == logic && sna.logic == logic && fresh(sna) && seen == {}
      ensures sna.nodes == [] && sna.sourceToNode == map[]
    {
      this.logic := logic;
      sna := new SubstNodeAllocator(logic);
      seen := {};
    }

    ghost predicate Build(S: Substs, current: OptNode)
      reads this, sna, logic
    {
      && sna.logic == logic && WfTerms(logic.terms) && SubstsOk(logic.terms, S)
      && Building(logic.terms, S, sna.nodes, sna.sourceToNode, seen, current) && seen <= sna.sourceToNode.Keys
    }

    /** The node of a child: that of its entry, or a node without children. */
    method ChildNode(n: nat, child: PTRef, keyNode: map<PTRef, nat>, ghost S: Substs) returns (c: nat)
      requires Build(S, SomeNode(n)) && n < |sna.nodes| && child < |logic.terms|
      requires KeysAllocated(S, keyNode, sna.sourceToNode)
      modifies sna
      ensures Build(S, SomeNode(n)) && KeepsTerms(old(sna.nodes), sna.nodes)
      ensures sna.nodes[n].children == old(sna.nodes)[n].children
      ensures c < |sna.nodes| && sna.nodes[c].tr == child
      ensures |sna.nodes| == |old(sna.nodes)| || c == |old(sna.nodes)| == |sna.nodes| - 1
      ensures KeysAllocated(S, keyNode, sna.sourceToNode)
    {
      hide Building, KeepsTerms, SubstsOk, ListsVars;
      ghost var T, nodes0, source0 := logic.terms, sna.nodes, sna.sourceToNode;
      BuildingSource(T, S, nodes0, source0, seen, SomeNode(n));
      KeepsTermsRefl(T, S, nodes0, source0, seen, SomeNode(n));
      if child in keyNode {
        c := keyNode[child];
        if sna.nodes[c].parent == NoNode && c != n {
          BuildingNode(T, S, nodes0, source0, seen, SomeNode(n), c);
          FieldStep(T, S, nodes0, source0, seen, SomeNode(n), c, nodes0[c].(parent := SomeNode(n)));
          sna.nodes := sna.nodes[c := sna.nodes[c].(parent := SomeNode(n))];
        }
      } else {
        c := sna.Alloc(child, NoRef);
        if child !in source0 {
          AllocStep(T, S, nodes0, source0, seen, SomeNode(n), child, sna.nodes);
          assert sna.nodes[..|nodes0|][n] == nodes0[n];
        }
      }
    }

    /** Turns the children of a node into nodes and lets them wait in the queue. */
    method ProcessNode(n: nat, queue: seq<nat>, keyNode: map<PTRef, nat>, ghost S: Substs, ghost rootTerms: seq<PTRef>)
      returns (queue': seq<nat>)
      requires Build(S, NoNode) && n < |sna.nodes| && sna.nodes[n].tr !in seen
      requires KeysAllocated(S, keyNode, sna.sourceToNode)
      requires ReachFrom(DependsGraph(logic.terms, S), rootTerms, sna.nodes[n].tr)
      requires Queued(DependsGraph(logic.terms, S), rootTerms, sna.nodes, queue)
      modifies this`seen, sna
      ensures Build(S, NoNode) && seen == old(seen) + {old(sna.nodes)[n].tr}
      ensures |old(sna.nodes)| <= |sna.nodes| && forall i | 0 <= i < |old(sna.nodes)| :: sna.nodes[i].tr == old(sna.nodes)[i].tr
      ensures KeysAllocated(S, keyNode, sna.sourceToNode)
      ensures queue <= queue' && Queued(DependsGraph(logic.terms, S), rootTerms, sna.nodes, queue')
      ensures forall m | |old(sna.nodes)| <= m < |sna.nodes| :: m in queue'
    {
      hide Building, KeepsTerms, Queued, ReachFrom, SlotSet, SlotTerm, SubstsOk, WfTerms;
      ghost var T, nodes0, DG := logic.terms, sna.nodes, DependsGraph(logic.terms, S);
      ghost var terms := ChildTerms(nodes0, nodes0[n]);
      StartNode(T, S, nodes0, sna.sourceToNode, seen, n);
      seen := seen + {sna.nodes[n].tr};
      sna.nodes := WithState(sna.nodes, n, Processing);
      queue' := queue;
      QueuedKept(DG, rootTerms, nodes0, queue, sna.nodes);
      for j := 0 to NChildren(sna.nodes[n])
        modifies sna
        invariant Build(S, SomeNode(n)) && TermsKept(nodes0, sna.nodes)
        invariant sna.nodes[n].children.ChildList? && ChildTerms(sna.nodes, sna.nodes[n]) == terms
        invariant forall i | 0 <= i < |terms| :: if i < j then Slots(sna.nodes[n])[i].NodeSlot? else Slots(sna.nodes[n])[i] == TermSlot(terms[i])
        invariant queue <= queue' && Queued(DG, rootTerms, sna.nodes, queue')
        invariant forall m | |nodes0| <= m < |sna.nodes| :: m in queue'
        invariant KeysAllocated(S, keyNode, sna.sourceToNode)
      {
        ghost var nodes1, source1 := sna.nodes, sna.sourceToNode;
        assert terms[j] in terms;
        var child := sna.nodes[n].children.list.vars[j].t;
        var c := ChildNode(n, child, keyNode, S);
        ghost var nodes2 := sna.nodes;
        KeepsTermsFacts(nodes1, nodes2, n);
        assert SlotSet(nodes2, n, j, c, WithSlot(nodes2, n, j, c)) by { SlotSetFacts(nodes2, n, j, c); }
        SlotStep(T, S, nodes2, sna.sourceToNode, seen, n, j, c, WithSlot(nodes2, n, j, c));
        sna.nodes := WithSlot(sna.nodes, n, j, c);
        KeepsTermsFacts(nodes2, sna.nodes, n);
        QueuedKept(DG, rootTerms, nodes1, queue', sna.nodes);
        QueuedMore(DG, rootTerms, sna.nodes, queue', c, nodes0[n].tr);
        queue' := queue' + [c];
      }
      ghost var nodes3 := sna.nodes;
      FinishNode(T, S, nodes3, sna.sourceToNode, seen, n);
      sna.nodes := WithState(sna.nodes, n, Processed);
      QueuedKept(DG, rootTerms, nodes3, queue', sna.nodes);
    }

    /** A node for the key of every enabled entry. */
    method AllocKeys(S: Substs) returns (keyNode: map<PTRef, nat>, ptrefs: seq<PTRef>)
      requires Build(S, NoNode) && sna.nodes == [] && sna.sourceToNode == map[] && seen == {}
      modifies sna
      ensures Build(S, NoNode) && KeysAllocated(S, keyNode, sna.sourceToNode)
      ensures forall i | 0 <= i < |ptrefs| :: ptrefs[i] in keyNode
      ensures Rooted(DependsGraph(logic.terms, S), sna.nodes, seen, [], [], ptrefs)
    {
      hide Building, WfTerms, ListsVars;
      keyNode, ptrefs := map[], [];
      var keys := S.Keys;
      while keys != {}
        invariant Build(S, NoNode) && keys <= S.Keys
        invariant forall k :: k in keyNode <==> k in S && k !in keys && S[k].sgn
        invariant forall k :: k in keyNode <==> k in sna.sourceToNode
        invariant forall k | k in keyNode :: sna.sourceToNode[k] == keyNode[k]
        invariant forall i | 0 <= i < |ptrefs| :: ptrefs[i] in keyNode
        invariant forall n | 0 <= n < |sna.nodes| :: sna.nodes[n].tr in ptrefs
      {
        var name :| name in keys;
        keys := keys - {name};
        if S[name].sgn {
          ghost var nodes0, source0 := sna.nodes, sna.sourceToNode;
          var n := sna.Alloc(name, SomeRef(S[name].tr));
          AllocStep(logic.terms, S, nodes0, source0, seen, NoNode, name, sna.nodes);
          forall m | 0 <= m < |sna.nodes| ensures sna.nodes[m].tr in ptrefs + [name] {
            assert m < n ==> sna.nodes[m] == sna.nodes[..n][m];
          }
          keyNode := keyNode[name := n];
          ptrefs := ptrefs + [name];
        }
      }
    }

    /** One node for every term that the enabled entries mention as key or as variable of a target. */
    method ConstructSubstitutionGraph(S: Substs) returns (roots: seq<nat>)
      requires sna.logic == logic && WfTerms(logic.terms) && SubstsOk(logic.terms, S)
      requires sna.nodes == [] && sna.sourceToNode == map[] && seen == {}
      modifies this`seen, sna
      ensures Represents(logic.terms, S, sna.nodes, sna.sourceToNode) && AllClear(sna.nodes)
      ensures forall n | 0 <= n < |sna.nodes| :: sna.nodes[n].children.ChildList?
      ensures forall i | 0 <= i < |roots| :: roots[i] < |sna.nodes|
      ensures forall n: nat | n < |sna.nodes| :: ReachFrom(GraphOf(sna.nodes), roots, n)
    {
      hide Building, Rooted, WfTerms, SubstsOk, Represents, AllClear, GraphOf, ReachFrom, DependsGraph, DependsOn, Succ;
      assert Build(S, NoNode) by { BuildingNone(logic.terms, S, seen); }
      var keyNode, ptrefs := AllocKeys(S);
      ghost var rootTerms: seq<PTRef> := [];
      roots := [];
      assert ptrefs[0..] == ptrefs;
      for i := 0 to |ptrefs|
        invariant Build(S, NoNode) && KeysAllocated(S, keyNode, sna.sourceToNode)
        invariant Rooted(DependsGraph(logic.terms, S), sna.nodes, seen, roots, rootTerms, ptrefs[i..])
      {
        assert ptrefs[i..] == [ptrefs[i]] + ptrefs[i + 1..];
        roots, rootTerms := VisitKey(ptrefs[i], keyNode, S, roots, rootTerms, ptrefs[i + 1..]);
      }
      assert ptrefs[|ptrefs|..] == [];
      RootsReachAll(logic.terms, S, sna.nodes, sna.sourceToNode, seen, roots, rootTerms, keyNode);
    }

    /** Processes everything below a key that was not seen yet. */
    method VisitKey(key: PTRef, keyNode: map<PTRef, nat>, ghost S: Substs, roots: seq<nat>, ghost rootTerms: seq<PTRef>, ghost later: seq<PTRef>)
      returns (roots': seq<nat>, ghost rootTerms': seq<PTRef>)
      requires Build(S, NoNode) && KeysAllocated(S, keyNode, sna.sourceToNode) && key in keyNode
      requires Rooted(DependsGraph(logic.terms, S), sna.nodes, seen, roots, rootTerms, [key] + later)
      modifies this`seen, sna
      ensures Build(S, NoNode) && KeysAllocated(S, keyNode, sna.sourceToNode)
      ensures Rooted(DependsGraph(logic.terms, S), sna.nodes, seen, roots', rootTerms', later)
    {
      hide Building, ReachFrom, WfTerms, SubstsOk, Queued, RootTerms, Reach, DependsOn;
      ghost var T, DG := logic.terms, DependsGraph(logic.terms, S);
      var root := keyNode[key];
      roots', rootTerms' := roots, rootTerms;
      BuildingSource(T, S, sna.nodes, sna.sourceToNode, seen, NoNode);
      if key !in seen {
        roots', rootTerms' := roots + [root], rootTerms + [key];
        BuildingNode(T, S, sna.nodes, sna.sourceToNode, seen, NoNode, root);
        FirstRoot(T, S, roots, rootTerms, key, sna.nodes, root, seen);
        Traverse(root, keyNode, S, roots', rootTerms', later);
      }
    }

    /** Processes everything below a root. */
    method Traverse(root: nat, keyNode: map<PTRef, nat>, ghost S: Substs, ghost roots: seq<nat>, ghost rootTerms: seq<PTRef>, ghost later: seq<PTRef>)
      requires Build(S, NoNode) && root < |sna.nodes| && RootTerms(sna.nodes, roots, rootTerms)
      requires KeysAllocated(S, keyNode, sna.sourceToNode)
      requires Queued(DependsGraph(logic.terms, S), rootTerms, sna.nodes, [root])
      requires forall t | t in seen :: ReachFrom(DependsGraph(logic.terms, S), rootTerms, t)
      requires forall n | 0 <= n < |sna.nodes| :: sna.nodes[n].tr in seen || n == root || sna.nodes[n].tr in later
      modifies this`seen, sna
      ensures Build(S, NoNode) && KeysAllocated(S, keyNode, sna.sourceToNode)
      ensures Rooted(DependsGraph(logic.terms, S), sna.nodes, seen, roots, rootTerms, later)
    {
      hide Building, ReachFrom, WfTerms, SubstsOk;
      ghost var T, DG := logic.terms, DependsGraph(logic.terms, S);
      var queue := [root];
      while queue != []
        invariant Build(S, NoNode) && RootTerms(sna.nodes, roots, rootTerms) && Queued(DG, rootTerms, sna.nodes, queue)
        invariant KeysAllocated(S, keyNode, sna.sourceToNode)
        invariant forall t | t in seen :: ReachFrom(DG, rootTerms, t)
        invariant forall n | 0 <= n < |sna.nodes| :: sna.nodes[n].tr in seen || n in queue || sna.nodes[n].tr in later
        decreases Refs(|T|) - seen, |queue|
      {
        var n := queue[|queue| - 1];
        assert queue == queue[..|queue| - 1] + [n];
        queue := queue[..|queue| - 1];
        BuildingNode(T, S, sna.nodes, sna.sourceToNode, seen, NoNode, n);
        if sna.nodes[n].tr !in seen {
          assert sna.nodes[n].tr in Refs(|T|) - seen;
          assert sna.nodes[n].tr !in Refs(|T|) - (seen + {sna.nodes[n].tr});
          queue := ProcessNode(n, queue, keyNode, S, rootTerms);
        }
      }
    }

    /** The strongly connected components of more than one node; no trace is left in the nodes. */
    method FindLoops(startNodes: seq<nat>) returns (loops: seq<seq<nat>>)
      requires AllProcessed(sna.nodes) && AllClear(sna.nodes) && Wf(GraphOf(sna.nodes))
      requires forall i | 0 <= i < |startNodes| :: startNodes[i] < |sna.nodes|
      modifies sna`nodes
      ensures sna.nodes == old(sna.nodes)
      ensures LoopsExact(GraphOf(sna.nodes), startNodes, loops)
    {
      hide Inv, Reported;
      loops := [];
      var tarjan := new TarjanAlgorithm(sna);
      ghost var g := tarjan.G();
      ghost var comps := [];
      FreshStart(sna.nodes, startNodes);
      assert Reported(g, loops, comps) by {
        ReportedNone(g);
      }
      for i := 0 to |startNodes|
        invariant tarjan.sna == sna && fresh(tarjan)
        invariant tarjan.Idle(comps, startNodes) && tarjan.G() == g && OnlyMarks(old(sna.nodes), sna.nodes)
        invariant Reported(g, loops, comps)
        invariant forall k | 0 <= k < i :: tarjan.Now().Done(startNodes[k])
      {
        ghost var nodes0 := sna.nodes;
        var more, found := tarjan.GetLoops(startNodes[i], comps, startNodes);
        OnlyMarksTrans(old(sna.nodes), nodes0, sna.nodes);
        ReportedMore(g, loops, comps, more, found);
        loops := loops + more;
        comps := comps + found;
      }
      AllLoopsFound(g, tarjan.Now(), comps, startNodes, loops);
      ghost var nodes1 := sna.nodes;
      sna.ClearTarjan();
    }

    /** Takes the children from the last node of every loop and returns them. */
    method BreakLoops(loops: seq<seq<nat>>) returns (orphans: seq<nat>)
      requires AllProcessed(sna.nodes) && Wf(GraphOf(sna.nodes))
      requires forall i | 0 <= i < |loops| :: IsLoopList(GraphOf(sna.nodes), loops[i])
      modifies sna`nodes
      ensures Broken(old(sna.nodes), loops, sna.nodes, orphans)
    {
      orphans := [];
      for i := 0 to |loops|
        invariant Broken(old(sna.nodes), loops[..i], sna.nodes, orphans)
      {
        ghost var nodes1 := sna.nodes;
        var last := loops[i][|loops[i]| - 1];
        ghost var orphans1 := orphans;
        assert IsProcessed(nodes1[last]);
        for j := 0 to NChildren(sna.nodes[last])
          invariant sna.nodes == nodes1 && orphans == orphans1 + Succ(nodes1[last])[..j]
        {
          orphans := orphans + [sna.nodes[last].children.list.vars[j].n];
        }
        sna.nodes := sna.nodes[last := sna.nodes[last].(children := Swiped)];
        BrokenMore(old(sna.nodes), loops[..i], nodes1, orphans1, loops[i]);
        assert loops[..i + 1] == loops[..i] + [loops[i]];
        assert Succ(nodes1[last])[..|Succ(nodes1[last])|] == Succ(nodes1[last]);
      }
      assert loops[..|loops|] == loops;
    }

    method ConstructLooplessSubstitution(S: Substs) returns (R: Substs)
      requires forall k | k in S && S[k].sgn :: k in sna.sourceToNode && sna.sourceToNode[k] < |sna.nodes|
      ensures R == Disabled(S, sna.nodes, sna.sourceToNode)
    {
      R := S;
      var keys := S.Keys;
      while keys != {}
        invariant keys <= S.Keys == R.Keys
        invariant forall k | k in S :: R[k] == if k in keys then S[k] else Disabled(S, sna.nodes, sna.sourceToNode)[k]
      {
        var k :| k in keys;
        keys := keys - {k};
        if R[k].sgn {
          if sna.nodes[sna.sourceToNode[k]].children.Swiped? {
            R := R[k := PtAsgn(R[k].tr, false)];
          }
        }
      }
    }

    /** Disables entries until the dependencies have no loop of two or more variables. */
    method Apply(S: Substs) returns (R: Substs)
      requires sna.logic == logic && WfTerms(logic.terms) && SubstsOk(logic.terms, S)
      requires sna.nodes == [] && sna.sourceToNode == map[] && seen == {}
      modifies this`seen, sna
      ensures R.Keys == S.Keys && SubstsOk(logic.terms, R)
      ensures forall k | k in S :: R[k].tr == S[k].tr && (R[k].sgn ==> S[k].sgn)
      ensures LoopsBroken(logic.terms, S, R)
      ensures AcyclicSubsts(logic.terms, R) <==> forall k | k in R && R[k].sgn :: !DependsOn(logic.terms, R, k, k)
      ensures forall k | k in S && S[k].sgn && !R[k].sgn :: OnLoop(DependsGraph(logic.terms, S), k)
      ensures AcyclicSubsts(logic.terms, S) ==> R == S
    {
      hide Breaking, Represents, LoopsExact, Broken, GraphOf, AllProcessed, AllClear, WfTerms, DependsGraph, DependsOn, SubstsOk,
        LoopsBroken;
      ghost var T := logic.terms;
      var startNodes := ConstructSubstitutionGraph(S);
      ghost var nodes0 := sna.nodes;
      ghost var order: seq<nat> := [];
      BreakingStart(T, S, nodes0, sna.sourceToNode, startNodes);
      while true
        modifies sna`nodes
        invariant Breaking(nodes0, sna.nodes, startNodes, order)
        decreases Listed(sna.nodes)
      {
        BreakingFacts(nodes0, sna.nodes, startNodes, order);
        var loops := FindLoops(startNodes);
        if |loops| == 0 {
          assert loops == [];
          break;
        }
        ghost var nodes1, starts1 := sna.nodes, startNodes;
        LoopListsOk(nodes1, startNodes, loops);
        var orphans := BreakLoops(loops);
        startNodes := Uniq(SortBy(Descending, startNodes + orphans));
        BreakStep(nodes0, nodes1, starts1, loops, sna.nodes, orphans, startNodes, order);
        order := order + Lasts(loops);
      }
      BreakingDone(T, S, nodes0, sna.nodes, sna.sourceToNode, startNodes, order);
      R := ConstructLooplessSubstitution(S);
    }
  }
}
