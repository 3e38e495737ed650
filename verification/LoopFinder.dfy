/** The nodes of the substitution graph and the search for its loops. */
module LoopFinding {
  import opened Terms
  import opened LogicStore
  import opened Vectors
  import opened Graphs
  import opened TarjanScc

  datatype OptNode = NoNode | SomeNode(n: nat)

  /** An entry of a child list: first the variable, after processing the node of that variable. */
  datatype Slot = TermSlot(t: PTRef) | NodeSlot(n: nat)

  datatype Proc = Unprocessed | Processing | Processed

  datatype TargetVarList = TargetVarList(proc: Proc, vars: seq<Slot>)

  /** A node whose children were swiped has no list at all, which differs from an empty list. */
  datatype Children = Swiped | ChildList(list: TargetVarList)

  datatype SubstNode = SubstNode(tr: PTRef, parent: OptNode, children: Children, mark: Mark)

  function NChildren(n: SubstNode): nat {
    if n.children.Swiped? then 0 else |n.children.list.vars|
  }

  function Target(s: Slot): nat {
    if s.NodeSlot? then s.n else 0
  }

  predicate IsProcessed(n: SubstNode) {
    n.children.ChildList? ==>
      n.children.list.proc.Processed? && forall i | 0 <= i < |n.children.list.vars| :: n.children.list.vars[i].NodeSlot?
  }

  function Succ(n: SubstNode): (r: seq<nat>)
    ensures |r| == NChildren(n)
  {
    seq(NChildren(n), i requires 0 <= i < NChildren(n) => Target(n.children.list.vars[i]))
  }

  function GraphOf(nodes: seq<SubstNode>): (G: Graph)
    ensures |G| == |nodes| && forall i | 0 <= i < |G| :: G[i] == Succ(nodes[i])
  {
    seq(|nodes|, i requires 0 <= i < |nodes| => Succ(nodes[i]))
  }

  function MarksOf(nodes: seq<SubstNode>): (m: seq<Mark>)
    ensures |m| == |nodes| && forall i | 0 <= i < |m| :: m[i] == nodes[i].mark
  {
    seq(|nodes|, i requires 0 <= i < |nodes| => nodes[i].mark)
  }

  predicate AllProcessed(nodes: seq<SubstNode>) {
    forall i | 0 <= i < |nodes| :: IsProcessed(nodes[i])
  }

  lemma MarkUpdate(nodes: seq<SubstNode>, n: nat, m: Mark)
    requires n < |nodes|
    ensures GraphOf(nodes[n := nodes[n].(mark := m)]) == GraphOf(nodes)
    ensures MarksOf(nodes[n := nodes[n].(mark := m)]) == MarksOf(nodes)[n := m]
    ensures AllProcessed(nodes) ==> AllProcessed(nodes[n := nodes[n].(mark := m)])
  {
  }

  /** Two states of the nodes that differ in the marks only. */
  ghost predicate OnlyMarks(nodes: seq<SubstNode>, nodes': seq<SubstNode>) {
    |nodes'| == |nodes| && forall i | 0 <= i < |nodes| :: nodes'[i] == nodes[i].(mark := nodes'[i].mark)
  }

  lemma OnlyMarksRefl(nodes: seq<SubstNode>)
    ensures OnlyMarks(nodes, nodes)
  {
  }

  lemma OnlyMarksTrans(a: seq<SubstNode>, b: seq<SubstNode>, c: seq<SubstNode>)
    requires OnlyMarks(a, b) && OnlyMarks(b, c)
    ensures OnlyMarks(a, c)
  {
  }

  // ----- reported loops -----

  /** The components with more than one member. */
  ghost function Big(comps: seq<set<nat>>): seq<set<nat>> {
    if comps == [] then []
    else Big(comps[..|comps| - 1]) + if |comps[|comps| - 1]| > 1 then [comps[|comps| - 1]] else []
  }

  ghost function MemberSets(loops: seq<seq<nat>>): (r: seq<set<nat>>)
    ensures |r| == |loops| && forall i | 0 <= i < |r| :: r[i] == Members(loops[i])
  {
    seq(|loops|, i requires 0 <= i < |loops| => Members(loops[i]))
  }

  lemma {:induction false} BigContains(comps: seq<set<nat>>)
    ensures forall i | 0 <= i < |Big(comps)| :: |Big(comps)[i]| > 1 && Big(comps)[i] in comps
    ensures forall c | c in comps && |c| > 1 :: c in Big(comps)
    ensures (forall i, j | 0 <= i < j < |comps| :: comps[i] !! comps[j]) ==>
              forall i, j | 0 <= i < j < |Big(comps)| :: Big(comps)[i] !! Big(comps)[j]
  {
    if comps != [] {
      var rest, last := comps[..|comps| - 1], comps[|comps| - 1];
      BigContains(rest);
      assert comps == rest + [last];
      if forall i, j | 0 <= i < j < |comps| :: comps[i] !! comps[j] {
        forall i | 0 <= i < |Big(rest)| ensures Big(rest)[i] !! last {
          var k :| 0 <= k < |rest| && rest[k] == Big(rest)[i];
          assert comps[k] !! comps[|comps| - 1];
        }
      }
    }
  }

  lemma DistinctMembers(xs: seq<nat>)
    requires forall i, j | 0 <= i < j < |xs| :: xs[i] != xs[j]
    ensures |Members(xs)| == |xs|
    decreases |xs|
  {
    if xs != [] {
      var rest := xs[..|xs| - 1];
      DistinctMembers(rest);
      assert xs == rest + [xs[|xs| - 1]];
      assert Members(xs) == Members(rest) + {xs[|xs| - 1]};
    }
  }

  /** The entries of the child list of a new node: the variables of its target. */
  ghost predicate ListsVars(T: seq<Pterm>, target: OptRef, slots: seq<Slot>)
    requires WfTerms(T) && (target.SomeRef? ==> target.tr < |T|)
  {
    && (forall j | 0 <= j < |slots| :: slots[j].TermSlot?)
    && (forall v: PTRef :: TermSlot(v) in slots <==> target.SomeRef? && Occurs(T, target.tr, v))
  }

  class SubstNodeAllocator {
    const logic: Logic
    var nodes: seq<SubstNode>
    var sourceToNode: map<PTRef, nat>

    constructor (logic: Logic)
      ensures this.logic == logic && nodes == [] && sourceToNode == map[]
    {
      this.logic := logic;
      nodes, sourceToNode := [], map[];
    }

    /** The variables of a term, each listed once. */
    method GetVars(term: PTRef) returns (vars: seq<PTRef>)
      requires WfTerms(logic.terms) && term < |logic.terms|
      ensures forall v: PTRef :: v in vars <==> Occurs(logic.terms, term, v)
      ensures forall i, j | 0 <= i < j < |vars| :: vars[i] != vars[j]
    {
      hide Below, WfTerms;
      ghost var T := logic.terms;
      assert Below(T, term, term) by { BelowSelf(T, term); }
      vars := [];
      var proc: set<PTRef> := {};
      var queue: seq<PTRef> := [term];
      while queue != []
        invariant forall i | 0 <= i < |queue| :: queue[i] < |T| && Below(T, term, queue[i])
        invariant ArgsInside(T, proc) && forall x | x in proc :: x < |T| && Below(T, term, x)
        invariant forall v: PTRef :: v in vars <==> v in proc && IsVarSym(T[v].symb)
        invariant forall i, j | 0 <= i < j < |vars| :: vars[i] != vars[j]
        invariant term in proc || term in queue
        decreases Refs(|T|) - proc, Phase(queue, proc), Depth(queue, proc)
      {
        var tr := queue[|queue| - 1];
        if tr in proc {
          queue := queue[..|queue| - 1];
          continue;
        }
        var unprocessed;
        unprocessed, queue := PushArgs(tr, term, queue, proc);
        if unprocessed {
          continue;
        }
        queue := queue[..|queue| - 1];
        ghost var open := Refs(|T|) - proc;
        assert tr in open;
        proc := proc + {tr};
        assert tr !in Refs(|T|) - proc;
        if IsVarSym(logic.terms[tr].symb) {
          vars := vars + [tr];
        }
      }
      forall v: PTRef | Occurs(T, term, v) ensures v in vars {
        InsideCovers(T, proc, term, v);
      }
    }

    /** Lets the arguments that are not processed yet wait on top of tr. */
    method PushArgs(tr: PTRef, ghost term: PTRef, queue: seq<PTRef>, proc: set<PTRef>) returns (unprocessed: bool, queue': seq<PTRef>)
      requires WfTerms(logic.terms) && term < |logic.terms| && tr < |logic.terms| && Below(logic.terms, term, tr)
      requires forall i | 0 <= i < |queue| :: queue[i] < |logic.terms| && Below(logic.terms, term, queue[i])
      ensures queue <= queue' && forall i | 0 <= i < |queue'| :: queue'[i] < |logic.terms| && Below(logic.terms, term, queue'[i])
      ensures if unprocessed then |queue'| > |queue| && queue'[|queue'| - 1] < tr && queue'[|queue'| - 1] !in proc
              else queue' == queue && forall i | 0 <= i < |logic.terms[tr].args| :: logic.terms[tr].args[i] in proc
    {
      unprocessed, queue' := false, queue;
      var args := logic.terms[tr].args;
      assert WfTerm(logic.terms, tr);
      for i := 0 to |args|
        invariant queue <= queue' && forall k | 0 <= k < |queue'| :: queue'[k] < |logic.terms| && Below(logic.terms, term, queue'[k])
        invariant if unprocessed then |queue'| > |queue| && queue'[|queue'| - 1] < tr && queue'[|queue'| - 1] !in proc
                  else queue' == queue && forall k | 0 <= k < i :: args[k] in proc
      {
        if args[i] !in proc {
          assert Below(logic.terms, args[i], args[i]);
          assert Below(logic.terms, tr, args[i]);
          BelowTrans(logic.terms, term, tr, args[i]);
          queue', unprocessed := queue' + [args[i]], true;
        }
      }
    }

    /** The node of a term, created with the sorted variables of its target when there is none. */
    method Alloc(tr: PTRef, target: OptRef) returns (n: nat)
      requires WfTerms(logic.terms) && (target.SomeRef? ==> target.tr < |logic.terms|)
      modifies this
      ensures tr in old(sourceToNode) ==> nodes == old(nodes) && sourceToNode == old(sourceToNode) && n == old(sourceToNode)[tr]
      ensures tr !in old(sourceToNode) ==>
                && n == |old(nodes)| && |nodes| == n + 1 && nodes[..n] == old(nodes) && sourceToNode == old(sourceToNode)[tr := n]
                && nodes[n].tr == tr && nodes[n].mark == CLEAR && nodes[n].children.ChildList?
                && nodes[n].children.list.proc.Unprocessed? && ListsVars(logic.terms, target, nodes[n].children.list.vars)
    {
      if tr in sourceToNode {
        return sourceToNode[tr];
      }
      n := |nodes|;
      var slots: seq<Slot> := [];
      if target.SomeRef? {
        var vars := GetVars(target.tr);
        var sorted := SortBy(Descending, vars);
        slots := seq(|sorted|, i requires 0 <= i < |sorted| => TermSlot(sorted[i]));
        forall v: PTRef | v in vars ensures TermSlot(v) in slots {
          assert v in sorted;
          var i :| 0 <= i < |sorted| && sorted[i] == v;
          assert slots[i] == TermSlot(v);
        }
        assert forall v: PTRef :: TermSlot(v) in slots ==> v in sorted;
      }
      nodes := nodes + [SubstNode(tr, NoNode, ChildList(TargetVarList(Unprocessed, slots)), CLEAR)];
      sourceToNode := sourceToNode[tr := n];
    }

    method SetMark(n: nat, m: Mark)
      requires n < |nodes|
      modifies this`nodes
      ensures nodes == old(nodes)[n := old(nodes)[n].(mark := m)]
      ensures GraphOf(nodes) == GraphOf(old(nodes)) && MarksOf(nodes) == MarksOf(old(nodes))[n := m]
      ensures AllProcessed(old(nodes)) ==> AllProcessed(nodes)
    {
      MarkUpdate(nodes, n, m);
      nodes := nodes[n := nodes[n].(mark := m)];
    }

    method GetNextChild(n: nat) returns (c: OptNode)
      requires n < |nodes| && AllProcessed(nodes)
      modifies this`nodes
      ensures AllProcessed(nodes) && GraphOf(nodes) == GraphOf(old(nodes)) && OnlyMarks(old(nodes), nodes)
      ensures var p := old(nodes)[n].mark.procChild;
        if p < |GraphOf(nodes)[n]|
        then c == SomeNode(GraphOf(nodes)[n][p])
             && MarksOf(nodes) == MarksOf(old(nodes))[n := old(nodes)[n].mark.(procChild := p + 1)]
        else c == NoNode && nodes == old(nodes)
    {
      var m := nodes[n].mark;
      if m.procChild < NChildren(nodes[n]) {
        c := SomeNode(nodes[n].children.list.vars[m.procChild].n);
        SetMark(n, m.(procChild := m.procChild + 1));
      } else {
        c := NoNode;
      }
    }

    method ClearTarjan()
      modifies this`nodes
      ensures GraphOf(nodes) == GraphOf(old(nodes)) && |nodes| == |old(nodes)|
      ensures forall i | 0 <= i < |nodes| :: nodes[i] == old(nodes)[i].(mark := CLEAR)
      ensures AllProcessed(old(nodes)) ==> AllProcessed(nodes)
    {
      for i := 0 to |nodes|
        invariant |nodes| == |old(nodes)| && GraphOf(nodes) == GraphOf(old(nodes))
        invariant forall k | 0 <= k < i :: nodes[k] == old(nodes)[k].(mark := CLEAR)
        invariant forall k | i <= k < |nodes| :: nodes[k] == old(nodes)[k]
        invariant AllProcessed(old(nodes)) ==> AllProcessed(nodes)
      {
        SetMark(i, CLEAR);
      }
    }
  }

  class TarjanAlgorithm {
    const sna: SubstNodeAllocator
    var controlStack: seq<nat>
    var tarjanStack: seq<nat>
    var index: int

    function Now(): Snap
      reads this, sna
    {
      Snap(MarksOf(sna.nodes), controlStack, tarjanStack, index)
    }

    ghost function G(): Graph
      reads sna
    {
      GraphOf(sna.nodes)
    }

    ghost predicate Idle(comps: seq<set<nat>>, starts: seq<nat>)
      reads this, sna
    {
      && AllProcessed(sna.nodes) && controlStack == [] && tarjanStack == []
      && Inv(G(), Now(), comps, starts)
    }

    constructor (sna: SubstNodeAllocator)
      ensures this.sna == sna && controlStack == [] && tarjanStack == [] && index == 0
    {
      this.sna := sna;
      controlStack, tarjanStack, index := [], [], 0;
    }

    method AddNode(n: nat)
      requires n < |sna.nodes| && AllProcessed(sna.nodes)
      modifies this, sna`nodes
      ensures Now() == TarjanScc.AddNode(old(Now()), n)
      ensures G() == old(G()) && OnlyMarks(old(sna.nodes), sna.nodes) && AllProcessed(sna.nodes)
    {
      sna.SetMark(n, sna.nodes[n].mark.(index := index, lowlink := index, status := InStack));
      index := index + 1;
      controlStack := controlStack + [n];
      tarjanStack := tarjanStack + [n];
    }

    method UpdateLowLink(n: nat, i: int)
      requires n < |sna.nodes| && AllProcessed(sna.nodes)
      modifies sna`nodes
      ensures MarksOf(sna.nodes) == old(MarksOf(sna.nodes))[n := old(sna.nodes[n].mark).(lowlink := Min(old(sna.nodes[n].mark).lowlink, i))]
      ensures G() == old(G()) && OnlyMarks(old(sna.nodes), sna.nodes) && AllProcessed(sna.nodes)
    {
      var m := sna.nodes[n].mark;
      sna.SetMark(n, m.(lowlink := Min(m.lowlink, i)));
    }

    /** Pops the component stack down to n. */
    method PopComponent(n: nat, ghost pos: nat) returns (scc: seq<nat>)
      requires pos < |tarjanStack| && tarjanStack[pos] == n && AllProcessed(sna.nodes)
      requires forall i, j | 0 <= i < j < |tarjanStack| :: tarjanStack[i] != tarjanStack[j]
      requires forall i | 0 <= i < |tarjanStack| :: tarjanStack[i] < |sna.nodes|
      modifies this`tarjanStack, sna`nodes
      ensures tarjanStack == old(tarjanStack)[..pos]
      ensures |scc| == |old(tarjanStack)| - pos
      ensures forall i | 0 <= i < |scc| :: scc[i] == old(tarjanStack)[|old(tarjanStack)| - 1 - i]
      ensures G() == old(G()) && OnlyMarks(old(sna.nodes), sna.nodes) && AllProcessed(sna.nodes) && |sna.nodes| == |old(sna.nodes)|
      ensures forall x: nat | x < |sna.nodes| && x !in old(tarjanStack)[pos..] :: sna.nodes[x].mark == old(sna.nodes[x].mark)
      ensures forall x: nat | x < |sna.nodes| && x in old(tarjanStack)[pos..] ::
                sna.nodes[x].mark == old(sna.nodes[x].mark).(status := Complete)
    {
      hide GraphOf, Succ, AllProcessed, IsProcessed, MarksOf;
      scc := [];
      ghost var S := tarjanStack;
      var more := true;
      while more
        invariant pos - 1 + (if more then 1 else 0) <= |tarjanStack| <= |S| && tarjanStack == S[..|tarjanStack|]
        invariant more ==> |tarjanStack| > pos
        invariant !more ==> |tarjanStack| == pos
        invariant |scc| == |S| - |tarjanStack|
        invariant forall i | 0 <= i < |scc| :: scc[i] == S[|S| - 1 - i]
        invariant G() == old(G()) && OnlyMarks(old(sna.nodes), sna.nodes) && AllProcessed(sna.nodes) && |sna.nodes| == |old(sna.nodes)|
        invariant forall x: nat | x < |sna.nodes| && x !in S[|tarjanStack|..] :: sna.nodes[x].mark == old(sna.nodes[x].mark)
        invariant forall x: nat | x < |sna.nodes| && x in S[|tarjanStack|..] ::
                    sna.nodes[x].mark == old(sna.nodes[x].mark).(status := Complete)
        decreases |tarjanStack|
      {
        ghost var top := |tarjanStack| - 1;
        var w := tarjanStack[|tarjanStack| - 1];
        tarjanStack := tarjanStack[..|tarjanStack| - 1];
        assert S[top..] == [w] + S[top + 1..];
        sna.SetMark(w, sna.nodes[w].mark.(status := Complete));
        scc := scc + [w];
        more := w != n;
      }
    }

    /** Looks at a child of the top node. */
    method ScanChild(n: nat, c: nat, ghost s: Snap, ghost comps: seq<set<nat>>, ghost starts: seq<nat>)
      requires AllProcessed(sna.nodes) && Inv(G(), s, comps, starts) && s.control != [] && n == s.Top()
      requires s.marks[n].procChild < |G()[n]| && c == G()[n][s.marks[n].procChild] && Now() == NextChild(s, n)
      modifies this, sna`nodes
      ensures AllProcessed(sna.nodes) && G() == old(G()) && Inv(G(), Now(), comps, starts)
      ensures OnlyMarks(old(sna.nodes), sna.nodes)
      ensures SameProgress(old(Now()), Now())
    {
      ghost var g := G();
      if sna.nodes[c].mark.status.Unseen? {
        AddNode(c);
        DiscoverStep(g, s, n, c, Now(), comps, starts);
      } else {
        if sna.nodes[c].mark.status.InStack? {
          UpdateLowLink(n, sna.nodes[c].mark.index);
        }
        assert Rescanned(g, s, n, c, Now());
        RescanStep(g, s, n, c, Now(), comps, starts);
      }
    }

    /** Leaves the top node.  A component is returned, newest member first, when it is complete. */
    method LeaveTop(n: nat, ghost pos: nat) returns (scc: seq<nat>)
      requires AllProcessed(sna.nodes) && controlStack != [] && n == controlStack[|controlStack| - 1] < |sna.nodes|
      requires sna.nodes[n].mark.status.InStack? && sna.nodes[n].mark.procChild == |G()[n]|
      requires pos < |tarjanStack| && tarjanStack[pos] == n
      requires forall i, j | 0 <= i < j < |tarjanStack| :: tarjanStack[i] != tarjanStack[j]
      requires forall i | 0 <= i < |tarjanStack| :: tarjanStack[i] < |sna.nodes|
      requires |controlStack| > 1 ==>
                 && controlStack[|controlStack| - 2] < |sna.nodes| && controlStack[|controlStack| - 2] != n
                 && (Now().Low(n) == Now().Idx(n) ==> Now().Low(controlStack[|controlStack| - 2]) <= Now().Low(n))
      modifies this, sna`nodes
      ensures AllProcessed(sna.nodes) && G() == old(G()) && OnlyMarks(old(sna.nodes), sna.nodes)
      ensures if old(Now().Low(n)) == old(Now().Idx(n))
              then Completed(G(), old(Now()), n, pos, Now())
                   && |scc| == |old(tarjanStack)| - pos
                   && forall i | 0 <= i < |scc| :: scc[i] == old(tarjanStack)[|old(tarjanStack)| - 1 - i]
              else scc == [] && Left(G(), old(Now()), n, Now())
      ensures SameProgress(old(Now()), Now()) && |controlStack| == |old(controlStack)| - 1
    {
      hide GraphOf, Succ, AllProcessed, IsProcessed, MarksOf, OnlyMarks;
      ghost var nodes0 := sna.nodes;
      OnlyMarksRefl(nodes0);
      controlStack := controlStack[..|controlStack| - 1];
      if controlStack != [] {
        UpdateLowLink(controlStack[|controlStack| - 1], sna.nodes[n].mark.lowlink);
      }
      scc := [];
      if sna.nodes[n].mark.lowlink == sna.nodes[n].mark.index {
        ghost var nodes1 := sna.nodes;
        assert MarksOf(nodes1) == MarksOf(nodes0);
        scc := PopComponent(n, pos);
        OnlyMarksTrans(nodes0, nodes1, sna.nodes);
      }
    }

    /** Leaves the top node and adds the component that this completes, if any, to the report. */
    method Retire(loops: seq<seq<nat>>, ghost found: seq<set<nat>>, ghost s0: Snap, ghost startNode: nat,
                  ghost restart: bool, ghost comps: seq<set<nat>>, ghost starts: seq<nat>)
      returns (loops': seq<seq<nat>>, ghost found': seq<set<nat>>)
      requires AllProcessed(sna.nodes) && Exploring(G(), s0, startNode, restart, Now(), comps + found, starts)
      requires controlStack != [] && Now().Top() < |G()|
      requires Now().marks[Now().Top()].procChild == |G()[Now().Top()]|
      requires Reported(G(), loops, found) && (restart ==> found == [])
      modifies this, sna`nodes
      ensures AllProcessed(sna.nodes) && G() == old(G()) && SameProgress(old(Now()), Now())
      ensures OnlyMarks(old(sna.nodes), sna.nodes)
      ensures Inv(G(), Now(), comps + found', starts) && Reported(G(), loops', found')
      ensures |controlStack| == |old(controlStack)| - 1
    {
      hide Inv, Completed, Left, TarjanScc.AddNode, Reported, SameProgress, Remaining, OnlyMarks, MarksOf, GraphOf, Succ, IsProcessed, AllProcessed;
      ghost var g, s := G(), Now();
      ExploringTop(g, s0, startNode, restart, s, comps + found, starts);
      var n := controlStack[|controlStack| - 1];
      ghost var pos := 0;
      if !restart {
        pos := LeaveReady(g, s, n, comps + found, starts);
      }
      var scc := LeaveTop(n, pos);
      loops' := if |scc| > 1 then loops + [Reversed(scc)] else loops;
      if restart {
        RestartStep(g, s0, startNode, Now(), comps + found, starts);
        found' := found;
      } else {
        ghost var added := LeaveInv(g, s, n, pos, Now(), scc, comps + found, starts);
        Report(g, loops, found, Reversed(scc), added);
        assert (comps + found) + added == comps + (found + added);
        found' := found + added;
      }
    }

    /** The components of more than one node that are reached from the start node and were not
        complete before, one after the other as they complete.  found lists all new components. */
    method GetLoops(startNode: nat, ghost comps: seq<set<nat>>, ghost starts: seq<nat>)
      returns (loops: seq<seq<nat>>, ghost found: seq<set<nat>>)
      requires Idle(comps, starts) && startNode < |sna.nodes| && startNode in starts
      modifies this, sna`nodes
      ensures Idle(comps + found, starts) && G() == old(G()) && OnlyMarks(old(sna.nodes), sna.nodes)
      ensures Now().Done(startNode) && DoneKept(old(Now()), Now(), startNode)
      ensures Reported(G(), loops, found)
    {
      hide Inv, Completed, Left, TarjanScc.AddNode, Reported, SameProgress, Remaining, OnlyMarks, MarksOf, GraphOf, Succ, IsProcessed, AllProcessed, DoneKept;
      loops, found := [], [];
      ghost var g, s0 := G(), Now();
      ghost var restart := s0.Done(startNode);
      AddNode(startNode);
      NewMarks(g, s0, startNode, comps, starts);
      if !restart {
        StartStep(g, s0, startNode, comps, starts);
      }
      while |controlStack| > 0
        invariant AllProcessed(sna.nodes) && G() == g && OnlyMarks(old(sna.nodes), sna.nodes)
        invariant Exploring(g, s0, startNode, restart, Now(), comps + found, starts)
        invariant restart ==> found == []
        invariant !Now().marks[startNode].status.Unseen?
        invariant DoneKept(s0, Now(), startNode) && Reported(g, loops, found)
        decreases Remaining(g, Now().marks, |g|), |controlStack|
      {
        ghost var s, nodes0 := Now(), sna.nodes;
        ExploringTop(g, s0, startNode, restart, s, comps + found, starts);
        var n := controlStack[|controlStack| - 1];
        var c := sna.GetNextChild(n);
        ghost var nodes1 := sna.nodes;
        OnlyMarksTrans(old(sna.nodes), nodes0, nodes1);
        if c.SomeNode? {
          RemainingStep(g, s.marks, n, |g|);
          ghost var scanning := Now();
          assert DoneKept(s0, scanning, startNode) by { ScanKept(s0, s, n, startNode); }
          ScanChild(n, c.n, s, comps + found, starts);
          ProgressKept(g, s0, scanning, Now(), startNode);
        } else {
          loops, found := Retire(loops, found, s0, startNode, restart, comps, starts);
          restart := false;
          ProgressKept(g, s0, s, Now(), startNode);
        }
        OnlyMarksTrans(old(sna.nodes), nodes1, sna.nodes);
      }
      StackEmpty(g, Now(), comps + found, starts);
    }
  }

  /** Nothing was scanned in between, and nothing was forgotten. */
  ghost predicate SameProgress(s: Snap, s': Snap) {
    |s'.marks| == |s.marks| && forall x | 0 <= x < |s.marks| ::
      && s'.marks[x].procChild == s.marks[x].procChild
      && (s'.marks[x].status.Unseen? ==> s.marks[x].status.Unseen?)
      && (s.marks[x].status.Complete? ==> s'.marks[x].status.Complete?)
  }

  ghost predicate IsLoopList(G: Graph, xs: seq<nat>) {
    |xs| > 1 && (forall i | 0 <= i < |xs| :: xs[i] < |G|) && forall i, j | 0 <= i < j < |xs| :: xs[i] != xs[j]
  }

  function Reversed(xs: seq<nat>): (r: seq<nat>)
    ensures |r| == |xs| && forall i | 0 <= i < |r| :: r[i] == xs[|xs| - 1 - i]
  {
    seq(|xs|, i requires 0 <= i < |xs| => xs[|xs| - 1 - i])
  }

  /** The loops are the components of more than one node among those found, in order. */
  ghost predicate Reported(G: Graph, loops: seq<seq<nat>>, found: seq<set<nat>>) {
    MemberSets(loops) == Big(found) && forall i | 0 <= i < |loops| :: IsLoopList(G, loops[i])
  }

  ghost predicate DoneKept(s: Snap, s': Snap, start: nat) {
    forall x: nat | s.Done(x) && x != start :: s'.Done(x)
  }

  lemma ProgressKept(G: Graph, s0: Snap, s: Snap, s': Snap, start: nat)
    requires SameProgress(s, s') && DoneKept(s0, s, start) && |G| == |s.marks| && start < |G|
    requires !s.marks[start].status.Unseen?
    ensures DoneKept(s0, s', start) && !s'.marks[start].status.Unseen?
    ensures Remaining(G, s'.marks, |G|) == Remaining(G, s.marks, |G|)
  {
    RemainingSame(G, s.marks, s'.marks, |G|);
  }

  lemma ScanKept(s0: Snap, s: Snap, n: nat, start: nat)
    requires n < |s.marks| && DoneKept(s0, s, start)
    ensures DoneKept(s0, NextChild(s, n), start)
  {
  }

  lemma Report(G: Graph, loops: seq<seq<nat>>, found: seq<set<nat>>, scc: seq<nat>, added: seq<set<nat>>)
    requires Reported(G, loops, found)
    requires |scc| <= 1 ==> added == [] || (|added| == 1 && |added[0]| <= 1)
    requires |scc| > 1 ==> added == [Members(scc)] && IsLoopList(G, scc)
    ensures Reported(G, if |scc| > 1 then loops + [scc] else loops, found + added)
  {
    if added == [] {
      assert found + added == found;
    } else {
      BigAppend(found, added[0]);
      assert added == [added[0]];
      if |scc| > 1 {
        DistinctMembers(scc);
        assert MemberSets(loops + [scc]) == MemberSets(loops) + [Members(scc)];
      }
    }
  }

  lemma BigAppend(comps: seq<set<nat>>, c: set<nat>)
    ensures Big(comps + [c]) == Big(comps) + if |c| > 1 then [c] else []
  {
    assert (comps + [c])[..|comps|] == comps;
  }

  /** The top node and where it lies on the component stack. */
  lemma LeaveReady(G: Graph, s: Snap, n: nat, comps: seq<set<nat>>, starts: seq<nat>) returns (pos: nat)
    requires Inv(G, s, comps, starts) && s.control != [] && n == s.Top()
    ensures s.In(n) && pos < |s.stack| && s.stack[pos] == n
    ensures forall i, j | 0 <= i < j < |s.stack| :: s.stack[i] != s.stack[j]
    ensures forall i | 0 <= i < |s.stack| :: s.stack[i] < |G|
    ensures |s.control| > 1 ==> var p := s.control[|s.control| - 2];
      p < |G| && p != n && (s.Low(n) == s.Idx(n) ==> s.Low(p) <= s.Low(n))
  {
    hide Reach, IsScc, DownReach, UpReach, LowComplete, CompsOk, DoneClosed, Scanned, SeenReached;
    assert n in s.stack;
    pos :| 0 <= pos < |s.stack| && s.stack[pos] == n;
    if |s.control| > 1 {
      var m := LowNode(G, s, |s.control| - 2);
    }
  }

  /** What leaving the top node does to the invariant, and the component it completes. */
  lemma LeaveInv(G: Graph, s: Snap, n: nat, pos: nat, s': Snap, scc: seq<nat>, comps: seq<set<nat>>, starts: seq<nat>)
    returns (added: seq<set<nat>>)
    requires Inv(G, s, comps, starts)
    requires pos < |s.stack| && s.stack[pos] == n && n < |G|
    requires forall i, j | 0 <= i < j < |s.stack| :: s.stack[i] != s.stack[j]
    requires forall i | 0 <= i < |s.stack| :: s.stack[i] < |G|
    requires if s.Low(n) == s.Idx(n)
             then Completed(G, s, n, pos, s') && |scc| == |s.stack| - pos
                  && forall i | 0 <= i < |scc| :: scc[i] == s.stack[|s.stack| - 1 - i]
             else scc == [] && Left(G, s, n, s')
    ensures Inv(G, s', comps + added, starts)
    ensures |scc| <= 1 ==> added == [] || (|added| == 1 && |added[0]| <= 1)
    ensures |scc| > 1 ==> added == [Members(Reversed(scc))] && IsLoopList(G, Reversed(scc))
  {
    hide Inv;
    if s.Low(n) == s.Idx(n) {
      CompleteStep(G, s, n, pos, s', comps, starts);
      added := [Members(s.stack[pos..])];
      assert Reversed(scc) == s.stack[pos..];
      DistinctMembers(s.stack[pos..]);
      assert added[..0] == [];
    } else {
      LeaveStep(G, s, n, s', comps, starts);
      added := [];
      assert comps + added == comps;
    }
  }

  /** A start node that is already complete is put back on both stacks until its first visit. */
  ghost predicate Exploring(G: Graph, s0: Snap, start: nat, restart: bool, s: Snap, comps: seq<set<nat>>, starts: seq<nat>) {
    if restart
    then Inv(G, s0, comps, starts) && s0.control == [] && s0.stack == [] && s0.Done(start)
      && s == AddNode(s0, start) && s.control == [start]
    else Inv(G, s, comps, starts)
  }

  lemma ExploringTop(G: Graph, s0: Snap, start: nat, restart: bool, s: Snap, comps: seq<set<nat>>, starts: seq<nat>)
    requires Exploring(G, s0, start, restart, s, comps, starts) && s.control != []
    ensures |s.marks| == |G| && s.Top() < |G| && Remaining(G, s.marks, |G|) >= 0
    ensures s.marks[s.Top()].procChild <= |G[s.Top()]|
    ensures restart ==> s.Top() == start && s.stack == [start] == s.control && s.marks[start].procChild == |G[start]|
    ensures restart ==> s.In(start) && s.Low(start) == s.Idx(start)
  {
    hide Reach;
    RemainingNonNegative(G, s.marks, |G|);
  }

  lemma RestartStep(G: Graph, s: Snap, n: nat, s': Snap, comps: seq<set<nat>>, starts: seq<nat>)
    requires Inv(G, s, comps, starts) && s.control == [] && s.stack == [] && s.Done(n)
    requires Completed(G, AddNode(s, n), n, 0, s')
    ensures Inv(G, s', comps, starts)
    ensures forall x: nat | s.Done(x) :: s'.Done(x)
  {
    hide Reach, IsScc;
    assert AddNode(s, n).stack[0..] == [n];
    assert s'.control == [] && s'.stack == [];
    assert forall x: nat | x < |G| :: s'.marks[x] == s.marks[x] || (x == n && s'.marks[x].procChild == s.marks[x].procChild
                                                                  && s'.marks[x].status == s.marks[x].status);
    assert forall x: nat :: !s.In(x) && !s'.In(x) && s'.Done(x) == s.Done(x);
  }

  lemma NewMarks(G: Graph, s: Snap, n: nat, comps: seq<set<nat>>, starts: seq<nat>)
    requires Inv(G, s, comps, starts) && s.control == [] && s.stack == [] && n < |G|
    ensures AddNode(s, n).control == [n]
    ensures s.Done(n) || s.marks[n].status.Unseen?
    ensures AddNode(s, n).In(n) && DoneKept(s, AddNode(s, n), n)
    ensures comps + [] == comps && Reported(G, [], [])
  {
    hide Reach;
    assert s.In(n) ==> n in s.stack;
  }

  /** With nothing under exploration, the component stack is empty too. */
  lemma StackEmpty(G: Graph, s: Snap, comps: seq<set<nat>>, starts: seq<nat>)
    requires Inv(G, s, comps, starts) && s.control == []
    ensures s.stack == [] && forall x: nat | x < |G| && !s.marks[x].status.Unseen? :: s.Done(x)
  {
    hide Reach;
    assert |s.stack| > 0 ==> s.In(s.stack[0]);
    forall x: nat ensures !s.In(x) {
      if s.In(x) {
        var k := UpWitness(G, s, x);
      }
    }
    forall x: nat | x < |G| && !s.marks[x].status.Unseen? ensures s.Done(x) {
      assert !s.In(x);
    }
  }

  /** How many children of the first k nodes are still to be scanned. */
  ghost function Remaining(G: Graph, marks: seq<Mark>, k: nat): int
    requires k <= |G| == |marks|
  {
    if k == 0 then 0 else Remaining(G, marks, k - 1) + |G[k - 1]| - marks[k - 1].procChild
  }

  lemma {:induction false} RemainingSame(G: Graph, m: seq<Mark>, m': seq<Mark>, k: nat)
    requires k <= |G| == |m| == |m'| && forall x | 0 <= x < k :: m'[x].procChild == m[x].procChild
    ensures Remaining(G, m', k) == Remaining(G, m, k)
  {
    if k > 0 {
      RemainingSame(G, m, m', k - 1);
    }
  }

  lemma {:induction false} RemainingNonNegative(G: Graph, m: seq<Mark>, k: nat)
    requires k <= |G| == |m| && forall x | 0 <= x < k :: m[x].procChild <= |G[x]|
    ensures Remaining(G, m, k) >= 0
  {
    if k > 0 {
      RemainingNonNegative(G, m, k - 1);
    }
  }

  lemma {:induction false} RemainingStep(G: Graph, m: seq<Mark>, n: nat, k: nat)
    requires n < k <= |G| == |m|
    ensures Remaining(G, m[n := m[n].(procChild := m[n].procChild + 1)], k) == Remaining(G, m, k) - 1
  {
    var m' := m[n := m[n].(procChild := m[n].procChild + 1)];
    if n == k - 1 {
      RemainingSame(G, m, m', k - 1);
    } else {
      RemainingStep(G, m, n, k - 1);
    }
  }

  // ----- all loops -----

  /** The loops are exactly the strongly connected components of more than one node that the
      start nodes reach, each listed once. */
  ghost predicate LoopsExact(G: Graph, starts: seq<nat>, loops: seq<seq<nat>>) {
    && (forall i | 0 <= i < |loops| :: IsLoopList(G, loops[i]) && IsScc(G, Members(loops[i])))
    && (forall i, x | 0 <= i < |loops| && x in loops[i] :: ReachFrom(G, starts, x))
    && (forall i, j | 0 <= i < j < |loops| :: Members(loops[i]) !! Members(loops[j]))
    && (forall x: nat, y: nat | ReachFrom(G, starts, x) && x != y && Reach(G, x, y) && Reach(G, y, x) :: OnALoop(loops, x, y))
  }

  ghost predicate OnALoop(loops: seq<seq<nat>>, x: nat, y: nat) {
    exists i | 0 <= i < |loops| :: x in loops[i] && y in loops[i]
  }

  lemma {:induction false} ReportedMore(G: Graph, loops: seq<seq<nat>>, found: seq<set<nat>>, loops': seq<seq<nat>>, found': seq<set<nat>>)
    requires Reported(G, loops, found) && Reported(G, loops', found')
    ensures Reported(G, loops + loops', found + found')
  {
    BigConcat(found, found');
    assert MemberSets(loops + loops') == MemberSets(loops) + MemberSets(loops');
  }

  lemma {:induction false} BigConcat(a: seq<set<nat>>, b: seq<set<nat>>)
    ensures Big(a + b) == Big(a) + Big(b)
    decreases |b|
  {
    if b == [] {
      assert a + b == a;
    } else {
      var b', c := b[..|b| - 1], b[|b| - 1];
      BigConcat(a, b');
      assert a + b == (a + b') + [c] && b == b' + [c];
      BigAppend(a + b', c);
      BigAppend(b', c);
    }
  }

  lemma AllLoopsFound(G: Graph, s: Snap, comps: seq<set<nat>>, starts: seq<nat>, loops: seq<seq<nat>>)
    requires Inv(G, s, comps, starts) && s.control == [] && Reported(G, loops, comps)
    requires forall i | 0 <= i < |starts| :: s.Done(starts[i])
    ensures LoopsExact(G, starts, loops)
  {
    BigContains(comps);
    hide Reach, Big, IsScc, ReachFrom;
    forall i | 0 <= i < |loops| ensures IsScc(G, Members(loops[i])) && forall x | x in loops[i] :: ReachFrom(G, starts, x) {
      assert MemberSets(loops)[i] == Members(loops[i]);
      var k :| 0 <= k < |comps| && comps[k] == Members(loops[i]);
      forall x | x in loops[i] ensures ReachFrom(G, starts, x) {
        MemberReached(G, s, comps, starts, k, x);
      }
    }
    forall i, j | 0 <= i < j < |loops| ensures Members(loops[i]) !! Members(loops[j]) {
      assert MemberSets(loops)[i] == Members(loops[i]) && MemberSets(loops)[j] == Members(loops[j]);
    }
    forall x: nat, y: nat | ReachFrom(G, starts, x) && x != y && Reach(G, x, y) && Reach(G, y, x) ensures OnALoop(loops, x, y) {
      PairFound(G, s, comps, starts, loops, x, y);
    }
  }

  lemma MemberReached(G: Graph, s: Snap, comps: seq<set<nat>>, starts: seq<nat>, k: nat, x: nat)
    requires Inv(G, s, comps, starts) && k < |comps| && x in comps[k]
    ensures ReachFrom(G, starts, x) && IsScc(G, comps[k])
  {
    hide Reach, IsScc, ReachFrom;
    assert s.Done(x);
  }

  lemma DoneInComponent(G: Graph, s: Snap, comps: seq<set<nat>>, starts: seq<nat>, x: nat) returns (k: nat)
    requires Inv(G, s, comps, starts) && ReachFrom(G, starts, x)
    requires forall i | 0 <= i < |starts| :: s.Done(starts[i])
    ensures k < |comps| && x in comps[k]
  {
    var i :| 0 <= i < |starts| && Reach(G, starts[i], x);
    hide Reach, IsScc, ReachFrom;
    DoneStaysDone(G, s, starts[i], x);
    k :| 0 <= k < |comps| && x in comps[k];
  }

  lemma PairFound(G: Graph, s: Snap, comps: seq<set<nat>>, starts: seq<nat>, loops: seq<seq<nat>>, x: nat, y: nat)
    requires Inv(G, s, comps, starts) && MemberSets(loops) == Big(comps)
    requires forall i | 0 <= i < |starts| :: s.Done(starts[i])
    requires ReachFrom(G, starts, x) && x != y && Reach(G, x, y) && Reach(G, y, x)
    ensures OnALoop(loops, x, y)
  {
    hide Inv, Reach, ReachFrom, Big;
    var k := DoneInComponent(G, s, comps, starts, x);
    MemberReached(G, s, comps, starts, k, x);
    assert y in comps[k];
    assert {x, y} <= comps[k];
    SubsetSize({x, y}, comps[k]);
    BigContains(comps);
    var j :| 0 <= j < |Big(comps)| && Big(comps)[j] == comps[k];
    assert x in Members(loops[j]) && y in Members(loops[j]);
  }

  predicate AllClear(nodes: seq<SubstNode>) {
    forall i | 0 <= i < |nodes| :: nodes[i].mark == CLEAR
  }

  lemma FreshStart(nodes: seq<SubstNode>, starts: seq<nat>)
    requires AllClear(nodes) && Wf(GraphOf(nodes))
    ensures Inv(GraphOf(nodes), Snap(MarksOf(nodes), [], [], 0), [], starts)
  {
    hide Reach;
  }

  lemma ReportedNone(G: Graph)
    ensures Reported(G, [], [])
  {
  }
}
