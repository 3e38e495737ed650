/** Strongly connected components of the substitution graph by Tarjan's algorithm with an
    explicit control stack. */
module TarjanScc {
  import opened Graphs

  datatype NStatus = InStack | Complete | Unseen

  /** The fields of a node that the algorithm writes. */
  datatype Mark = Mark(procChild: nat, index: int, lowlink: int, status: NStatus)

  const CLEAR := Mark(0, -1, -1, Unseen)

  function Min(a: int, b: int): int {
    if a < b then a else b
  }

  /** A snapshot of the algorithm: marks of all nodes, control stack, component stack, counter. */
  datatype Snap = Snap(marks: seq<Mark>, control: seq<nat>, stack: seq<nat>, index: int)
  {
    predicate In(x: nat) {
      x < |marks| && marks[x].status.InStack?
    }

    predicate Done(x: nat) {
      x < |marks| && marks[x].status.Complete?
    }

    function Idx(x: nat): int
      requires x < |marks|
    {
      marks[x].index
    }

    function Low(x: nat): int
      requires x < |marks|
    {
      marks[x].lowlink
    }

    function Top(): nat
      requires control != []
    {
      control[|control| - 1]
    }
  }

  ghost predicate Shape(G: Graph, s: Snap) {
    && Wf(G) && |s.marks| == |G|
    && (forall i | 0 <= i < |s.stack| :: s.In(s.stack[i]))
    && (forall x: nat | s.In(x) :: x in s.stack)
    && (forall i, j | 0 <= i < j < |s.stack| :: s.Idx(s.stack[i]) < s.Idx(s.stack[j]))
    && (forall x: nat | s.In(x) :: 0 <= s.Idx(x) < s.index)
    && 0 <= s.index
  }

  ghost predicate ControlOk(G: Graph, s: Snap)
    requires |s.marks| == |G|
  {
    && (forall k | 0 <= k < |s.control| :: s.In(s.control[k]))
    && (forall j, k | 0 <= j < k < |s.control| :: s.Idx(s.control[j]) < s.Idx(s.control[k]))
  }

  /** How far the children of each node have been scanned. */
  ghost predicate Scanned(G: Graph, s: Snap)
    requires Wf(G) && |s.marks| == |G|
  {
    && (forall x: nat | x < |G| :: s.marks[x].procChild <= |G[x]|)
    && (forall x: nat | x < |G| && s.marks[x].status.Unseen? :: s.marks[x].procChild == 0)
    && (forall x: nat | x < |G| && !s.marks[x].status.Unseen? && x !in s.control :: s.marks[x].procChild == |G[x]|)
    && (forall x: nat, j: nat | x < |G| && j < s.marks[x].procChild :: !s.marks[G[x][j]].status.Unseen?)
  }

  /** Finished components are closed under edges. */
  ghost predicate DoneClosed(G: Graph, s: Snap)
    requires Wf(G) && |s.marks| == |G|
  {
    forall x: nat, j: nat | s.Done(x) && j < |G[x]| :: s.Done(G[x][j])
  }

  /** Older nodes on the stack reach newer ones. */
  ghost predicate DownReach(G: Graph, s: Snap)
    requires |s.marks| == |G|
  {
    forall x: nat, y: nat {:trigger Reach(G, x, y)} | s.In(x) && s.In(y) && s.Idx(x) <= s.Idx(y) :: Reach(G, x, y)
  }

  ghost predicate ReachesControl(G: Graph, s: Snap, y: nat)
    requires |s.marks| == |G| && y < |G|
  {
    exists k | 0 <= k < |s.control| && s.control[k] < |G| :: s.Idx(s.control[k]) <= s.Idx(y) && Reach(G, y, s.control[k])
  }

  /** Every node on the stack reaches a node under exploration that is not newer. */
  ghost predicate UpReach(G: Graph, s: Snap)
    requires |s.marks| == |G|
  {
    forall y: nat {:trigger ReachesControl(G, s, y)} | s.In(y) :: ReachesControl(G, s, y)
  }

  ghost predicate LowWitness(G: Graph, s: Snap, n: nat)
    requires |s.marks| == |G| && n < |G|
  {
    s.Low(n) <= s.Idx(n) && exists m: nat :: s.In(m) && s.Idx(m) == s.Low(n) && Reach(G, n, m)
  }

  /** A low link is the index of a node on the stack that is reached. */
  ghost predicate LowSound(G: Graph, s: Snap)
    requires |s.marks| == |G|
  {
    forall k {:trigger LowWitness(G, s, s.control[k])} | 0 <= k < |s.control| && s.control[k] < |G| ::
      LowWitness(G, s, s.control[k])
  }

  /** x was discovered while control[k] was the newest of the nodes now under exploration. */
  ghost predicate InSegment(s: Snap, k: nat, x: nat)
    requires k < |s.control|
  {
    && s.In(x) && s.control[k] < |s.marks| && s.Idx(s.control[k]) <= s.Idx(x)
    && (k + 1 < |s.control| ==> s.control[k + 1] < |s.marks| && s.Idx(x) < s.Idx(s.control[k + 1]))
  }

  /** A low link is at most the index of every scanned child, on the stack, of its segment. */
  ghost predicate LowComplete(G: Graph, s: Snap)
    requires Wf(G) && |s.marks| == |G|
  {
    forall k: nat, x: nat, j: nat | k < |s.control| && InSegment(s, k, x) && j < s.marks[x].procChild && j < |G[x]| && s.In(G[x][j]) ::
      s.Low(s.control[k]) <= s.Idx(G[x][j])
  }

  /** The components finished so far: each is strongly connected and maximal, none is listed
      twice, and together they are exactly the finished nodes. */
  ghost predicate CompsOk(G: Graph, s: Snap, comps: seq<set<nat>>)
    requires |s.marks| == |G|
  {
    && (forall i | 0 <= i < |comps| :: IsScc(G, comps[i]))
    && (forall i, x: nat | 0 <= i < |comps| && x in comps[i] :: s.Done(x))
    && (forall x: nat | s.Done(x) :: exists i | 0 <= i < |comps| :: x in comps[i])
    && (forall i, j | 0 <= i < j < |comps| :: comps[i] !! comps[j])
  }

  ghost predicate SeenReached(G: Graph, s: Snap, starts: seq<nat>)
    requires |s.marks| == |G|
  {
    forall x: nat | x < |G| && !s.marks[x].status.Unseen? :: ReachFrom(G, starts, x)
  }

  ghost predicate Inv(G: Graph, s: Snap, comps: seq<set<nat>>, starts: seq<nat>) {
    && Shape(G, s) && ControlOk(G, s) && Scanned(G, s) && DoneClosed(G, s)
    && DownReach(G, s) && UpReach(G, s) && LowSound(G, s) && LowComplete(G, s)
    && CompsOk(G, s, comps) && SeenReached(G, s, starts)
  }

  // ----- the steps of the algorithm -----

  function AddNode(s: Snap, n: nat): Snap
    requires n < |s.marks|
  {
    s.(marks := s.marks[n := s.marks[n].(index := s.index, lowlink := s.index, status := InStack)],
       control := s.control + [n], stack := s.stack + [n], index := s.index + 1)
  }

  function NextChild(s: Snap, n: nat): Snap
    requires n < |s.marks|
  {
    s.(marks := s.marks[n := s.marks[n].(procChild := s.marks[n].procChild + 1)])
  }

  /** What changes when an exploration starts at n, with both stacks empty. */
  ghost predicate Started(G: Graph, s: Snap, n: nat, s': Snap) {
    && |s.marks| == |G| == |s'.marks| && n < |G| && s.marks[n].status.Unseen?
    && s'.control == [n] && s'.stack == [n] && s'.index == s.index + 1
    && s'.In(n) && s'.Idx(n) == s'.Low(n) == s.index && s'.marks[n].procChild == s.marks[n].procChild
    && (forall x: nat | x < |G| && x != n :: s'.marks[x] == s.marks[x] && !s'.In(x))
  }

  lemma StartStep(G: Graph, s: Snap, n: nat, comps: seq<set<nat>>, starts: seq<nat>)
    requires Inv(G, s, comps, starts) && s.control == [] && s.stack == []
    requires n < |G| && s.marks[n].status.Unseen? && n in starts
    ensures Inv(G, AddNode(s, n), comps, starts)
  {
    var s' := AddNode(s, n);
    hide Reach;
    StartedFacts(G, s, n);
    StartStacks(G, s, n, s');
    StartRest(G, s, n, s', comps, starts);
  }

  lemma StartedFacts(G: Graph, s: Snap, n: nat)
    requires Shape(G, s) && s.control == [] && s.stack == [] && n < |G| && s.marks[n].status.Unseen?
    ensures Started(G, s, n, AddNode(s, n))
  {
    var s' := AddNode(s, n);
    assert [] + [n] == [n];
    forall x: nat | x < |G| && x != n ensures s'.marks[x] == s.marks[x] && !s'.In(x) {
      assert s.In(x) ==> x in s.stack;
    }
  }

  lemma StartStacks(G: Graph, s: Snap, n: nat, s': Snap)
    requires Started(G, s, n, s') && Shape(G, s) && Scanned(G, s) && s.control == []
    ensures Shape(G, s') && ControlOk(G, s') && Scanned(G, s')
    ensures DownReach(G, s') && UpReach(G, s') && LowSound(G, s') && LowComplete(G, s')
  {
    hide Reach;
    ReachRefl(G, n);
    assert ReachesControl(G, s', n) by { assert s'.control[0] == n; }
    assert LowWitness(G, s', n) by { assert s'.In(n); }
  }

  lemma StartRest(G: Graph, s: Snap, n: nat, s': Snap, comps: seq<set<nat>>, starts: seq<nat>)
    requires Started(G, s, n, s') && Wf(G) && DoneClosed(G, s) && CompsOk(G, s, comps) && SeenReached(G, s, starts) && n in starts
    ensures DoneClosed(G, s') && CompsOk(G, s', comps) && SeenReached(G, s', starts)
  {
    hide Reach, IsScc;
    assert forall x: nat :: s'.Done(x) == s.Done(x);
    ReachRefl(G, n);
    assert ReachFrom(G, starts, n) by {
      var i :| 0 <= i < |starts| && starts[i] == n;
    }
  }

  /** What changes when the next child c of the top node n is discovered. */
  ghost predicate Discovered(G: Graph, s: Snap, n: nat, c: nat, s': Snap) {
    && |s.marks| == |G| && n < |G| && s.marks[n].procChild < |G[n]| && c < |G| && c == G[n][s.marks[n].procChild]
    && s.control != [] && n == s.Top() && s.marks[c].status.Unseen? && s.In(n)
    && s' == AddNode(NextChild(s, n), c)
  }

  lemma DiscoveredMarks(G: Graph, s: Snap, n: nat, c: nat, s': Snap)
    requires Discovered(G, s, n, c, s')
    ensures |s'.marks| == |G| && c != n && s'.In(c) && s'.Idx(c) == s'.Low(c) == s.index
    ensures forall x: nat | x < |G| && x != c :: s'.Idx(x) == s.Idx(x) && s'.Low(x) == s.Low(x) && s'.In(x) == s.In(x)
    ensures forall x: nat | x < |G| && x != n :: s'.marks[x].procChild == s.marks[x].procChild
    ensures s'.marks[n].procChild == s.marks[n].procChild + 1
    ensures forall x: nat :: s'.Done(x) == s.Done(x)
    ensures s'.control == s.control + [c] && s'.stack == s.stack + [c] && s'.index == s.index + 1
    ensures |s.marks| == |G| && n < |G| && c < |G| && s.control != [] && n == s.control[|s.control| - 1] && s.In(n)
    ensures s.marks[c].status.Unseen? && s.marks[n].procChild < |G[n]| && c == G[n][s.marks[n].procChild]
    ensures forall x: nat | x < |G| && x != c :: s'.marks[x].status == s.marks[x].status
  {
  }

  lemma DiscoverShape(G: Graph, s: Snap, n: nat, c: nat, s': Snap)
    requires Discovered(G, s, n, c, s') && Shape(G, s) && ControlOk(G, s) && Scanned(G, s)
    ensures Shape(G, s') && ControlOk(G, s') && Scanned(G, s')
  {
    hide Discovered, AddNode, NextChild, Reach;
    DiscoveredMarks(G, s, n, c, s');
    assert c !in s.stack && c !in s.control;
    assert Shape(G, s') && ControlOk(G, s') by { hide Scanned; }
    DiscoverScanned(G, s, n, c, s');
  }

  lemma DiscoverScanned(G: Graph, s: Snap, n: nat, c: nat, s': Snap)
    requires Discovered(G, s, n, c, s') && Wf(G) && |s.marks| == |G| && Scanned(G, s)
    ensures |s'.marks| == |G| && Scanned(G, s')
  {
    hide Discovered, AddNode, NextChild, Reach;
    DiscoveredMarks(G, s, n, c, s');
  }

  /** A node under exploration that is not newer than y and that y reaches. */
  lemma UpWitness(G: Graph, s: Snap, y: nat) returns (k: nat)
    requires |s.marks| == |G| && ControlOk(G, s) && UpReach(G, s) && s.In(y)
    ensures k < |s.control| && s.In(s.control[k]) && s.Idx(s.control[k]) <= s.Idx(y) && Reach(G, y, s.control[k])
    ensures s.In(s.Top()) && s.Idx(s.control[k]) <= s.Idx(s.Top())
  {
    hide Reach;
    assert ReachesControl(G, s, y);
    k :| 0 <= k < |s.control| && s.control[k] < |G| && s.Idx(s.control[k]) <= s.Idx(y) && Reach(G, y, s.control[k]);
  }

  lemma DiscoverDown(G: Graph, s: Snap, n: nat, c: nat, s': Snap)
    requires Discovered(G, s, n, c, s') && Shape(G, s) && ControlOk(G, s) && DownReach(G, s) && UpReach(G, s)
    ensures |s'.marks| == |G| && DownReach(G, s')
  {
    DiscoveredMarks(G, s, n, c, s');
    assert forall x: nat | s.In(x) :: s.Idx(x) < s.index;
    hide Discovered, AddNode, NextChild, Reach, Shape, ControlOk, UpReach;
    ReachRefl(G, c);
    ReachEdge(G, n, c);
    forall x: nat, y: nat | s'.In(x) && s'.In(y) && s'.Idx(x) <= s'.Idx(y) ensures Reach(G, x, y) {
      if y == c && x != c {
        var k := UpWitness(G, s, x);
        ReachTrans(G, x, s.control[k], n);
        ReachTrans(G, x, n, c);
      }
    }
  }

  lemma DiscoverUp(G: Graph, s: Snap, n: nat, c: nat, s': Snap)
    requires Discovered(G, s, n, c, s') && ControlOk(G, s) && UpReach(G, s)
    ensures |s'.marks| == |G| && UpReach(G, s')
  {
    DiscoveredMarks(G, s, n, c, s');
    hide Discovered, AddNode, NextChild, Reach, ControlOk;
    ReachRefl(G, c);
    forall y: nat | s'.In(y) ensures ReachesControl(G, s', y) {
      if y == c {
        assert s'.control[|s.control|] == c;
      } else {
        var k := UpWitness(G, s, y);
        assert s'.control[k] == s.control[k];
      }
    }
  }

  /** A low link of a node under exploration, with its witness. */
  lemma LowNode(G: Graph, s: Snap, k: nat) returns (m: nat)
    requires |s.marks| == |G| && ControlOk(G, s) && LowSound(G, s) && k < |s.control|
    ensures s.In(s.control[k]) && s.Low(s.control[k]) <= s.Idx(s.control[k])
    ensures s.In(m) && s.Idx(m) == s.Low(s.control[k]) && Reach(G, s.control[k], m)
  {
    hide Reach;
    assert LowWitness(G, s, s.control[k]);
    m :| s.In(m) && s.Idx(m) == s.Low(s.control[k]) && Reach(G, s.control[k], m);
  }

  lemma DiscoverLowSound(G: Graph, s: Snap, n: nat, c: nat, s': Snap)
    requires Discovered(G, s, n, c, s') && ControlOk(G, s) && LowSound(G, s)
    ensures |s'.marks| == |G| && LowSound(G, s')
  {
    DiscoveredMarks(G, s, n, c, s');
    hide Discovered, AddNode, NextChild, Reach, ControlOk;
    ReachRefl(G, c);
    forall k | 0 <= k < |s'.control| && s'.control[k] < |G| ensures LowWitness(G, s', s'.control[k]) {
      if k < |s.control| {
        var m := LowNode(G, s, k);
        assert s'.In(m) && s'.Idx(m) == s'.Low(s.control[k]);
      } else {
        assert s'.In(c) && s'.Idx(c) == s'.Low(c);
      }
    }
  }

  lemma DiscoverLowComplete(G: Graph, s: Snap, n: nat, c: nat, s': Snap)
    requires Discovered(G, s, n, c, s') && Shape(G, s) && ControlOk(G, s) && Scanned(G, s) && LowSound(G, s) && LowComplete(G, s)
    ensures |s'.marks| == |G| && LowComplete(G, s')
  {
    DiscoveredMarks(G, s, n, c, s');
    hide Discovered, AddNode, NextChild, Reach, ControlOk, LowSound, Shape, Scanned, LowComplete;
    forall k: nat, x: nat, j: nat
      | k < |s'.control| && InSegment(s', k, x) && j < s'.marks[x].procChild && j < |G[x]| && s'.In(G[x][j])
      ensures s'.Low(s'.control[k]) <= s'.Idx(G[x][j])
    {
      DiscoverLowEdge(G, s, n, c, s', k, x, j);
    }
    assert LowComplete(G, s') by { LowCompleteIs(G, s'); }
  }

  lemma LowCompleteIs(G: Graph, s: Snap)
    requires Wf(G) && |s.marks| == |G|
    requires forall k: nat, x: nat, j: nat
      | k < |s.control| && InSegment(s, k, x) && j < s.marks[x].procChild && j < |G[x]| && s.In(G[x][j]) ::
        s.Low(s.control[k]) <= s.Idx(G[x][j])
    ensures LowComplete(G, s)
  {
  }

  lemma DiscoverLowEdge(G: Graph, s: Snap, n: nat, c: nat, s': Snap, k: nat, x: nat, j: nat)
    requires Discovered(G, s, n, c, s') && Shape(G, s) && ControlOk(G, s) && Scanned(G, s) && LowSound(G, s) && LowComplete(G, s)
    requires |s'.marks| == |G| && k < |s'.control| && InSegment(s', k, x)
    requires j < s'.marks[x].procChild && j < |G[x]| && s'.In(G[x][j])
    ensures s'.Low(s'.control[k]) <= s'.Idx(G[x][j])
  {
    DiscoveredMarks(G, s, n, c, s');
    assert s.marks[c].procChild == 0 && s'.control[|s.control|] == c;
    hide Discovered, AddNode, NextChild, Reach, LowSound, Scanned;
    assert x != c && s.In(x);
    hide Shape;
    assert s'.control[k] == s.control[k] && (k + 1 < |s.control| ==> s'.control[k + 1] == s.control[k + 1]) by {
      assert k == |s.control| ==> s'.Idx(x) >= s.index by { }
      OldIndex(G, s, x);
    }
    hide ControlOk;
    var m := LowNode(G, s, k);
    assert InSegment(s, k, x);
    assert G[x][j] == c ==> s'.Idx(c) == s.index;
    OldIndex(G, s, m);
  }

  lemma OldIndex(G: Graph, s: Snap, x: nat)
    requires Shape(G, s) && s.In(x)
    ensures s.Idx(x) < s.index
  {
  }

  lemma DiscoverRest(G: Graph, s: Snap, n: nat, c: nat, s': Snap, comps: seq<set<nat>>, starts: seq<nat>)
    requires Discovered(G, s, n, c, s') && Shape(G, s)
    requires DoneClosed(G, s) && CompsOk(G, s, comps) && SeenReached(G, s, starts)
    ensures DoneClosed(G, s') && CompsOk(G, s', comps) && SeenReached(G, s', starts)
  {
    hide Discovered, AddNode, NextChild, Reach;
    DiscoveredMarks(G, s, n, c, s');
    var i :| 0 <= i < |starts| && Reach(G, starts[i], n);
    ReachEdge(G, n, c);
    ReachTrans(G, starts[i], n, c);
    assert ReachFrom(G, starts, c);
  }

  /** The next child of the top node was never seen: it becomes the top. */
  lemma DiscoverStep(G: Graph, s: Snap, n: nat, c: nat, s': Snap, comps: seq<set<nat>>, starts: seq<nat>)
    requires Inv(G, s, comps, starts) && Discovered(G, s, n, c, s')
    ensures Inv(G, s', comps, starts)
  {
    DiscoverShape(G, s, n, c, s');
    DiscoverDown(G, s, n, c, s');
    DiscoverUp(G, s, n, c, s');
    DiscoverLowSound(G, s, n, c, s');
    DiscoverLowComplete(G, s, n, c, s');
    DiscoverRest(G, s, n, c, s', comps, starts);
  }

  // ----- a child that was seen before -----

  /** The next child c of the top node n was seen; if it is on the stack it lowers n's low link. */
  ghost predicate Rescanned(G: Graph, s: Snap, n: nat, c: nat, s': Snap) {
    && |s.marks| == |G| == |s'.marks| && n < |G| && s.marks[n].procChild < |G[n]|
    && c < |G| && c == G[n][s.marks[n].procChild] && !s.marks[c].status.Unseen?
    && s.control != [] && n == s.control[|s.control| - 1] && s.In(n)
    && s'.control == s.control && s'.stack == s.stack && s'.index == s.index
    && (forall x: nat | x < |G| && x != n :: s'.marks[x] == s.marks[x])
    && s'.marks[n] == Mark(s.marks[n].procChild + 1, s.Idx(n), if s.In(c) then Min(s.Low(n), s.Idx(c)) else s.Low(n), InStack)
  }

  lemma RescannedMarks(G: Graph, s: Snap, n: nat, c: nat, s': Snap)
    requires Rescanned(G, s, n, c, s')
    ensures |s.marks| == |G| == |s'.marks| && n < |G| && c < |G| && s.marks[n].procChild < |G[n]| && c == G[n][s.marks[n].procChild]
    ensures s'.control == s.control && s'.stack == s.stack && s'.index == s.index
    ensures s.control != [] && n == s.control[|s.control| - 1] && s.In(n) && !s.marks[c].status.Unseen?
    ensures forall x: nat | x < |G| :: s'.Idx(x) == s.Idx(x) && s'.marks[x].status == s.marks[x].status && s'.Low(x) <= s.Low(x)
    ensures forall x: nat | x < |G| && x != n :: s'.Low(x) == s.Low(x) && s'.marks[x].procChild == s.marks[x].procChild
    ensures s'.marks[n].procChild == s.marks[n].procChild + 1
    ensures s'.Low(n) == if s.In(c) then Min(s.Low(n), s.Idx(c)) else s.Low(n)
    ensures forall x: nat :: s'.In(x) == s.In(x) && s'.Done(x) == s.Done(x)
  {
  }

  lemma RescanStep(G: Graph, s: Snap, n: nat, c: nat, s': Snap, comps: seq<set<nat>>, starts: seq<nat>)
    requires Inv(G, s, comps, starts) && Rescanned(G, s, n, c, s')
    ensures Inv(G, s', comps, starts)
  {
    hide Reach, IsScc;
    RescanShape(G, s, n, c, s');
    RescanReach(G, s, n, c, s');
    RescanLowSound(G, s, n, c, s');
    RescanLowComplete(G, s, n, c, s');
    RescanRest(G, s, n, c, s', comps, starts);
  }

  lemma RescanShape(G: Graph, s: Snap, n: nat, c: nat, s': Snap)
    requires Rescanned(G, s, n, c, s') && Shape(G, s) && ControlOk(G, s) && Scanned(G, s)
    ensures Shape(G, s') && ControlOk(G, s') && Scanned(G, s')
  {
    RescannedMarks(G, s, n, c, s');
    hide Rescanned;
  }

  lemma RescanReach(G: Graph, s: Snap, n: nat, c: nat, s': Snap)
    requires Rescanned(G, s, n, c, s') && ControlOk(G, s) && DownReach(G, s) && UpReach(G, s)
    ensures |s'.marks| == |G| && DownReach(G, s') && UpReach(G, s')
  {
    RescannedMarks(G, s, n, c, s');
    hide Rescanned, Reach;
    forall y: nat | s'.In(y) ensures ReachesControl(G, s', y) {
      var k := UpWitness(G, s, y);
      assert s'.control[k] == s.control[k];
    }
  }

  lemma RescanRest(G: Graph, s: Snap, n: nat, c: nat, s': Snap, comps: seq<set<nat>>, starts: seq<nat>)
    requires Rescanned(G, s, n, c, s') && Wf(G) && DoneClosed(G, s) && CompsOk(G, s, comps) && SeenReached(G, s, starts)
    ensures |s'.marks| == |G| && DoneClosed(G, s') && CompsOk(G, s', comps) && SeenReached(G, s', starts)
  {
    RescannedMarks(G, s, n, c, s');
    hide Rescanned, Reach, IsScc, ReachFrom;
  }

  lemma RescanLowSound(G: Graph, s: Snap, n: nat, c: nat, s': Snap)
    requires Rescanned(G, s, n, c, s') && ControlOk(G, s) && LowSound(G, s)
    ensures |s'.marks| == |G| && LowSound(G, s')
  {
    RescannedMarks(G, s, n, c, s');
    ReachEdge(G, n, c);
    hide Rescanned, Reach;
    forall k | 0 <= k < |s'.control| && s'.control[k] < |G| ensures LowWitness(G, s', s'.control[k]) {
      var m := LowNode(G, s, k);
      var a := s.control[k];
      if a == n && s'.Low(n) != s.Low(n) {
        assert s'.In(c) && s'.Idx(c) == s'.Low(a);
      } else {
        assert s'.In(m) && s'.Idx(m) == s'.Low(a);
      }
    }
  }

  lemma RescanLowComplete(G: Graph, s: Snap, n: nat, c: nat, s': Snap)
    requires Wf(G) && Rescanned(G, s, n, c, s') && ControlOk(G, s) && LowComplete(G, s)
    ensures |s'.marks| == |G| && LowComplete(G, s')
  {
    RescannedMarks(G, s, n, c, s');
    hide Rescanned, Wf;
    assert forall k | 0 <= k < |s.control| - 1 :: s.Idx(s.control[k]) < s.Idx(n);
    forall k: nat, x: nat, j: nat
      | k < |s'.control| && InSegment(s', k, x) && j < s'.marks[x].procChild && j < |G[x]| && s'.In(G[x][j])
      ensures s'.Low(s'.control[k]) <= s'.Idx(G[x][j])
    {
      assert InSegment(s, k, x);
      if x == n && j == s.marks[n].procChild {
        assert k == |s.control| - 1;
      } else {
        assert j < s.marks[x].procChild;
      }
    }
  }

  // ----- a node whose children are all scanned -----

  /** The top node n is left; its low link is passed on to the node below it on the control stack. */
  ghost predicate Left(G: Graph, s: Snap, n: nat, s': Snap) {
    && |s.marks| == |G| == |s'.marks| && s.control != [] && n == s.control[|s.control| - 1] && n < |G| && s.In(n)
    && s.marks[n].procChild == |G[n]|
    && s'.control == s.control[..|s.control| - 1] && s'.stack == s.stack && s'.index == s.index
    && if s'.control == [] then s'.marks == s.marks
       else var p := s'.control[|s'.control| - 1];
         && p < |G| && p != n
         && s'.marks[p] == s.marks[p].(lowlink := Min(s.Low(p), s.Low(n)))
         && (forall x: nat | x < |G| && x != p :: s'.marks[x] == s.marks[x])
  }

  /** A node that can reach an older one stays on the component stack. */
  lemma LeaveStep(G: Graph, s: Snap, n: nat, s': Snap, comps: seq<set<nat>>, starts: seq<nat>)
    requires Inv(G, s, comps, starts) && Left(G, s, n, s') && s.Low(n) != s.Idx(n)
    ensures Inv(G, s', comps, starts)
  {
    hide Reach, IsScc;
    LeaveShape(G, s, n, s');
    LeaveUp(G, s, n, s');
    LeaveLowSound(G, s, n, s');
    LeaveLowComplete(G, s, n, s');
    LeaveMarks(G, s, n, s');
    assert DownReach(G, s');
    assert CompsOk(G, s', comps) && SeenReached(G, s', starts);
  }

  lemma LeaveMarks(G: Graph, s: Snap, n: nat, s': Snap)
    requires Left(G, s, n, s')
    ensures forall x: nat | x < |G| :: s'.Idx(x) == s.Idx(x) && s'.marks[x].status == s.marks[x].status && s'.Low(x) <= s.Low(x)
    ensures forall x: nat | x < |G| :: s'.marks[x].procChild == s.marks[x].procChild
    ensures forall x: nat :: s'.In(x) == s.In(x) && s'.Done(x) == s.Done(x)
    ensures forall k | 0 <= k < |s'.control| :: s'.control[k] == s.control[k]
    ensures |s'.control| == |s.control| - 1 && s'.stack == s.stack && s'.index == s.index && |s.marks| == |G| == |s'.marks|
    ensures n < |G| && s.control[|s.control| - 1] == n && s.marks[n].procChild == |G[n]|
  {
  }

  lemma LeaveShape(G: Graph, s: Snap, n: nat, s': Snap)
    requires Left(G, s, n, s') && Shape(G, s) && ControlOk(G, s) && Scanned(G, s)
    ensures Shape(G, s') && ControlOk(G, s') && Scanned(G, s')
    ensures DoneClosed(G, s) ==> DoneClosed(G, s')
  {
    LeaveMarks(G, s, n, s');
    hide Left;
    assert Shape(G, s') && ControlOk(G, s') && (DoneClosed(G, s) ==> DoneClosed(G, s')) by { hide Scanned; }
    LeaveScanned(G, s, n, s');
  }

  lemma LeaveScanned(G: Graph, s: Snap, n: nat, s': Snap)
    requires Left(G, s, n, s') && Wf(G) && |s.marks| == |G| && Scanned(G, s)
    ensures |s'.marks| == |G| && Scanned(G, s')
  {
    LeaveMarks(G, s, n, s');
    hide Left;
    forall x: nat | x < |G| && !s'.marks[x].status.Unseen? && x !in s'.control ensures s'.marks[x].procChild == |G[x]| {
      if x != n {
        forall k | 0 <= k < |s.control| ensures s.control[k] != x {
          assert k < |s'.control| ==> s'.control[k] in s'.control;
        }
      }
    }
  }

  lemma LeaveUp(G: Graph, s: Snap, n: nat, s': Snap)
    requires Left(G, s, n, s') && s.Low(n) != s.Idx(n)
    requires ControlOk(G, s) && UpReach(G, s) && DownReach(G, s) && LowSound(G, s)
    ensures UpReach(G, s') && s'.control != []
  {
    LeaveMarks(G, s, n, s');
    var top := |s.control| - 1;
    var m := LowNode(G, s, top);
    var h := UpWitness(G, s, m);
    assert h != top;
    hide Reach, Left, ControlOk;
    forall y: nat | s'.In(y) ensures ReachesControl(G, s', y) {
      var k := UpWitness(G, s, y);
      if k == top {
        ReachTrans(G, y, n, m);
        ReachTrans(G, y, m, s.control[h]);
        assert s'.control[h] == s.control[h];
      } else {
        assert s'.control[k] == s.control[k];
      }
    }
  }

  lemma LeaveLowSound(G: Graph, s: Snap, n: nat, s': Snap)
    requires Left(G, s, n, s') && ControlOk(G, s) && DownReach(G, s) && LowSound(G, s)
    ensures LowSound(G, s')
  {
    LeaveMarks(G, s, n, s');
    hide Reach;
    var top := |s.control| - 1;
    forall k | 0 <= k < |s'.control| && s'.control[k] < |G| ensures LowWitness(G, s', s'.control[k]) {
      var a := s.control[k];
      var m := LowNode(G, s, k);
      var q := LowNode(G, s, top);
      if k == top - 1 && s'.Low(a) != s.Low(a) {
        assert Reach(G, a, n);
        ReachTrans(G, a, n, q);
        assert s'.In(q) && s'.Idx(q) == s'.Low(a);
      } else {
        assert s'.Low(a) == s.Low(a) by {
          assert k < top - 1 ==> s.Idx(s.control[k]) < s.Idx(s.control[top - 1]);
        }
        assert s'.In(m) && s'.Idx(m) == s'.Low(a);
      }
    }
  }

  lemma LeaveLowComplete(G: Graph, s: Snap, n: nat, s': Snap)
    requires Wf(G) && Left(G, s, n, s') && ControlOk(G, s) && LowComplete(G, s)
    ensures LowComplete(G, s')
  {
    LeaveMarks(G, s, n, s');
    var top := |s.control| - 1;
    forall k: nat, x: nat, j: nat
      | k < |s'.control| && InSegment(s', k, x) && j < s'.marks[x].procChild && j < |G[x]| && s'.In(G[x][j])
      ensures s'.Low(s'.control[k]) <= s'.Idx(G[x][j])
    {
      if k == top - 1 && s.Idx(n) <= s.Idx(x) {
        assert InSegment(s, top, x);
      } else {
        assert InSegment(s, k, x);
      }
    }
  }

  // ----- a complete component -----

  /** The top node n is left and reaches nothing older: the component stack is popped down to n. */
  ghost predicate Completed(G: Graph, s: Snap, n: nat, pos: nat, s': Snap) {
    && |s.marks| == |G| == |s'.marks| && s.control != [] && n == s.control[|s.control| - 1] && n < |G| && s.In(n)
    && s.marks[n].procChild == |G[n]| && pos < |s.stack| && s.stack[pos] == n && s.Low(n) == s.Idx(n)
    && s'.control == s.control[..|s.control| - 1] && s'.stack == s.stack[..pos] && s'.index == s.index
    && (forall x: nat | x < |G| && x !in s.stack[pos..] :: s'.marks[x] == s.marks[x])
    && (forall x: nat | x < |G| && x in s.stack[pos..] :: s'.marks[x] == s.marks[x].(status := Complete))
  }

  ghost function Members(xs: seq<nat>): set<nat> {
    set x | x in xs
  }

  /** What is popped are the nodes on the stack that are not older than n. */
  lemma CompleteMarks(G: Graph, s: Snap, n: nat, pos: nat, s': Snap)
    requires Completed(G, s, n, pos, s') && Shape(G, s) && ControlOk(G, s)
    ensures forall x: nat :: x in s.stack[pos..] <==> s.In(x) && s.Idx(n) <= s.Idx(x)
    ensures forall x: nat :: s'.In(x) <==> s.In(x) && s.Idx(x) < s.Idx(n)
    ensures forall x: nat :: s'.Done(x) <==> s.Done(x) || x in s.stack[pos..]
    ensures forall x: nat | x < |G| :: s'.Idx(x) == s.Idx(x) && s'.Low(x) == s.Low(x) && s'.marks[x].procChild == s.marks[x].procChild
    ensures forall x: nat | x < |G| :: s'.marks[x].status.Unseen? == s.marks[x].status.Unseen?
    ensures |s'.control| == |s.control| - 1 && forall k | 0 <= k < |s'.control| :: s'.control[k] == s.control[k]
    ensures forall k | 0 <= k < |s'.control| :: s.In(s.control[k]) && s.Idx(s.control[k]) < s.Idx(n)
  {
    forall x: nat ensures x in s.stack[pos..] <==> s.In(x) && s.Idx(n) <= s.Idx(x) {
      if s.In(x) {
        var i :| 0 <= i < |s.stack| && s.stack[i] == x;
        if i >= pos {
          assert s.stack[pos..][i - pos] == x;
        } else {
          assert s.Idx(s.stack[i]) < s.Idx(s.stack[pos]);
        }
      }
    }
  }

  lemma CompleteShape(G: Graph, s: Snap, n: nat, pos: nat, s': Snap)
    requires Completed(G, s, n, pos, s') && Shape(G, s) && ControlOk(G, s) && Scanned(G, s)
    ensures Shape(G, s') && ControlOk(G, s') && Scanned(G, s')
  {
    CompleteStack(G, s, n, pos, s');
    CompleteScanned(G, s, n, pos, s');
    CompleteMarks(G, s, n, pos, s');
  }

  lemma CompleteStack(G: Graph, s: Snap, n: nat, pos: nat, s': Snap)
    requires Completed(G, s, n, pos, s') && Shape(G, s) && ControlOk(G, s)
    ensures forall x: nat | s'.In(x) :: x in s'.stack
    ensures forall i | 0 <= i < |s'.stack| :: s'.In(s'.stack[i])
  {
    CompleteMarks(G, s, n, pos, s');
    hide Completed;
    forall i | pos <= i < |s.stack| ensures s.stack[i] in s.stack[pos..] {
      assert s.stack[i] == s.stack[pos..][i - pos];
    }
    forall x: nat | s'.In(x) ensures x in s.stack[..pos] {
      var i :| 0 <= i < |s.stack| && s.stack[i] == x;
      assert s.stack[..pos][i] == x;
    }
    forall i | 0 <= i < pos ensures s'.In(s.stack[..pos][i]) {
      assert s.Idx(s.stack[i]) < s.Idx(s.stack[pos]);
    }
  }

  lemma CompleteScanned(G: Graph, s: Snap, n: nat, pos: nat, s': Snap)
    requires Completed(G, s, n, pos, s') && Shape(G, s) && ControlOk(G, s) && Scanned(G, s)
    ensures |s'.marks| == |G| && Scanned(G, s')
  {
    CompleteMarks(G, s, n, pos, s');
    hide Shape;
    forall x: nat | x < |G| && !s'.marks[x].status.Unseen? && x !in s'.control ensures s'.marks[x].procChild == |G[x]| {
      if x != n {
        forall k | 0 <= k < |s.control| ensures s.control[k] != x {
          assert k < |s'.control| ==> s'.control[k] in s'.control;
        }
      }
    }
  }

  lemma CompleteClosed(G: Graph, s: Snap, n: nat, pos: nat, s': Snap)
    requires Completed(G, s, n, pos, s') && Shape(G, s) && ControlOk(G, s) && Scanned(G, s) && DoneClosed(G, s) && LowComplete(G, s)
    ensures DoneClosed(G, s')
  {
    CompleteMarks(G, s, n, pos, s');
    var top := |s.control| - 1;
    forall x: nat, j: nat | s'.Done(x) && j < |G[x]| ensures s'.Done(G[x][j]) {
      if s.Done(x) {
        assert s.Done(G[x][j]);
      } else {
        assert s.marks[x].procChild == |G[x]| by {
          assert s.control == s'.control + [n];
          assert forall k | 0 <= k < |s'.control| :: s.Idx(s'.control[k]) < s.Idx(n);
          assert x !in s'.control;
        }
        assert InSegment(s, top, x);
        var c := G[x][j];
        assert !s.marks[c].status.Unseen?;
        if s.In(c) {
          assert s.Low(s.control[top]) <= s.Idx(c);
        }
      }
    }
  }

  lemma CompleteIsScc(G: Graph, s: Snap, n: nat, pos: nat, s': Snap)
    requires Completed(G, s, n, pos, s') && Shape(G, s) && ControlOk(G, s)
    requires DownReach(G, s) && UpReach(G, s) && DoneClosed(G, s) && DoneClosed(G, s')
    ensures IsScc(G, Members(s.stack[pos..]))
  {
    var comp := Members(s.stack[pos..]);
    CompleteMarks(G, s, n, pos, s');
    assert n in comp;
    hide Reach;
    forall x: nat | x in comp ensures Reach(G, x, n) && Reach(G, n, x) {
      var k := UpWitness(G, s, x);
      assert Reach(G, s.control[k], n);
      ReachTrans(G, x, s.control[k], n);
    }
    forall x: nat, y: nat | x in comp ensures y in comp <==> Reach(G, x, y) && Reach(G, y, x) {
      if y in comp {
        ReachTrans(G, x, n, y);
        ReachTrans(G, y, n, x);
      }
      if Reach(G, x, y) && Reach(G, y, x) {
        DoneStaysDone(G, s', x, y);
        if s.Done(y) {
          DoneStaysDone(G, s, y, x);
        }
      }
    }
  }

  lemma DoneStaysDone(G: Graph, s: Snap, x: nat, y: nat)
    requires Wf(G) && |s.marks| == |G| && DoneClosed(G, s) && s.Done(x) && Reach(G, x, y)
    ensures s.Done(y)
  {
    var K := set z: nat | z < |s.marks| && s.Done(z);
    assert Closed(G, K);
    ReachStaysInside(G, K, x, y);
  }

  lemma CompleteReach(G: Graph, s: Snap, n: nat, pos: nat, s': Snap)
    requires Completed(G, s, n, pos, s') && Shape(G, s) && ControlOk(G, s) && DownReach(G, s) && UpReach(G, s)
    ensures DownReach(G, s') && UpReach(G, s')
  {
    CompleteMarks(G, s, n, pos, s');
    hide Reach, Shape;
    forall y: nat | s'.In(y) ensures ReachesControl(G, s', y) {
      var k := UpWitness(G, s, y);
      assert k < |s'.control|;
      assert s'.control[k] == s.control[k];
    }
  }

  lemma CompleteLow(G: Graph, s: Snap, n: nat, pos: nat, s': Snap)
    requires Completed(G, s, n, pos, s') && Shape(G, s) && ControlOk(G, s) && LowSound(G, s) && LowComplete(G, s)
    ensures LowSound(G, s') && LowComplete(G, s')
  {
    CompleteMarks(G, s, n, pos, s');
    hide Reach, Shape;
    forall k | 0 <= k < |s'.control| && s'.control[k] < |G| ensures LowWitness(G, s', s'.control[k]) {
      var m := LowNode(G, s, k);
      assert s'.In(m) && s'.Idx(m) == s'.Low(s.control[k]);
    }
    forall k: nat, x: nat, j: nat
      | k < |s'.control| && InSegment(s', k, x) && j < s'.marks[x].procChild && j < |G[x]| && s'.In(G[x][j])
      ensures s'.Low(s'.control[k]) <= s'.Idx(G[x][j])
    {
      assert InSegment(s, k, x);
    }
  }

  lemma CompleteStep(G: Graph, s: Snap, n: nat, pos: nat, s': Snap, comps: seq<set<nat>>, starts: seq<nat>)
    requires Inv(G, s, comps, starts) && Completed(G, s, n, pos, s')
    ensures Inv(G, s', comps + [Members(s.stack[pos..])], starts)
  {
    hide Reach;
    CompleteShape(G, s, n, pos, s');
    CompleteClosed(G, s, n, pos, s');
    CompleteIsScc(G, s, n, pos, s');
    CompleteReach(G, s, n, pos, s');
    CompleteLow(G, s, n, pos, s');
    CompleteMarks(G, s, n, pos, s');
    CompleteComps(G, s, n, pos, s', comps);
    assert SeenReached(G, s', starts);
  }

  lemma CompleteComps(G: Graph, s: Snap, n: nat, pos: nat, s': Snap, comps: seq<set<nat>>)
    requires Completed(G, s, n, pos, s') && Shape(G, s) && ControlOk(G, s) && CompsOk(G, s, comps)
    requires IsScc(G, Members(s.stack[pos..]))
    ensures CompsOk(G, s', comps + [Members(s.stack[pos..])])
  {
    hide IsScc;
    CompleteMarks(G, s, n, pos, s');
    var comp := Members(s.stack[pos..]);
    var comps' := comps + [comp];
    forall x: nat | s'.Done(x) ensures exists i | 0 <= i < |comps'| :: x in comps'[i] {
      if s.Done(x) {
        var i :| 0 <= i < |comps| && x in comps[i];
        assert comps'[i] == comps[i];
      } else {
        assert comps'[|comps|] == comp;
      }
    }
    forall i, x: nat | 0 <= i < |comps'| && x in comps'[i] ensures s'.Done(x) && (i == |comps| ==> !s.Done(x)) {
      assert i < |comps| ==> comps'[i] == comps[i];
    }
    forall i, j | 0 <= i < j < |comps'| ensures comps'[i] !! comps'[j] {
      assert comps'[i] == comps[i] && (j < |comps| ==> comps'[j] == comps[j]);
    }
  }
}
