/** Top-down splay trees over nodes that point to each other.

    A pointer is a position in the node store.  The nil node and the header that splaying uses are
    nodes as well, and the nil node carries the key that is being looked for. */
module SplayTrees {

  const NIL: nat := 0
  const HEADER: nat := 1

  datatype Bnode = Bnode(element: int, left: nat, right: nat)

  datatype OptNode = NoNode | SomeNode(n: nat)

  /** The shape below a pointer: which node is where. */
  datatype Tree = Leaf | Node(left: Tree, n: nat, right: Tree)

  function Refs(t: Tree): seq<nat> {
    match t
    case Leaf => []
    case Node(l, n, r) => Refs(l) + [n] + Refs(r)
  }

  ghost predicate Rep(nodes: seq<Bnode>, p: nat, t: Tree)
    decreases t
  {
    match t
    case Leaf => p == NIL
    case Node(l, n, r) => p == n && HEADER < n < |nodes| && Rep(nodes, nodes[n].left, l) && Rep(nodes, nodes[n].right, r)
  }

  predicate RefsOk(nodes: seq<Bnode>, refs: seq<nat>) {
    forall i | 0 <= i < |refs| :: HEADER < refs[i] < |nodes|
  }

  /** The keys along the sequence ascend strictly; so no node occurs twice. */
  predicate Ascending(nodes: seq<Bnode>, refs: seq<nat>)
    requires RefsOk(nodes, refs)
  {
    forall i, j | 0 <= i < j < |refs| :: nodes[refs[i]].element < nodes[refs[j]].element
  }

  function Keys(nodes: seq<Bnode>, refs: seq<nat>): (r: seq<int>)
    requires RefsOk(nodes, refs)
    ensures |r| == |refs| && forall i | 0 <= i < |r| :: r[i] == nodes[refs[i]].element
  {
    seq(|refs|, i requires 0 <= i < |refs| => nodes[refs[i]].element)
  }

  lemma {:induction false} RepRefs(nodes: seq<Bnode>, p: nat, t: Tree)
    requires Rep(nodes, p, t)
    decreases t
    ensures RefsOk(nodes, Refs(t)) && (t.Node? ==> p in Refs(t)) && (t.Leaf? <==> p == NIL)
  {
    if t.Node? {
      RepRefs(nodes, nodes[t.n].left, t.left);
      RepRefs(nodes, nodes[t.n].right, t.right);
    }
  }

  /** What happens to other nodes does not change the shape. */
  lemma {:induction false} RepFrame(nodes: seq<Bnode>, nodes': seq<Bnode>, p: nat, t: Tree)
    requires Rep(nodes, p, t) && |nodes| <= |nodes'|
    requires forall n | n in Refs(t) && n < |nodes| :: nodes'[n].left == nodes[n].left && nodes'[n].right == nodes[n].right
    ensures Rep(nodes', p, t)
    decreases t
  {
    if t.Node? {
      RepRefs(nodes, p, t);
      RepFrame(nodes, nodes', nodes[t.n].left, t.left);
      RepFrame(nodes, nodes', nodes[t.n].right, t.right);
    }
  }

  // ----- the two trees under assembly -----

  /** A node of the left tree together with its left subtree; in the right tree, with its right subtree. */
  datatype Hang = Hang(n: nat, sub: Tree)

  /** The child on one side: the right one for d. */
  function Kid(b: Bnode, d: bool): nat {
    if d then b.right else b.left
  }

  function SetKid(nodes: seq<Bnode>, n: nat, d: bool, p: nat): (r: seq<Bnode>)
    requires n < |nodes|
    ensures |r| == |nodes| && forall m | 0 <= m < |r| && m != n :: r[m] == nodes[m]
    ensures r[n] == if d then nodes[n].(right := p) else nodes[n].(left := p)
  {
    nodes[n := if d then nodes[n].(right := p) else nodes[n].(left := p)]
  }

  function Join(a: seq<nat>, b: seq<nat>, d: bool): seq<nat> {
    if d then a + b else b + a
  }

  function MkNode(d: bool, sub: Tree, n: nat, t: Tree): Tree {
    if d then Node(sub, n, t) else Node(t, n, sub)
  }

  function ChainRefs(s: seq<Hang>, d: bool): seq<nat> {
    if s == [] then []
    else Join(ChainRefs(s[..|s| - 1], d), Join(Refs(s[|s| - 1].sub), [s[|s| - 1].n], d), d)
  }

  function Tail(s: seq<Hang>): nat {
    if s == [] then HEADER else s[|s| - 1].n
  }

  /** The nodes hang on the header one below the other on side d; where the last one points is open. */
  ghost predicate Chain(nodes: seq<Bnode>, s: seq<Hang>, d: bool)
    decreases |s|
  {
    && |nodes| > HEADER
    && (s != [] ==>
          var rest, h := s[..|s| - 1], s[|s| - 1];
          && HEADER < h.n < |nodes| && Rep(nodes, Kid(nodes[h.n], !d), h.sub)
          && Tail(rest) < |nodes| && Kid(nodes[Tail(rest)], d) == h.n && Chain(nodes, rest, d))
  }

  /** The tree that results when t is hung on the last node. */
  function Closed(s: seq<Hang>, t: Tree, d: bool): Tree {
    if s == [] then t else Closed(s[..|s| - 1], MkNode(d, s[|s| - 1].sub, s[|s| - 1].n, t), d)
  }

  lemma {:induction false} ClosedRefs(s: seq<Hang>, t: Tree, d: bool)
    ensures Refs(Closed(s, t, d)) == Join(ChainRefs(s, d), Refs(t), d)
  {
    hide Refs;
    NoRefs();
    if s != [] {
      var a, h := ChainRefs(s[..|s| - 1], d), s[|s| - 1];
      ClosedRefs(s[..|s| - 1], MkNode(d, h.sub, h.n, t), d);
      RefsNode(MkNode(d, h.sub, h.n, t));
      if d {
        Assoc(a, Refs(h.sub) + [h.n], Refs(t));
      } else {
        Assoc(Refs(t), [h.n], Refs(h.sub));
        Assoc(Refs(t), [h.n] + Refs(h.sub), a);
      }
    }
  }

  lemma {:induction false} ClosedRep(nodes: seq<Bnode>, s: seq<Hang>, t: Tree, d: bool)
    requires Chain(nodes, s, d) && Tail(s) < |nodes| && Rep(nodes, Kid(nodes[Tail(s)], d), t)
    ensures Rep(nodes, Kid(nodes[HEADER], d), Closed(s, t, d))
  {
    hide Rep;
    if s != [] {
      var h := s[|s| - 1];
      RepJoin(nodes, h.n, MkNode(d, h.sub, h.n, t));
      ClosedRep(nodes, s[..|s| - 1], MkNode(d, h.sub, h.n, t), d);
    }
  }

  predicate NoDup(refs: seq<nat>) {
    forall i, j | 0 <= i < j < |refs| :: refs[i] != refs[j]
  }

  lemma NoDupJoin(a: seq<nat>, b: seq<nat>, d: bool)
    requires NoDup(Join(a, b, d))
    ensures NoDup(a) && NoDup(b) && forall r | r in a :: r !in b
  {
    var ab := Join(a, b, d);
    if d {
      assert forall i | 0 <= i < |a| :: ab[i] == a[i];
      assert forall i | 0 <= i < |b| :: ab[|a| + i] == b[i];
    } else {
      assert forall i | 0 <= i < |b| :: ab[i] == b[i];
      assert forall i | 0 <= i < |a| :: ab[|b| + i] == a[i];
    }
  }

  /** The last node, its subtree and the nodes before it. */
  lemma LastApart(s: seq<Hang>, d: bool)
    requires s != []
    ensures var rest, h := s[..|s| - 1], s[|s| - 1];
      && h.n in ChainRefs(s, d) && (forall r | r in Refs(h.sub) || r in ChainRefs(rest, d) :: r in ChainRefs(s, d))
      && (NoDup(ChainRefs(s, d)) ==>
            NoDup(ChainRefs(rest, d)) && h.n !in Refs(h.sub) && h.n !in ChainRefs(rest, d))
  {
    hide Refs, NoDup;
    var rest, h := s[..|s| - 1], s[|s| - 1];
    assert ChainRefs(s, d) == Join(ChainRefs(rest, d), Join(Refs(h.sub), [h.n], d), d);
    if NoDup(ChainRefs(s, d)) {
      NoDupJoin(ChainRefs(rest, d), Join(Refs(h.sub), [h.n], d), d);
      NoDupJoin(Refs(h.sub), [h.n], d);
    }
    assert h.n in [h.n] && h.n in Join(Refs(h.sub), [h.n], d);
  }

  /** A chain survives a change of a node outside it, and of where its last node points. */
  lemma {:induction false} ChainSet(nodes: seq<Bnode>, s: seq<Hang>, d: bool, w: nat, side: bool, p: nat)
    requires Chain(nodes, s, d) && w < |nodes| && NoDup(ChainRefs(s, d))
    requires w !in ChainRefs(s, d) || (w == Tail(s) && side == d)
    requires w == HEADER ==> side != d || s == []
    ensures Chain(SetKid(nodes, w, side, p), s, d)
    decreases |s|
  {
    hide Rep, Refs, ChainRefs, NoDup;
    if s != [] {
      var rest, h := s[..|s| - 1], s[|s| - 1];
      LastApart(s, d);
      TailIsNode(nodes, rest, d);
      RepFrame(nodes, SetKid(nodes, w, side, p), Kid(nodes[h.n], !d), h.sub);
      ChainSet(nodes, rest, d, w, side, p);
    }
  }

  /** Hangs the node n with its outer subtree on the end of a chain. */
  lemma ChainPush(nodes: seq<Bnode>, s: seq<Hang>, d: bool, n: nat, sub: Tree)
    requires Chain(nodes, s, d) && NoDup(ChainRefs(s, d) ) && HEADER < n < |nodes| && Rep(nodes, Kid(nodes[n], !d), sub)
    requires Tail(s) < |nodes| && Tail(s) != n && Tail(s) !in Refs(sub)
    ensures Chain(SetKid(nodes, Tail(s), d, n), s + [Hang(n, sub)], d)
  {
    hide Rep, Refs, ChainRefs, NoDup, Chain;
    TailIsNode(nodes, s, d);
    ChainSet(nodes, s, d, Tail(s), d, n);
    RepFrame(nodes, SetKid(nodes, Tail(s), d, n), Kid(nodes[n], !d), sub);
    ChainExtend(SetKid(nodes, Tail(s), d, n), s, d, Hang(n, sub));
  }

  lemma TailIsNode(nodes: seq<Bnode>, s: seq<Hang>, d: bool)
    requires Chain(nodes, s, d)
    ensures HEADER <= Tail(s) < |nodes| && (s != [] ==> Tail(s) > HEADER && Tail(s) in ChainRefs(s, d))
  {
    hide Rep, Refs;
    if s != [] {
      LastApart(s, d);
    }
  }

  lemma ChainExtend(nodes: seq<Bnode>, s: seq<Hang>, d: bool, h: Hang)
    requires Chain(nodes, s, d) && HEADER < h.n < |nodes| && Rep(nodes, Kid(nodes[h.n], !d), h.sub)
    requires Tail(s) < |nodes| && Kid(nodes[Tail(s)], d) == h.n
    ensures Chain(nodes, s + [h], d)
  {
    hide Rep;
    assert (s + [h])[..|s|] == s;
  }

  lemma PushRefs(s: seq<Hang>, d: bool, n: nat, sub: Tree)
    ensures ChainRefs(s + [Hang(n, sub)], d) == Join(ChainRefs(s, d), Join(Refs(sub), [n], d), d)
  {
    hide Refs;
    assert (s + [Hang(n, sub)])[..|s|] == s;
  }

  // ----- the state of splaying -----

  /** Keys stay, nodes outside the tree stay, and the nil node carries the key looked for. */
  ghost predicate Kept(nodes0: seq<Bnode>, order: seq<nat>, t: int, nodes: seq<Bnode>) {
    && |nodes| == |nodes0| > HEADER && nodes[NIL] == Bnode(t, NIL, NIL)
    && (forall r: nat | HEADER < r < |nodes| :: nodes[r].element == nodes0[r].element && (r !in order ==> nodes[r] == nodes0[r]))
  }

  /** Left tree, middle tree and right tree. */
  ghost predicate Shape(nodes: seq<Bnode>, ls: seq<Hang>, n: nat, mid: Tree, rs: seq<Hang>) {
    Rep(nodes, n, mid) && Chain(nodes, ls, true) && Chain(nodes, rs, false)
  }

  /** Together they hold the nodes in their order; what is left of the middle is smaller than the key,
      what is right of it greater. */
  ghost predicate Parts(nodes0: seq<Bnode>, order: seq<nat>, t: int, ls: seq<Hang>, mid: Tree, rs: seq<Hang>) {
    && RefsOk(nodes0, order) && Ascending(nodes0, order)
    && ChainRefs(ls, true) + Refs(mid) + ChainRefs(rs, false) == order
    && (forall r | r in ChainRefs(ls, true) && r < |nodes0| :: nodes0[r].element < t)
    && (forall r | r in ChainRefs(rs, false) && r < |nodes0| :: nodes0[r].element > t)
  }

  ghost predicate Splaying(nodes0: seq<Bnode>, order: seq<nat>, t: int, nodes: seq<Bnode>, ls: seq<Hang>, n: nat, mid: Tree, rs: seq<Hang>) {
    Kept(nodes0, order, t, nodes) && Shape(nodes, ls, n, mid, rs) && Parts(nodes0, order, t, ls, mid, rs)
  }

  /** The three parts are disjoint. */
  lemma PartsApart(nodes: seq<Bnode>, a: seq<nat>, b: seq<nat>, c: seq<nat>)
    requires RefsOk(nodes, a + b + c) && Ascending(nodes, a + b + c)
    ensures NoDup(a) && NoDup(b) && NoDup(c)
    ensures forall r | r in a :: HEADER < r < |nodes| && r !in b && r !in c
    ensures forall r | r in b :: HEADER < r < |nodes| && r !in a && r !in c
    ensures forall r | r in c :: HEADER < r < |nodes| && r !in a && r !in b
  {
    var abc := a + b + c;
    assert forall i | 0 <= i < |a| :: abc[i] == a[i];
    assert forall i | 0 <= i < |b| :: abc[|a| + i] == b[i];
    assert forall i | 0 <= i < |c| :: abc[|a| + |b| + i] == c[i];
    assert NoDup(abc);
    NoDupJoin(a + b, c, true);
    NoDupJoin(a, b, true);
  }

  lemma KeysAround(nodes: seq<Bnode>, a: seq<nat>, n: nat, b: seq<nat>)
    requires RefsOk(nodes, a + [n] + b) && Ascending(nodes, a + [n] + b)
    ensures HEADER < n < |nodes|
    ensures forall r | r in a :: HEADER < r < |nodes| && nodes[r].element < nodes[n].element
    ensures forall r | r in b :: HEADER < r < |nodes| && nodes[r].element > nodes[n].element
  {
    var anb := a + [n] + b;
    assert anb[|a|] == n;
    assert forall i | 0 <= i < |a| :: anb[i] == a[i];
    assert forall i | 0 <= i < |b| :: anb[|a| + 1 + i] == b[i];
  }

  /** What is known of the node in the middle. */
  lemma Middle(nodes0: seq<Bnode>, order: seq<nat>, t: int, nodes: seq<Bnode>, ls: seq<Hang>, n: nat, mid: Tree, rs: seq<Hang>)
    requires Splaying(nodes0, order, t, nodes, ls, n, mid, rs)
    ensures |nodes| > HEADER && n < |nodes| && nodes[NIL] == Bnode(t, NIL, NIL) && (mid.Leaf? <==> n == NIL)
    ensures Tail(ls) < |nodes| && Tail(rs) < |nodes|
    ensures mid.Node? ==> mid.n == n > HEADER && nodes[n].element == nodes0[n].element
    ensures mid.Node? ==> nodes[n].left < |nodes| && nodes[n].right < |nodes|
    ensures mid.Node? ==> Rep(nodes, nodes[n].left, mid.left) && Rep(nodes, nodes[n].right, mid.right)
    ensures mid.Node? ==> (mid.left.Leaf? <==> nodes[n].left == NIL) && (mid.right.Leaf? <==> nodes[n].right == NIL)
    ensures mid.Node? && mid.left.Node? ==> mid.left.n == nodes[n].left > HEADER && nodes[nodes[n].left].right < |nodes|
    ensures mid.Node? && mid.right.Node? ==> mid.right.n == nodes[n].right > HEADER && nodes[nodes[n].right].left < |nodes|
    ensures mid.Node? ==> n != Tail(ls) && n != Tail(rs)
    ensures Disjoint(nodes0, order, ls, mid, rs)
  {
    RepRefs(nodes, n, mid);
    TailIsNode(nodes, ls, true);
    TailIsNode(nodes, rs, false);
    PartsApart(nodes0, ChainRefs(ls, true), Refs(mid), ChainRefs(rs, false));
    if mid.Node? {
      RepRefs(nodes, nodes[n].left, mid.left);
      RepRefs(nodes, nodes[n].right, mid.right);
      if mid.left.Node? {
        RepRefs(nodes, nodes[nodes[n].left].right, mid.left.right);
      }
      if mid.right.Node? {
        RepRefs(nodes, nodes[nodes[n].right].left, mid.right.left);
      }
    }
  }

  ghost predicate Disjoint(nodes0: seq<Bnode>, order: seq<nat>, ls: seq<Hang>, mid: Tree, rs: seq<Hang>) {
    && NoDup(ChainRefs(ls, true)) && NoDup(Refs(mid)) && NoDup(ChainRefs(rs, false))
    && (forall r | r in ChainRefs(ls, true) :: HEADER < r < |nodes0| && r in order && r !in Refs(mid) && r !in ChainRefs(rs, false))
    && (forall r | r in Refs(mid) :: HEADER < r < |nodes0| && r in order && r !in ChainRefs(ls, true) && r !in ChainRefs(rs, false))
    && (forall r | r in ChainRefs(rs, false) :: HEADER < r < |nodes0| && r in order && r !in ChainRefs(ls, true) && r !in Refs(mid))
  }

  lemma KeptSet(nodes0: seq<Bnode>, order: seq<nat>, t: int, nodes: seq<Bnode>, w: nat, d: bool, p: nat)
    requires Kept(nodes0, order, t, nodes) && w < |nodes| && (w in order || w == HEADER)
    requires w != NIL
    ensures Kept(nodes0, order, t, SetKid(nodes, w, d, p))
  {
  }

  lemma RefsNode(t: Tree)
    requires t.Node?
    ensures Refs(t) == Refs(t.left) + [t.n] + Refs(t.right)
  {
  }

  lemma Regroup(a: seq<nat>, l: seq<nat>, n: nat, r: seq<nat>, b: seq<nat>)
    ensures a + (l + [n] + r) + b == (a + l) + [n] + (r + b)
    ensures a + (l + [n] + r) + b == a + l + Join(b, Join(r, [n], false), false)
    ensures a + (l + [n] + r) + b == Join(a, Join(l, [n], true), true) + r + b
  {
    Assoc(a, l + [n], r);
    Assoc(a, l, [n]);
    Assoc(a + l + [n], r, b);
    Assoc(a + l, [n], r + b);
    Assoc([n], r, b);
  }

  lemma Assoc(a: seq<nat>, b: seq<nat>, c: seq<nat>)
    ensures a + (b + c) == a + b + c
  {
  }

  lemma PartsRight(nodes0: seq<Bnode>, order: seq<nat>, t: int, ls: seq<Hang>, mid: Tree, rs: seq<Hang>)
    requires Parts(nodes0, order, t, ls, mid, rs) && mid.Node? && mid.n < |nodes0| && t < nodes0[mid.n].element
    ensures Parts(nodes0, order, t, ls, mid.left, rs + [Hang(mid.n, mid.right)])
  {
    PushRefs(rs, false, mid.n, mid.right);
    RefsNode(mid);
    hide ChainRefs, Refs, Ascending, RefsOk;
    var a, b := ChainRefs(ls, true), ChainRefs(rs, false);
    Regroup(a, Refs(mid.left), mid.n, Refs(mid.right), b);
    KeysAround(nodes0, a + Refs(mid.left), mid.n, Refs(mid.right) + b);
  }

  lemma PartsLeft(nodes0: seq<Bnode>, order: seq<nat>, t: int, ls: seq<Hang>, mid: Tree, rs: seq<Hang>)
    requires Parts(nodes0, order, t, ls, mid, rs) && mid.Node? && mid.n < |nodes0| && nodes0[mid.n].element < t
    ensures Parts(nodes0, order, t, ls + [Hang(mid.n, mid.left)], mid.right, rs)
  {
    PushRefs(ls, true, mid.n, mid.left);
    RefsNode(mid);
    hide ChainRefs, Refs, Ascending, RefsOk;
    var a, b := ChainRefs(ls, true), ChainRefs(rs, false);
    Regroup(a, Refs(mid.left), mid.n, Refs(mid.right), b);
    KeysAround(nodes0, a + Refs(mid.left), mid.n, Refs(mid.right) + b);
  }

  /** The middle node goes to the right tree, and its left child becomes the middle. */
  lemma LinkRight(nodes0: seq<Bnode>, order: seq<nat>, t: int, nodes: seq<Bnode>, ls: seq<Hang>, n: nat, mid: Tree, rs: seq<Hang>)
    requires Splaying(nodes0, order, t, nodes, ls, n, mid, rs) && mid.Node? && n < |nodes| && t < nodes[n].element
    requires Tail(rs) < |nodes|
    ensures Splaying(nodes0, order, t, SetKid(nodes, Tail(rs), false, n), ls, nodes[n].left, mid.left, rs + [Hang(n, mid.right)])
  {
    hide Rep, Chain, ChainRefs, NoDup, Refs, Kept, Parts;
    Middle(nodes0, order, t, nodes, ls, n, mid, rs);
    TailIsNode(nodes, rs, false);
    NodeInMid(mid);
    ChainSet(nodes, ls, true, Tail(rs), false, n);
    ChainPush(nodes, rs, false, n, mid.right);
    RepFrame(nodes, SetKid(nodes, Tail(rs), false, n), nodes[n].left, mid.left);
    PartsRight(nodes0, order, t, ls, mid, rs);
    KeptSet(nodes0, order, t, nodes, Tail(rs), false, n);
  }

  /** The middle node goes to the left tree, and its right child becomes the middle. */
  lemma LinkLeft(nodes0: seq<Bnode>, order: seq<nat>, t: int, nodes: seq<Bnode>, ls: seq<Hang>, n: nat, mid: Tree, rs: seq<Hang>)
    requires Splaying(nodes0, order, t, nodes, ls, n, mid, rs) && mid.Node? && n < |nodes| && nodes[n].element < t
    requires Tail(ls) < |nodes|
    ensures Splaying(nodes0, order, t, SetKid(nodes, Tail(ls), true, n), ls + [Hang(n, mid.left)], nodes[n].right, mid.right, rs)
  {
    hide Rep, Chain, ChainRefs, NoDup, Refs, Kept, Parts;
    Middle(nodes0, order, t, nodes, ls, n, mid, rs);
    TailIsNode(nodes, ls, true);
    NodeInMid(mid);
    ChainSet(nodes, rs, false, Tail(ls), true, n);
    ChainPush(nodes, ls, true, n, mid.left);
    RepFrame(nodes, SetKid(nodes, Tail(ls), true, n), nodes[n].right, mid.right);
    PartsLeft(nodes0, order, t, ls, mid, rs);
    KeptSet(nodes0, order, t, nodes, Tail(ls), true, n);
  }

  lemma NodeInMid(mid: Tree)
    requires mid.Node?
    ensures mid.n in Refs(mid) && (forall r | r in Refs(mid.left) || r in Refs(mid.right) :: r in Refs(mid))
    ensures NoDup(Refs(mid)) ==> mid.n !in Refs(mid.left) && mid.n !in Refs(mid.right)
    ensures NoDup(Refs(mid)) ==> forall r | r in Refs(mid.left) :: r !in Refs(mid.right)
    ensures NoDup(Refs(mid)) ==> NoDup(Refs(mid.left)) && NoDup(Refs(mid.right))
  {
    assert Refs(mid) == Refs(mid.left) + [mid.n] + Refs(mid.right);
    if NoDup(Refs(mid)) {
      NoDupJoin(Refs(mid.left) + [mid.n], Refs(mid.right), true);
      NoDupJoin(Refs(mid.left), [mid.n], true);
    }
  }

  // ----- rotations -----

  function RotateLeftChild(t: Tree): (r: Tree)
    requires t.Node? && t.left.Node?
  {
    Node(t.left.left, t.left.n, Node(t.left.right, t.n, t.right))
  }

  function RotateRightChild(t: Tree): (r: Tree)
    requires t.Node? && t.right.Node?
  {
    Node(Node(t.left, t.n, t.right.left), t.right.n, t.right.right)
  }

  /** Rotations keep the nodes in their order. */
  lemma RotationRefs(t: Tree)
    requires t.Node?
    ensures t.left.Node? ==> Refs(RotateLeftChild(t)) == Refs(t)
    ensures t.right.Node? ==> Refs(RotateRightChild(t)) == Refs(t)
  {
    if t.left.Node? {
      Assoc(Refs(t.left.left) + [t.left.n], Refs(t.left.right), [t.n]);
      Assoc(Refs(t.left.left) + [t.left.n], Refs(t.left.right) + [t.n], Refs(t.right));
    }
    if t.right.Node? {
      Assoc(Refs(t.left) + [t.n], Refs(t.right.left), [t.right.n]);
      Assoc(Refs(t.left) + [t.n], Refs(t.right.left) + [t.right.n], Refs(t.right.right));
    }
  }

  lemma RotatedLeft(nodes0: seq<Bnode>, order: seq<nat>, t: int, nodes: seq<Bnode>, ls: seq<Hang>, n: nat, mid: Tree, rs: seq<Hang>, k: nat)
    requires Splaying(nodes0, order, t, nodes, ls, n, mid, rs) && mid.Node? && mid.left.Node?
    requires n < |nodes| && k == nodes[n].left < |nodes|
    ensures Splaying(nodes0, order, t, SetKid(SetKid(nodes, n, false, nodes[k].right), k, true, n), ls, k, RotateLeftChild(mid), rs)
  {
    hide Rep, Chain, ChainRefs, NoDup, Refs, Kept, Ascending, RefsOk;
    Middle(nodes0, order, t, nodes, ls, n, mid, rs);
    NodeInMid(mid);
    NodeInMid(mid.left);
    var nodes1 := SetKid(nodes, n, false, nodes[k].right);
    var nodes2 := SetKid(nodes1, k, true, n);
    KeptSet(nodes0, order, t, nodes, n, false, nodes[k].right);
    KeptSet(nodes0, order, t, nodes1, k, true, n);
    ChainSet(nodes, ls, true, n, false, nodes[k].right);
    ChainSet(nodes1, ls, true, k, true, n);
    ChainSet(nodes, rs, false, n, false, nodes[k].right);
    ChainSet(nodes1, rs, false, k, true, n);
    RepNode(nodes, k, mid.left);
    RepFrame(nodes, nodes2, nodes[k].left, mid.left.left);
    RepFrame(nodes, nodes2, nodes[k].right, mid.left.right);
    RepFrame(nodes, nodes2, nodes[n].right, mid.right);
    RepJoin(nodes2, n, Node(mid.left.right, n, mid.right));
    RepJoin(nodes2, k, RotateLeftChild(mid));
    RotationRefs(mid);
  }

  lemma RotatedRight(nodes0: seq<Bnode>, order: seq<nat>, t: int, nodes: seq<Bnode>, ls: seq<Hang>, n: nat, mid: Tree, rs: seq<Hang>, k: nat)
    requires Splaying(nodes0, order, t, nodes, ls, n, mid, rs) && mid.Node? && mid.right.Node?
    requires n < |nodes| && k == nodes[n].right < |nodes|
    ensures Splaying(nodes0, order, t, SetKid(SetKid(nodes, n, true, nodes[k].left), k, false, n), ls, k, RotateRightChild(mid), rs)
  {
    hide Rep, Chain, ChainRefs, NoDup, Refs, Kept, Ascending, RefsOk;
    Middle(nodes0, order, t, nodes, ls, n, mid, rs);
    NodeInMid(mid);
    NodeInMid(mid.right);
    var nodes1 := SetKid(nodes, n, true, nodes[k].left);
    var nodes2 := SetKid(nodes1, k, false, n);
    KeptSet(nodes0, order, t, nodes, n, true, nodes[k].left);
    KeptSet(nodes0, order, t, nodes1, k, false, n);
    ChainSet(nodes, ls, true, n, true, nodes[k].left);
    ChainSet(nodes1, ls, true, k, false, n);
    ChainSet(nodes, rs, false, n, true, nodes[k].left);
    ChainSet(nodes1, rs, false, k, false, n);
    RepNode(nodes, k, mid.right);
    RepFrame(nodes, nodes2, nodes[k].left, mid.right.left);
    RepFrame(nodes, nodes2, nodes[k].right, mid.right.right);
    RepFrame(nodes, nodes2, nodes[n].left, mid.left);
    RepJoin(nodes2, n, Node(mid.left, n, mid.right.left));
    RepJoin(nodes2, k, RotateRightChild(mid));
    RotationRefs(mid);
  }

  lemma RepNode(nodes: seq<Bnode>, p: nat, t: Tree)
    requires Rep(nodes, p, t) && t.Node?
    ensures HEADER < p < |nodes| && p == t.n && Rep(nodes, nodes[p].left, t.left) && Rep(nodes, nodes[p].right, t.right)
  {
  }

  lemma RepJoin(nodes: seq<Bnode>, p: nat, t: Tree)
    requires t.Node? && HEADER < p < |nodes| && p == t.n && Rep(nodes, nodes[p].left, t.left) && Rep(nodes, nodes[p].right, t.right)
    ensures Rep(nodes, p, t)
  {
  }

  // ----- the end of splaying -----

  /** The same nodes in the same order; keys smaller than t are left of the root and greater ones right. */
  ghost predicate Splayed(nodes0: seq<Bnode>, tree0: Tree, t: int, nodes: seq<Bnode>, n: nat, tree: Tree) {
    && Kept(nodes0, Refs(tree0), t, nodes) && Rep(nodes, n, tree) && Refs(tree) == Refs(tree0)
    && (tree.Node? ==>
          && (forall r | r in Refs(tree.left) && r < |nodes| :: nodes[r].element < t)
          && (forall r | r in Refs(tree.right) && r < |nodes| :: nodes[r].element > t))
  }

  function Assembled(nodes: seq<Bnode>, lm: nat, rm: nat, n: nat): (r: seq<Bnode>)
    requires HEADER < |nodes| && lm < |nodes| && rm < |nodes| && n < |nodes|
    ensures |r| == |nodes|
  {
    var nodes1 := SetKid(nodes, lm, true, nodes[n].left);
    var nodes2 := SetKid(nodes1, rm, false, nodes1[n].right);
    var nodes3 := SetKid(nodes2, n, false, nodes2[HEADER].right);
    SetKid(nodes3, n, true, nodes3[HEADER].left)
  }

  lemma AssembledShape(nodes: seq<Bnode>, ls: seq<Hang>, n: nat, mid: Tree, rs: seq<Hang>, nodes0: seq<Bnode>, order: seq<nat>, t: int)
    requires Splaying(nodes0, order, t, nodes, ls, n, mid, rs) && mid.Node?
    requires HEADER < |nodes| && Tail(ls) < |nodes| && Tail(rs) < |nodes| && n < |nodes|
    ensures Kept(nodes0, order, t, Assembled(nodes, Tail(ls), Tail(rs), n))
    ensures Rep(Assembled(nodes, Tail(ls), Tail(rs), n), n, Node(Closed(ls, mid.left, true), n, Closed(rs, mid.right, false)))
    ensures Refs(Node(Closed(ls, mid.left, true), n, Closed(rs, mid.right, false))) == order
  {
    hide Rep, Chain, ChainRefs, NoDup, Refs, Kept, Ascending, RefsOk, Closed;
    Middle(nodes0, order, t, nodes, ls, n, mid, rs);
    TailIsNode(nodes, ls, true);
    TailIsNode(nodes, rs, false);
    NodeInMid(mid);
    var lm, rm := Tail(ls), Tail(rs);
    var nodes1 := SetKid(nodes, lm, true, nodes[n].left);
    var nodes2 := SetKid(nodes1, rm, false, nodes1[n].right);
    KeptSet(nodes0, order, t, nodes, lm, true, nodes[n].left);
    KeptSet(nodes0, order, t, nodes1, rm, false, nodes1[n].right);
    ChainSet(nodes, ls, true, lm, true, nodes[n].left);
    ChainSet(nodes1, ls, true, rm, false, nodes1[n].right);
    ChainSet(nodes, rs, false, lm, true, nodes[n].left);
    ChainSet(nodes1, rs, false, rm, false, nodes1[n].right);
    RepFrame(nodes, nodes2, nodes[n].left, mid.left);
    RepFrame(nodes, nodes2, nodes[n].right, mid.right);
    ClosedRep(nodes2, ls, mid.left, true);
    ClosedRep(nodes2, rs, mid.right, false);
    ClosedRefs(ls, mid.left, true);
    ClosedRefs(rs, mid.right, false);
    var l, r := Closed(ls, mid.left, true), Closed(rs, mid.right, false);
    var nodes3 := SetKid(nodes2, n, false, nodes2[HEADER].right);
    var nodes4 := SetKid(nodes3, n, true, nodes3[HEADER].left);
    KeptSet(nodes0, order, t, nodes2, n, false, nodes2[HEADER].right);
    KeptSet(nodes0, order, t, nodes3, n, true, nodes3[HEADER].left);
    RepFrame(nodes2, nodes4, nodes2[HEADER].right, l);
    RepFrame(nodes2, nodes4, nodes2[HEADER].left, r);
    RepJoin(nodes4, n, Node(l, n, r));
    RefsNode(Node(l, n, r));
    RefsNode(mid);
    Regroup(ChainRefs(ls, true), Refs(mid.left), n, Refs(mid.right), ChainRefs(rs, false));
  }

  /** When the key was met, or the side it would be on is empty, the two trees are complete. */
  lemma SplayEnds(nodes0: seq<Bnode>, tree0: Tree, t: int, nodes: seq<Bnode>, ls: seq<Hang>, n: nat, mid: Tree, rs: seq<Hang>)
    requires Splaying(nodes0, Refs(tree0), t, nodes, ls, n, mid, rs) && mid.Node?
    requires HEADER < |nodes| && Tail(ls) < |nodes| && Tail(rs) < |nodes| && n < |nodes|
    requires nodes[n].element == t || (t < nodes[n].element && mid.left.Leaf?) || (nodes[n].element < t && mid.right.Leaf?)
    ensures Splayed(nodes0, tree0, t, Assembled(nodes, Tail(ls), Tail(rs), n), n,
                    Node(Closed(ls, mid.left, true), n, Closed(rs, mid.right, false)))
  {
    hide Rep, Chain, ChainRefs, NoDup, Ascending, RefsOk, Closed, Assembled;
    AssembledShape(nodes, ls, n, mid, rs, nodes0, Refs(tree0), t);
    ClosedRefs(ls, mid.left, true);
    ClosedRefs(rs, mid.right, false);
    Middle(nodes0, Refs(tree0), t, nodes, ls, n, mid, rs);
    RefsNode(mid);
    var a, b := ChainRefs(ls, true), ChainRefs(rs, false);
    Regroup(a, Refs(mid.left), n, Refs(mid.right), b);
    KeysAround(nodes0, a + Refs(mid.left), n, Refs(mid.right) + b);
  }

  lemma SplayStarts(nodes0: seq<Bnode>, tree0: Tree, n: nat, t: int, nodes: seq<Bnode>)
    requires |nodes0| > HEADER && nodes0[NIL].left == NIL && nodes0[NIL].right == NIL && Rep(nodes0, n, tree0)
    requires RefsOk(nodes0, Refs(tree0)) && Ascending(nodes0, Refs(tree0))
    requires |nodes| == |nodes0| && nodes[NIL] == nodes0[NIL].(element := t)
    requires forall r: nat | HEADER < r < |nodes| :: nodes[r] == nodes0[r]
    ensures Splaying(nodes0, Refs(tree0), t, nodes, [], n, tree0, [])
  {
    RepRefs(nodes0, n, tree0);
    RepFrame(nodes0, nodes, n, tree0);
  }

  /** The empty tree is left alone. */
  lemma SplayedNothing(nodes0: seq<Bnode>, t: int, nodes: seq<Bnode>)
    requires Splaying(nodes0, [], t, nodes, [], NIL, Leaf, []) && |nodes| > HEADER
    ensures Splayed(nodes0, Leaf, t, Assembled(nodes, HEADER, HEADER, NIL), NIL, Leaf)
  {
  }

  /** A rotation or a link makes the middle smaller or keeps it. */
  lemma RefsShrink(t: Tree)
    requires t.Node?
    ensures |Refs(t.left)| < |Refs(t)| && |Refs(t.right)| < |Refs(t)|
  {
  }

  predicate SortedKeys(s: seq<int>) {
    forall i, j | 0 <= i < j < |s| :: s[i] < s[j]
  }

  class SplayTree {
    var nodes: seq<Bnode>
    var root: nat
    var lastNode: OptNode      // a node made for a key that turned out to be present
    ghost var tree: Tree

    ghost predicate Ready(n: nat, t: Tree)
      reads this
    {
      && |nodes| > HEADER && nodes[NIL].left == NIL && nodes[NIL].right == NIL
      && Rep(nodes, n, t) && RefsOk(nodes, Refs(t)) && Ascending(nodes, Refs(t))
    }

    ghost predicate Valid()
      reads this
    {
      Ready(root, tree) && (lastNode.SomeNode? ==> HEADER < lastNode.n < |nodes| && lastNode.n !in Refs(tree))
    }

    /** The keys in their order. */
    ghost function Contents(): (s: seq<int>)
      reads this
      requires Valid()
      ensures SortedKeys(s)
    {
      Keys(nodes, Refs(tree))
    }

    /** An empty tree; e is the first key of the nil node. */
    constructor (e: int)
      ensures Valid() && Contents() == []
    {
      nodes := [Bnode(e, NIL, NIL), Bnode(e, NIL, NIL)];
      root, lastNode, tree := NIL, NoNode, Leaf;
    }

    method SetLeft(n: nat, p: nat)
      requires n < |nodes|
      modifies this`nodes
      ensures nodes == SetKid(old(nodes), n, false, p)
    {
      nodes := nodes[n := nodes[n].(left := p)];
    }

    method SetRight(n: nat, p: nat)
      requires n < |nodes|
      modifies this`nodes
      ensures nodes == SetKid(old(nodes), n, true, p)
    {
      nodes := nodes[n := nodes[n].(right := p)];
    }

    method RotateWithLeftChild(k2: nat) returns (k1: nat)
      requires k2 < |nodes| && nodes[k2].left < |nodes|
      modifies this`nodes
      ensures k1 == old(nodes)[k2].left
      ensures nodes == SetKid(SetKid(old(nodes), k2, false, old(nodes)[k1].right), k1, true, k2)
    {
      k1 := nodes[k2].left;
      SetLeft(k2, nodes[k1].right);
      SetRight(k1, k2);
    }

    method RotateWithRightChild(k1: nat) returns (k2: nat)
      requires k1 < |nodes| && nodes[k1].right < |nodes|
      modifies this`nodes
      ensures k2 == old(nodes)[k1].right
      ensures nodes == SetKid(SetKid(old(nodes), k1, true, old(nodes)[k2].left), k2, false, k1)
    {
      k2 := nodes[k1].right;
      SetRight(k1, nodes[k2].left);
      SetLeft(k2, k1);
    }

    /** One step of splaying to a smaller key; it stops where there is no left child. */
    method GoLeft(t: int, n: nat, rightTreeMin: nat, ghost nodes0: seq<Bnode>, ghost order: seq<nat>,
                  ghost ls: seq<Hang>, ghost mid: Tree, ghost rs: seq<Hang>)
      returns (stop: bool, n': nat, rightTreeMin': nat, ghost mid': Tree, ghost rs': seq<Hang>)
      requires Splaying(nodes0, order, t, nodes, ls, n, mid, rs) && mid.Node? && n < |nodes| && t < nodes[n].element
      requires rightTreeMin == Tail(rs)
      modifies this`nodes
      ensures Splaying(nodes0, order, t, nodes, ls, n', mid', rs') && mid'.Node? && rightTreeMin' == Tail(rs')
      ensures n' < |nodes|
      ensures if stop then mid'.left.Leaf? && t < nodes[n'].element else |Refs(mid')| < |Refs(mid)|
    {
      hide Rep, Chain, ChainRefs, NoDup, Ascending, RefsOk, Refs, Parts, Splaying, Kept, Shape, Disjoint;
      stop, n', rightTreeMin', mid', rs' := false, n, rightTreeMin, mid, rs;
      Middle(nodes0, order, t, nodes, ls, n, mid, rs);
      if t < nodes[nodes[n].left].element {
        RotatedLeft(nodes0, order, t, nodes, ls, n, mid, rs, nodes[n].left);
        RotationRefs(mid);
        n' := RotateWithLeftChild(n);
        mid' := RotateLeftChild(mid);
        Middle(nodes0, order, t, nodes, ls, n', mid', rs);
      }
      if nodes[n'].left == NIL {
        stop := true;
        return;
      }
      LinkRight(nodes0, order, t, nodes, ls, n', mid', rs);
      RefsShrink(mid');
      SetLeft(rightTreeMin, n');
      rs', rightTreeMin' := rs + [Hang(n', mid'.right)], n';
      n', mid' := nodes[n'].left, mid'.left;
      Middle(nodes0, order, t, nodes, ls, n', mid', rs');
    }

    /** One step of splaying to a greater key; it stops where there is no right child. */
    method GoRight(t: int, n: nat, leftTreeMax: nat, ghost nodes0: seq<Bnode>, ghost order: seq<nat>,
                  ghost ls: seq<Hang>, ghost mid: Tree, ghost rs: seq<Hang>)
      returns (stop: bool, n': nat, leftTreeMax': nat, ghost mid': Tree, ghost ls': seq<Hang>)
      requires Splaying(nodes0, order, t, nodes, ls, n, mid, rs) && mid.Node? && n < |nodes| && nodes[n].element < t
      requires leftTreeMax == Tail(ls)
      modifies this`nodes
      ensures Splaying(nodes0, order, t, nodes, ls', n', mid', rs) && mid'.Node? && leftTreeMax' == Tail(ls')
      ensures n' < |nodes|
      ensures if stop then mid'.right.Leaf? && nodes[n'].element < t else |Refs(mid')| < |Refs(mid)|
    {
      hide Rep, Chain, ChainRefs, NoDup, Ascending, RefsOk, Refs, Parts, Splaying, Kept, Shape, Disjoint;
      stop, n', leftTreeMax', mid', ls' := false, n, leftTreeMax, mid, ls;
      Middle(nodes0, order, t, nodes, ls, n, mid, rs);
      if nodes[nodes[n].right].element < t {
        RotatedRight(nodes0, order, t, nodes, ls, n, mid, rs, nodes[n].right);
        RotationRefs(mid);
        n' := RotateWithRightChild(n);
        mid' := RotateRightChild(mid);
        Middle(nodes0, order, t, nodes, ls, n', mid', rs);
      }
      if nodes[n'].right == NIL {
        stop := true;
        return;
      }
      LinkLeft(nodes0, order, t, nodes, ls, n', mid', rs);
      RefsShrink(mid');
      SetRight(leftTreeMax, n');
      ls', leftTreeMax' := ls + [Hang(n', mid'.left)], n';
      n', mid' := nodes[n'].right, mid'.right;
      Middle(nodes0, order, t, nodes, ls', n', mid', rs);
    }

    /** Brings the key t, or a neighbour of where it would be, to the top of the tree at n0. */
    method Splay(t: int, n0: nat, ghost tree0: Tree) returns (n: nat, ghost result: Tree)
      requires Ready(n0, tree0)
      modifies this`nodes
      ensures Splayed(old(nodes), tree0, t, nodes, n, result)
    {
      hide Rep, Chain, ChainRefs, NoDup, Ascending, RefsOk, Closed, Refs, Parts, Splaying, Splayed, Kept, Shape, Disjoint, Assembled, SetKid;
      ghost var nodes0 := nodes;
      n := n0;
      SetLeft(HEADER, NIL);
      SetRight(HEADER, NIL);
      var leftTreeMax, rightTreeMin := HEADER, HEADER;
      nodes := nodes[NIL := nodes[NIL].(element := t)];
      SplayStarts(nodes0, tree0, n, t, nodes);
      ghost var ls: seq<Hang>, rs: seq<Hang>, mid := [], [], tree0;
      while true
        modifies this`nodes
        invariant Splaying(nodes0, Refs(tree0), t, nodes, ls, n, mid, rs)
        invariant leftTreeMax == Tail(ls) && rightTreeMin == Tail(rs)
        invariant mid.Node? || (ls == [] && rs == [] && mid == tree0)
        decreases |Refs(mid)|
      {
        Middle(nodes0, Refs(tree0), t, nodes, ls, n, mid, rs);
        if t < nodes[n].element {
          var stop;
          stop, n, rightTreeMin, mid, rs := GoLeft(t, n, rightTreeMin, nodes0, Refs(tree0), ls, mid, rs);
          if stop {
            break;
          }
        } else if nodes[n].element < t {
          var stop;
          stop, n, leftTreeMax, mid, ls := GoRight(t, n, leftTreeMax, nodes0, Refs(tree0), ls, mid, rs);
          if stop {
            break;
          }
        } else {
          break;
        }
      }
      Middle(nodes0, Refs(tree0), t, nodes, ls, n, mid, rs);
      result := Leaf;
      if mid.Node? {
        SplayEnds(nodes0, tree0, t, nodes, ls, n, mid, rs);
        result := Node(Closed(ls, mid.left, true), n, Closed(rs, mid.right, false));
      } else {
        NoRefs();
        SplayedNothing(nodes0, t, nodes);
      }
      Reassemble(leftTreeMax, rightTreeMin, n);
    }

    /** Hangs the children of the middle node on the two trees, and these on the middle node. */
    method Reassemble(leftTreeMax: nat, rightTreeMin: nat, n: nat)
      requires HEADER < |nodes| && leftTreeMax < |nodes| && rightTreeMin < |nodes| && n < |nodes|
      modifies this`nodes
      ensures nodes == Assembled(old(nodes), leftTreeMax, rightTreeMin, n)
    {
      SetRight(leftTreeMax, nodes[n].left);
      SetLeft(rightTreeMin, nodes[n].right);
      SetLeft(n, nodes[HEADER].right);
      SetRight(n, nodes[HEADER].left);
    }

    /** Adds the key unless it is present; a new key is at the root. */
    method Insert(x: int) returns (y: int)
      requires Valid()
      modifies this
      ensures Valid() && y == x
      ensures forall k :: k in Contents() <==> k == x || k in old(Contents())
      ensures x in old(Contents()) ==> Contents() == old(Contents())
      ensures root != NIL && root < |nodes| && nodes[root].element == x
    {
      hide Rep, NoDup, Ascending, RefsOk, Refs, Splayed, Keys;
      ghost var nodes0 := nodes;
      if lastNode == NoNode {
        lastNode := SomeNode(|nodes|);
        nodes := nodes + [Bnode(x, NIL, NIL)];
      }
      var last := lastNode.n;
      nodes := nodes[last := nodes[last].(element := x)];
      NodeMade(nodes0, nodes, root, tree, last);
      if root == NIL {
        SetLeft(last, NIL);
        SetRight(last, NIL);
        RootOnly(nodes0, nodes, tree, last);
        root, tree := last, Node(Leaf, last, Leaf);
      } else {
        var present := PutOnTop(x, last);
        if present {
          y := nodes[root].element;
          return;
        }
      }
      lastNode := NoNode;
      y := x;
    }

    /** Splays a nonempty tree and makes the node of the key its root, unless the key is present. */
    method PutOnTop(x: int, last: nat) returns (present: bool)
      requires Ready(root, tree) && root != NIL
      requires HEADER < last < |nodes| && last !in Refs(tree) && nodes[last].element == x
      modifies this`nodes, this`root, this`tree
      ensures Ready(root, tree)
      ensures forall k :: k in Keys(nodes, Refs(tree)) <==> k == x || k in old(Keys(nodes, Refs(tree)))
      ensures x in old(Keys(nodes, Refs(tree))) ==> Keys(nodes, Refs(tree)) == old(Keys(nodes, Refs(tree)))
      ensures present ==> last < |nodes| && last !in Refs(tree)
      ensures HEADER < root < |nodes| && nodes[root].element == x
    {
      hide Rep, NoDup, Ascending, RefsOk, Refs, Splayed, Keys;
      present := false;
      ghost var nodes1 := nodes;
      RepRefs(nodes, root, tree);
      root, tree := Splay(x, root, tree);
      SplayedTop(nodes1, old(root), old(tree), x, nodes, root, tree);
      ghost var nodes2 := nodes;
      if nodes[root].element != x {
        NotAtRoot(nodes2, root, tree, x);
      }
      if x < nodes[root].element {
        SetLeft(last, nodes[root].left);
        SetRight(last, root);
        SetLeft(root, NIL);
        LastAbove(nodes2, nodes, root, tree, last, x);
        root, tree := last, Node(tree.left, last, Node(Leaf, root, tree.right));
      } else if nodes[root].element < x {
        SetRight(last, nodes[root].right);
        SetLeft(last, root);
        SetRight(root, NIL);
        LastBelow(nodes2, nodes, root, tree, last, x);
        root, tree := last, Node(Node(tree.left, root, Leaf), last, tree.right);
      } else {
        RootKey(nodes, root, tree);
        present := true;
      }
    }

    /** Deletes the node of the key.  On the empty tree it is the nil node that is deleted, and nothing
        is promised of the tree any more. */
    method Remove(x: int) returns (deleted: OptNode)
      requires Valid()
      modifies this
      ensures deleted == SomeNode(NIL) <==> old(Contents()) == []
      ensures old(Contents()) != [] ==> Valid() && forall k :: k in Contents() <==> k != x && k in old(Contents())
      ensures old(Contents()) != [] ==> (deleted == NoNode <==> x !in old(Contents()))
      ensures old(Contents()) != [] && deleted.SomeNode? ==>
                deleted.n < |nodes| && nodes[deleted.n].element == x && deleted.n !in Refs(tree)
    {
      hide Rep, NoDup, Ascending, RefsOk, Refs, Splayed, Keys;
      ghost var nodes0 := nodes;
      RepRefs(nodes, root, tree);
      NoKeys(nodes, tree);
      root, tree := Splay(x, root, tree);
      SplayedTop(nodes0, old(root), old(tree), x, nodes, root, tree);
      if nodes[root].element != x {
        deleted := NoNode;
        NotAtRoot(nodes, root, tree, x);
        return;
      }
      deleted := SomeNode(root);
      ghost var top, nodes1 := tree, nodes;
      if tree.Node? {
        RootKey(nodes, root, tree);
      }
      if nodes[root].left == NIL {
        if tree.Node? {
          OnlyRight(nodes, root, tree);
          tree := tree.right;
        }
        root := nodes[root].right;
      } else {
        LeftPart(nodes, root, tree);
        var newTree;
        newTree, tree := Splay(x, nodes[root].left, tree.left);
        SplayedTop(nodes1, nodes1[root].left, top.left, x, nodes, newTree, tree);
        ghost var nodes2 := nodes;
        SetRight(newTree, nodes[root].right);
        Joined(nodes1, root, top, nodes2, newTree, tree, nodes);
        root, tree := newTree, Node(tree.left, newTree, top.right);
      }
    }
  }

  lemma NoRefs()
    ensures Refs(Leaf) == []
  {
  }

  /** The nodes and keys of a tree, seen from a store that changed elsewhere. */
  lemma NodeMade(nodes0: seq<Bnode>, nodes: seq<Bnode>, root: nat, tree: Tree, last: nat)
    requires Rep(nodes0, root, tree) && RefsOk(nodes0, Refs(tree)) && Ascending(nodes0, Refs(tree))
    requires last !in Refs(tree) || last >= |nodes0|
    requires |nodes0| <= |nodes| && forall r | 0 <= r < |nodes0| && r != last :: nodes[r] == nodes0[r]
    ensures last !in Refs(tree) && Rep(nodes, root, tree) && RefsOk(nodes, Refs(tree)) && Ascending(nodes, Refs(tree))
    ensures Keys(nodes, Refs(tree)) == Keys(nodes0, Refs(tree))
    ensures root == NIL <==> tree.Leaf?
  {
    hide Rep, Refs, Keys, Ascending;
    RepRefs(nodes0, root, tree);
    RepFrame(nodes0, nodes, root, tree);
    KeysSame(nodes0, nodes, Refs(tree));
  }

  lemma KeysSame(nodes0: seq<Bnode>, nodes: seq<Bnode>, refs: seq<nat>)
    requires RefsOk(nodes0, refs) && Ascending(nodes0, refs) && |nodes0| <= |nodes|
    requires forall r | r in refs && r < |nodes0| :: nodes[r].element == nodes0[r].element
    ensures RefsOk(nodes, refs) && Ascending(nodes, refs) && Keys(nodes, refs) == Keys(nodes0, refs)
    ensures forall r | r in refs :: HEADER < r < |nodes0|
  {
    assert forall i | 0 <= i < |refs| :: refs[i] in refs;
  }

  lemma RootOnly(nodes0: seq<Bnode>, nodes: seq<Bnode>, tree: Tree, last: nat)
    requires tree.Leaf? && HEADER < last < |nodes| && nodes[last].left == NIL && nodes[last].right == NIL
    ensures RefsOk(nodes0, Refs(tree)) && Keys(nodes0, Refs(tree)) == []
    ensures Rep(nodes, last, Node(Leaf, last, Leaf)) && Refs(Node(Leaf, last, Leaf)) == [last]
    ensures RefsOk(nodes, [last]) && Ascending(nodes, [last]) && Keys(nodes, [last]) == [nodes[last].element]
  {
  }

  /** After splaying a nonempty tree. */
  lemma SplayedTop(nodes0: seq<Bnode>, root0: nat, tree0: Tree, t: int, nodes: seq<Bnode>, n: nat, tree: Tree)
    requires Splayed(nodes0, tree0, t, nodes, n, tree) && Rep(nodes0, root0, tree0)
    requires RefsOk(nodes0, Refs(tree0)) && Ascending(nodes0, Refs(tree0))
    ensures Kept(nodes0, Refs(tree0), t, nodes) && Rep(nodes, n, tree) && Refs(tree) == Refs(tree0)
    ensures RefsOk(nodes, Refs(tree)) && Ascending(nodes, Refs(tree)) && Keys(nodes, Refs(tree)) == Keys(nodes0, Refs(tree0))
    ensures tree.Node? <==> tree0.Node?
    ensures tree.Leaf? <==> n == NIL
    ensures tree.Node? ==> HEADER < n < |nodes| && n == tree.n
    ensures tree.Node? ==> nodes[n].left < |nodes| && nodes[n].right < |nodes|
    ensures tree.Node? ==> forall r | r in Refs(tree.left) && r < |nodes| :: nodes[r].element < t
    ensures tree.Node? ==> forall r | r in Refs(tree.right) && r < |nodes| :: nodes[r].element > t
  {
    hide Rep, Refs, Keys, Ascending, RefsOk;
    RepRefs(nodes, n, tree);
    RepRefs(nodes0, root0, tree0);
    KeysSame(nodes0, nodes, Refs(tree));
    SameKind(tree, tree0);
    if tree.Node? {
      RepNode(nodes, n, tree);
      RepRefs(nodes, nodes[n].left, tree.left);
      RepRefs(nodes, nodes[n].right, tree.right);
    }
  }

  lemma SameKind(a: Tree, b: Tree)
    requires Refs(a) == Refs(b)
    ensures a.Node? <==> b.Node?
  {
    if a.Node? {
      RefsNode(a);
    }
    if b.Node? {
      RefsNode(b);
    }
  }

  lemma KeyParts(nodes: seq<Bnode>, a: seq<nat>, b: seq<nat>)
    ensures RefsOk(nodes, a + b) <==> RefsOk(nodes, a) && RefsOk(nodes, b)
    ensures RefsOk(nodes, a + b) ==> Keys(nodes, a + b) == Keys(nodes, a) + Keys(nodes, b)
    ensures RefsOk(nodes, a + b) ==> (Ascending(nodes, a + b) <==> SortedKeys(Keys(nodes, a + b)))
  {
    if RefsOk(nodes, a + b) {
      assert forall i | 0 <= i < |a| :: (a + b)[i] == a[i];
      assert forall i | 0 <= i < |b| :: (a + b)[|a| + i] == b[i];
    }
  }

  lemma SortedBetween(a: seq<int>, x: int, b: seq<int>)
    requires SortedKeys(a + b) && (forall k | k in a :: k < x) && (forall k | k in b :: x < k)
    ensures SortedKeys(a + [x] + b)
  {
    var ab, axb := a + b, a + [x] + b;
    forall i, j | 0 <= i < j < |axb| ensures axb[i] < axb[j] {
      assert i < |a| ==> axb[i] == ab[i] && axb[i] in a;
      assert i > |a| ==> axb[i] == ab[i - 1];
      assert j < |a| ==> axb[j] == ab[j];
      assert j > |a| ==> axb[j] == ab[j - 1] && axb[j] in b;
    }
  }

  /** A key put between two parts of the sequence. */
  lemma KeyBetween(nodes0: seq<Bnode>, nodes: seq<Bnode>, a: seq<nat>, b: seq<nat>, last: nat)
    requires RefsOk(nodes0, a + b) && Ascending(nodes0, a + b) && |nodes| == |nodes0| && HEADER < last < |nodes|
    requires forall r | r in a + b && r < |nodes| :: nodes[r].element == nodes0[r].element
    requires forall r | r in a && r < |nodes| :: nodes[r].element < nodes[last].element
    requires forall r | r in b && r < |nodes| :: nodes[r].element > nodes[last].element
    ensures RefsOk(nodes, a + [last] + b) && Ascending(nodes, a + [last] + b)
    ensures forall k :: k in Keys(nodes, a + [last] + b) <==> k == nodes[last].element || k in Keys(nodes0, a + b)
  {
    hide Ascending, SortedKeys;
    KeyParts(nodes0, a, b);
    KeysOf(nodes0, nodes, a);
    KeysOf(nodes0, nodes, b);
    KeyParts(nodes, a, [last]);
    KeyParts(nodes, a + [last], b);
    assert Keys(nodes, [last]) == [nodes[last].element];
    SortedBetween(Keys(nodes, a), nodes[last].element, Keys(nodes, b));
    KeyParts(nodes, a + [last] + b, []);
    assert a + [last] + b + [] == a + [last] + b;
  }

  lemma KeysOf(nodes0: seq<Bnode>, nodes: seq<Bnode>, a: seq<nat>)
    requires RefsOk(nodes0, a) && |nodes| == |nodes0| && forall r | r in a && r < |nodes| :: nodes[r].element == nodes0[r].element
    ensures RefsOk(nodes, a) && Keys(nodes, a) == Keys(nodes0, a)
    ensures forall k | k in Keys(nodes, a) :: exists r | r in a && r < |nodes| :: nodes[r].element == k
  {
    assert forall i | 0 <= i < |a| :: a[i] in a;
    forall k | k in Keys(nodes, a) ensures exists r | r in a && r < |nodes| :: nodes[r].element == k {
      var i :| 0 <= i < |a| && Keys(nodes, a)[i] == k;
      assert a[i] in a && nodes[a[i]].element == k;
    }
  }

  /** A node smaller than the root takes the root's left subtree and the root itself as children. */
  lemma LastAbove(nodes0: seq<Bnode>, nodes: seq<Bnode>, n: nat, tree: Tree, last: nat, x: int)
    requires tree.Node? && Rep(nodes0, n, tree) && RefsOk(nodes0, Refs(tree)) && Ascending(nodes0, Refs(tree))
    requires HEADER < n < |nodes0| && HEADER < last < |nodes0| && last !in Refs(tree)
    requires nodes0[last].element == x < nodes0[n].element
    requires forall r | r in Refs(tree.left) && r < |nodes0| :: nodes0[r].element < x
    requires nodes == SetKid(SetKid(SetKid(nodes0, last, false, nodes0[n].left), last, true, n), n, false, NIL)
    ensures var tree' := Node(tree.left, last, Node(Leaf, n, tree.right));
      && Rep(nodes, last, tree') && RefsOk(nodes, Refs(tree')) && Ascending(nodes, Refs(tree'))
      && forall k :: k in Keys(nodes, Refs(tree')) <==> k == x || k in Keys(nodes0, Refs(tree))
  {
    hide Rep, Refs, Keys, NoDup, Ascending, RefsOk;
    RepNode(nodes0, n, tree);
    RefsNode(tree);
    RefsNode(Node(Leaf, n, tree.right));
    NoRefs();
    AscendingNoDup(nodes0, Refs(tree));
    NodeInMid(tree);
    RepFrame(nodes0, nodes, nodes0[n].left, tree.left);
    RepFrame(nodes0, nodes, nodes0[n].right, tree.right);
    RepLeaf(nodes);
    RepJoin(nodes, n, Node(Leaf, n, tree.right));
    RepJoin(nodes, last, Node(tree.left, last, Node(Leaf, n, tree.right)));
    RefsNode(Node(tree.left, last, Node(Leaf, n, tree.right)));
    KeysAround(nodes0, Refs(tree.left), n, Refs(tree.right));
    Assoc(Refs(tree.left), [n], Refs(tree.right));
    assert [] + [n] == [n];
    KeyBetween(nodes0, nodes, Refs(tree.left), [n] + Refs(tree.right), last);
  }

  lemma LastBelow(nodes0: seq<Bnode>, nodes: seq<Bnode>, n: nat, tree: Tree, last: nat, x: int)
    requires tree.Node? && Rep(nodes0, n, tree) && RefsOk(nodes0, Refs(tree)) && Ascending(nodes0, Refs(tree))
    requires HEADER < n < |nodes0| && HEADER < last < |nodes0| && last !in Refs(tree)
    requires nodes0[last].element == x > nodes0[n].element
    requires forall r | r in Refs(tree.right) && r < |nodes0| :: nodes0[r].element > x
    requires nodes == SetKid(SetKid(SetKid(nodes0, last, true, nodes0[n].right), last, false, n), n, true, NIL)
    ensures var tree' := Node(Node(tree.left, n, Leaf), last, tree.right);
      && Rep(nodes, last, tree') && RefsOk(nodes, Refs(tree')) && Ascending(nodes, Refs(tree'))
      && forall k :: k in Keys(nodes, Refs(tree')) <==> k == x || k in Keys(nodes0, Refs(tree))
  {
    hide Rep, Refs, Keys, NoDup, Ascending, RefsOk;
    RepNode(nodes0, n, tree);
    RefsNode(tree);
    RefsNode(Node(tree.left, n, Leaf));
    NoRefs();
    AscendingNoDup(nodes0, Refs(tree));
    NodeInMid(tree);
    RepFrame(nodes0, nodes, nodes0[n].left, tree.left);
    RepFrame(nodes0, nodes, nodes0[n].right, tree.right);
    RepLeaf(nodes);
    RepJoin(nodes, n, Node(tree.left, n, Leaf));
    RepJoin(nodes, last, Node(Node(tree.left, n, Leaf), last, tree.right));
    RefsNode(Node(Node(tree.left, n, Leaf), last, tree.right));
    KeysAround(nodes0, Refs(tree.left), n, Refs(tree.right));
    assert Refs(tree.left) + [n] + [] == Refs(tree.left) + [n];
    KeyBetween(nodes0, nodes, Refs(tree.left) + [n], Refs(tree.right), last);
  }

  lemma AscendingNoDup(nodes: seq<Bnode>, refs: seq<nat>)
    requires RefsOk(nodes, refs) && Ascending(nodes, refs)
    ensures NoDup(refs)
  {
  }

  lemma RepLeaf(nodes: seq<Bnode>)
    ensures Rep(nodes, NIL, Leaf)
  {
  }

  lemma RootKey(nodes: seq<Bnode>, n: nat, tree: Tree)
    requires Rep(nodes, n, tree) && tree.Node? && RefsOk(nodes, Refs(tree)) && n < |nodes|
    ensures nodes[n].element in Keys(nodes, Refs(tree))
  {
    var refs := Refs(tree);
    assert refs[|Refs(tree.left)|] == n;
    assert Keys(nodes, refs)[|Refs(tree.left)|] == nodes[n].element;
  }

  /** A key that is not at the root after splaying is absent. */
  lemma NotAtRoot(nodes: seq<Bnode>, n: nat, tree: Tree, t: int)
    requires tree.Node? && Rep(nodes, n, tree) && RefsOk(nodes, Refs(tree)) && n < |nodes| && nodes[n].element != t
    requires forall r | r in Refs(tree.left) && r < |nodes| :: nodes[r].element < t
    requires forall r | r in Refs(tree.right) && r < |nodes| :: nodes[r].element > t
    ensures t !in Keys(nodes, Refs(tree))
  {
    RefsNode(tree);
    var refs := Refs(tree);
    forall i | 0 <= i < |refs| ensures Keys(nodes, refs)[i] != t {
      assert refs[i] in Refs(tree.left) || refs[i] == n || refs[i] in Refs(tree.right);
    }
  }

  lemma NoKeys(nodes: seq<Bnode>, tree: Tree)
    requires RefsOk(nodes, Refs(tree))
    ensures Keys(nodes, Refs(tree)) == [] <==> tree.Leaf?
  {
  }

  /** Without the root, whose left subtree is empty. */
  lemma OnlyRight(nodes: seq<Bnode>, n: nat, tree: Tree)
    requires tree.Node? && Rep(nodes, n, tree) && RefsOk(nodes, Refs(tree)) && Ascending(nodes, Refs(tree))
    requires n < |nodes| && nodes[n].left == NIL
    ensures Rep(nodes, nodes[n].right, tree.right) && RefsOk(nodes, Refs(tree.right)) && Ascending(nodes, Refs(tree.right))
    ensures n !in Refs(tree.right) && forall r | r in Refs(tree.right) :: r in Refs(tree)
    ensures forall k :: k in Keys(nodes, Refs(tree.right)) <==> k != nodes[n].element && k in Keys(nodes, Refs(tree))
  {
    hide Rep, Refs, Keys, Ascending, RefsOk;
    RepNode(nodes, n, tree);
    RepRefs(nodes, nodes[n].left, tree.left);
    NoRefs();
    RefsNode(tree);
    var r := Refs(tree.right);
    assert [] + [n] + r == [n] + r;
    WithoutRoot(nodes, [], n, r);
    assert [] + r == r;
  }

  /** The keys around a node are all keys but its own. */
  lemma WithoutRoot(nodes: seq<Bnode>, a: seq<nat>, n: nat, b: seq<nat>)
    requires RefsOk(nodes, a + [n] + b) && Ascending(nodes, a + [n] + b) && n < |nodes|
    ensures RefsOk(nodes, a) && RefsOk(nodes, b) && RefsOk(nodes, a + b) && Ascending(nodes, a + b) && n !in a && n !in b
    ensures Ascending(nodes, a) && Ascending(nodes, b)
    ensures forall k :: k in Keys(nodes, a + b) <==> k != nodes[n].element && k in Keys(nodes, a + [n] + b)
  {
    hide Ascending, SortedKeys;
    KeyParts(nodes, a, [n]);
    KeyParts(nodes, a + [n], b);
    KeyParts(nodes, a, b);
    KeysAround(nodes, a, n, b);
    KeysOf(nodes, nodes, a);
    KeysOf(nodes, nodes, b);
    assert Keys(nodes, [n]) == [nodes[n].element];
    SortedWithout(Keys(nodes, a), nodes[n].element, Keys(nodes, b));
    KeyParts(nodes, a, []);
    KeyParts(nodes, b, []);
    assert a + [] == a && b + [] == b;
  }

  lemma SortedWithout(a: seq<int>, x: int, b: seq<int>)
    requires SortedKeys(a + [x] + b)
    ensures SortedKeys(a + b) && SortedKeys(a) && SortedKeys(b)
  {
    var ab, axb := a + b, a + [x] + b;
    forall i, j | 0 <= i < j < |ab| ensures ab[i] < ab[j] {
      assert ab[i] == axb[if i < |a| then i else i + 1];
      assert ab[j] == axb[if j < |a| then j else j + 1];
    }
    assert forall i | 0 <= i < |a| :: ab[i] == a[i];
    assert forall i | 0 <= i < |b| :: ab[|a| + i] == b[i];
  }

  lemma LeftPart(nodes: seq<Bnode>, n: nat, tree: Tree)
    requires tree.Node? && Rep(nodes, n, tree) && RefsOk(nodes, Refs(tree)) && Ascending(nodes, Refs(tree))
    ensures n < |nodes| && Rep(nodes, nodes[n].left, tree.left) && RefsOk(nodes, Refs(tree.left)) && Ascending(nodes, Refs(tree.left))
    ensures nodes[n].left < |nodes| && (tree.left.Leaf? <==> nodes[n].left == NIL)
  {
    hide Rep, Refs, Keys, Ascending, RefsOk;
    RepNode(nodes, n, tree);
    RefsNode(tree);
    RepRefs(nodes, nodes[n].left, tree.left);
    WithoutRoot(nodes, Refs(tree.left), n, Refs(tree.right));
  }

  /** The splayed left subtree has no right child left and takes the right subtree instead. */
  lemma Joined(nodes1: seq<Bnode>, n: nat, top: Tree, nodes2: seq<Bnode>, m: nat, tree: Tree, nodes: seq<Bnode>)
    requires top.Node? && Rep(nodes1, n, top) && RefsOk(nodes1, Refs(top)) && Ascending(nodes1, Refs(top)) && HEADER < n < |nodes1|
    requires Kept(nodes1, Refs(top.left), nodes1[n].element, nodes2)
    requires tree.Node? && Rep(nodes2, m, tree) && Refs(tree) == Refs(top.left) && HEADER < m < |nodes2|
    requires forall r | r in Refs(tree.right) && r < |nodes2| :: nodes2[r].element > nodes1[n].element
    requires nodes == SetKid(nodes2, m, true, nodes2[n].right)
    ensures var tree' := Node(tree.left, m, top.right);
      && Rep(nodes, m, tree') && RefsOk(nodes, Refs(tree')) && Ascending(nodes, Refs(tree')) && n !in Refs(tree')
      && (forall r | r in Refs(tree') :: r in Refs(top))
      && forall k :: k in Keys(nodes, Refs(tree')) <==> k != nodes1[n].element && k in Keys(nodes1, Refs(top))
  {
    hide Rep, Refs, Keys, Ascending, RefsOk, NoDup, Kept;
    RepNode(nodes1, n, top);
    RepNode(nodes2, m, tree);
    RefsNode(top);
    var l, r := Refs(top.left), Refs(top.right);
    WithoutRoot(nodes1, l, n, r);
    AscendingNoDup(nodes1, Refs(top));
    PartsDisjoint(l, n, r);
    KeptParts(nodes1, l, nodes1[n].element, nodes2);
    KeysAround(nodes1, l, n, r);
    NothingRight(nodes2, tree, nodes1[n].element, l);
    RefsNode(Node(tree.left, m, top.right));
    assert Refs(Node(tree.left, m, top.right)) == l + r;
    JoinedShape(nodes1, n, top, nodes2, m, tree, nodes);
    KeysSame(nodes1, nodes, l + r);
  }

  lemma KeptParts(nodes0: seq<Bnode>, order: seq<nat>, t: int, nodes: seq<Bnode>)
    requires Kept(nodes0, order, t, nodes)
    ensures |nodes| == |nodes0|
    ensures forall r: nat | HEADER < r < |nodes| :: nodes[r].element == nodes0[r].element && (r !in order ==> nodes[r] == nodes0[r])
  {
  }

  /** The root of a splayed tree whose keys are all smaller than the key looked for has no right child. */
  lemma NothingRight(nodes: seq<Bnode>, tree: Tree, t: int, l: seq<nat>)
    requires tree.Node? && Refs(tree) == l && forall r | r in l :: r < |nodes| && nodes[r].element < t
    requires forall r | r in Refs(tree.right) && r < |nodes| :: nodes[r].element > t
    ensures Refs(tree.right) == [] && Refs(tree.left) + [tree.n] == l
  {
    hide Refs;
    RefsNode(tree);
    FirstIn(Refs(tree.right));
    assert Refs(tree.right) == [];
  }

  lemma JoinedShape(nodes1: seq<Bnode>, n: nat, top: Tree, nodes2: seq<Bnode>, m: nat, tree: Tree, nodes: seq<Bnode>)
    requires top.Node? && Rep(nodes1, n, top) && n < |nodes1| && Kept(nodes1, Refs(top.left), nodes1[n].element, nodes2)
    requires tree.Node? && Rep(nodes2, m, tree) && HEADER < m < |nodes2|
    requires NoDup(Refs(top.left)) && Refs(tree.left) + [m] == Refs(top.left)
    requires n !in Refs(top.left) && n != NIL && forall r | r in Refs(top.left) :: r !in Refs(top.right)
    requires forall r | r in Refs(top.right) :: HEADER < r < |nodes1|
    requires HEADER < n && nodes == SetKid(nodes2, m, true, nodes2[n].right)
    ensures Rep(nodes, m, Node(tree.left, m, top.right))
  {
    hide Rep, Refs, NoDup, Kept;
    KeptParts(nodes1, Refs(top.left), nodes1[n].element, nodes2);
    RepNode(nodes1, n, top);
    RepNode(nodes2, m, tree);
    NoDupJoin(Refs(tree.left), [m], true);
    assert m in [m];
    forall r | r in Refs(tree.left) || r == m ensures r in Refs(top.left) {
    }
    RepFrame(nodes2, nodes, nodes2[m].left, tree.left);
    RepFrame(nodes1, nodes, nodes1[n].right, top.right);
    RepJoin(nodes, m, Node(tree.left, m, top.right));
  }

  lemma FirstIn(a: seq<nat>)
    ensures a != [] ==> a[0] in a
  {
  }

  lemma PartsDisjoint(l: seq<nat>, n: nat, r: seq<nat>)
    requires NoDup(l + [n] + r)
    ensures n !in l && n !in r && NoDup(l) && NoDup(r) && forall x | x in l :: x !in r
  {
    NoDupJoin(l + [n], r, true);
    NoDupJoin(l, [n], true);
    assert n in [n] && n in l + [n];
  }
}
