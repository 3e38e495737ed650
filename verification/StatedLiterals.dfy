/** The literals that a formula states at top level, in the order in which a worklist visits them. */
module StatedLiterals {
  import opened Terms
  import opened LogicStore
  import opened TermMapping

  /** The polarity of the term is passed on to its arguments. */
  predicate Splits(t: Pterm, sgn: bool) {
    (t.symb.And? && (sgn || |t.args| == 1)) || (t.symb.Or? && (!sgn || |t.args| == 1))
  }

  /** Under the polarity sgn the term r states p at top level. */
  ghost predicate States(T: seq<Pterm>, r: PTRef, sgn: bool, p: PtAsgn)
    requires WfTerms(T) && r < |T|
    decreases r
  {
    assert WfTerm(T, r);
    var args := T[r].args;
    if T[r].symb.Not? then States(T, args[0], !sgn, p)
    else p == PtAsgn(r, sgn) || (Splits(T[r], sgn) && exists i | 0 <= i < |args| :: States(T, args[i], sgn, p))
  }

  // ----- the order -----

  /** What the term states, the term itself first and its last argument before the others. */
  function Lits(T: seq<Pterm>, r: PTRef, sgn: bool): seq<PtAsgn>
    requires WfTerms(T) && r < |T|
    decreases r, |T[r].args| + 1
  {
    assert WfTerm(T, r);
    if T[r].symb.Not? then Lits(T, T[r].args[0], !sgn)
    else [PtAsgn(r, sgn)] + if Splits(T[r], sgn) then LitsOf(T, r, sgn, |T[r].args|) else []
  }

  /** What the first n arguments state. */
  function LitsOf(T: seq<Pterm>, r: PTRef, sgn: bool, n: nat): seq<PtAsgn>
    requires WfTerms(T) && r < |T| && n <= |T[r].args|
    decreases r, n
  {
    assert WfTerm(T, r);
    if n == 0 then [] else Lits(T, T[r].args[n - 1], sgn) + LitsOf(T, r, sgn, n - 1)
  }

  /** The first occurrences of the elements that are not in seen. */
  function Dedup(s: seq<PtAsgn>, seen: set<PtAsgn>): seq<PtAsgn> {
    if s == [] then []
    else if s[0] in seen then Dedup(s[1..], seen)
    else [s[0]] + Dedup(s[1..], seen + {s[0]})
  }

  /** The order in which the literals that the root states are visited. */
  function Order(T: seq<Pterm>, root: PTRef): seq<PtAsgn>
    requires WfTerms(T) && root < |T|
  {
    Dedup(Lits(T, root, true), {})
  }

  lemma {:induction false} DedupMembers(s: seq<PtAsgn>, seen: set<PtAsgn>)
    ensures forall p :: p in Dedup(s, seen) <==> p in s && p !in seen
  {
    if s != [] {
      assert s == [s[0]] + s[1..];
      DedupMembers(s[1..], if s[0] in seen then seen else seen + {s[0]});
    }
  }

  lemma {:induction false} DedupDistinct(s: seq<PtAsgn>, seen: set<PtAsgn>)
    ensures forall i, j | 0 <= i < j < |Dedup(s, seen)| :: Dedup(s, seen)[i] != Dedup(s, seen)[j]
  {
    if s != [] {
      DedupDistinct(s[1..], if s[0] in seen then seen else seen + {s[0]});
      DedupMembers(s[1..], seen + {s[0]});
    }
  }

  /** A part that was seen before is dropped. */
  lemma {:induction false} DedupSeen(a: seq<PtAsgn>, b: seq<PtAsgn>, seen: set<PtAsgn>)
    requires forall p | p in a :: p in seen
    ensures Dedup(a + b, seen) == Dedup(b, seen)
  {
    if a == [] {
      assert a + b == b;
    } else {
      assert (a + b)[1..] == a[1..] + b && (a + b)[0] == a[0] && a[0] in a;
      DedupSeen(a[1..], b, seen);
    }
  }

  lemma DedupFirst(p: PtAsgn, s: seq<PtAsgn>, seen: set<PtAsgn>)
    requires p !in seen
    ensures Dedup([p] + s, seen) == [p] + Dedup(s, seen + {p})
  {
    assert ([p] + s)[1..] == s;
  }

  /** The list holds exactly what is stated. */
  lemma {:induction false} LitsState(T: seq<Pterm>, r: PTRef, sgn: bool)
    requires WfTerms(T) && r < |T|
    ensures forall p :: p in Lits(T, r, sgn) <==> States(T, r, sgn, p)
    decreases r, |T[r].args| + 1
  {
    assert WfTerm(T, r);
    if T[r].symb.Not? {
      LitsState(T, T[r].args[0], !sgn);
    } else if Splits(T[r], sgn) {
      LitsOfState(T, r, sgn, |T[r].args|);
    }
  }

  lemma {:induction false} LitsOfState(T: seq<Pterm>, r: PTRef, sgn: bool, n: nat)
    requires WfTerms(T) && r < |T| && n <= |T[r].args|
    ensures InStore(T, T[r].args)
    ensures forall p :: p in LitsOf(T, r, sgn, n) <==> exists i | 0 <= i < n :: States(T, T[r].args[i], sgn, p)
    decreases r, n
  {
    hide States;
    assert WfTerm(T, r);
    if n > 0 {
      LitsState(T, T[r].args[n - 1], sgn);
      LitsOfState(T, r, sgn, n - 1);
      forall p ensures p in LitsOf(T, r, sgn, n) <==> exists i | 0 <= i < n :: States(T, T[r].args[i], sgn, p) {
        if i :| 0 <= i < n && States(T, T[r].args[i], sgn, p) {
          assert i < n - 1 ==> p in LitsOf(T, r, sgn, n - 1);
        }
      }
    }
  }

  lemma OrderStates(T: seq<Pterm>, root: PTRef)
    requires WfTerms(T) && root < |T|
    ensures forall p :: p in Order(T, root) <==> States(T, root, true, p)
    ensures forall i, j | 0 <= i < j < |Order(T, root)| :: Order(T, root)[i] != Order(T, root)[j]
  {
    LitsState(T, root, true);
    DedupMembers(Lits(T, root, true), {});
    DedupDistinct(Lits(T, root, true), {});
  }

  // ----- the worklist -----

  function PureOf(T: seq<Pterm>, r: PTRef, sgn: bool): PtAsgn
    requires WfTerms(T) && r < |T|
  {
    var (p, neg) := Purify(T, r);
    PtAsgn(p, sgn != neg)
  }

  function PassedOn(T: seq<Pterm>, p: PtAsgn, i: nat): PtAsgn
    requires WfTerms(T) && p.tr < |T| && i < |T[p.tr].args|
  {
    assert WfTerm(T, p.tr);
    PureOf(T, T[p.tr].args[i], p.sgn)
  }

  /** What the first n arguments put on the worklist. */
  function PassedOns(T: seq<Pterm>, p: PtAsgn, n: nat): (r: seq<PtAsgn>)
    requires WfTerms(T) && p.tr < |T| && n <= |T[p.tr].args|
    ensures |r| == n && forall i | 0 <= i < n :: r[i] == PassedOn(T, p, i)
  {
    if n == 0 then [] else PassedOns(T, p, n - 1) + [PassedOn(T, p, n - 1)]
  }

  predicate InTerms(T: seq<Pterm>, queue: seq<PtAsgn>) {
    forall i | 0 <= i < |queue| :: queue[i].tr < |T| && !T[queue[i].tr].symb.Not?
  }

  /** What the worklist will state, from its top. */
  function Pending(T: seq<Pterm>, queue: seq<PtAsgn>): seq<PtAsgn>
    requires WfTerms(T) && InTerms(T, queue)
  {
    if queue == [] then []
    else Lits(T, queue[|queue| - 1].tr, queue[|queue| - 1].sgn) + Pending(T, queue[..|queue| - 1])
  }

  lemma {:induction false} PureLits(T: seq<Pterm>, r: PTRef, sgn: bool)
    requires WfTerms(T) && r < |T|
    ensures PureOf(T, r, sgn).tr <= r && !T[PureOf(T, r, sgn).tr].symb.Not?
    ensures Lits(T, PureOf(T, r, sgn).tr, PureOf(T, r, sgn).sgn) == Lits(T, r, sgn)
    decreases r
  {
    assert WfTerm(T, r);
    if T[r].symb.Not? {
      PureLits(T, T[r].args[0], !sgn);
    }
  }

  lemma PassedOnFacts(T: seq<Pterm>, p: PtAsgn, i: nat)
    requires WfTerms(T) && p.tr < |T| && i < |T[p.tr].args|
    ensures PassedOn(T, p, i).tr < p.tr && !T[PassedOn(T, p, i).tr].symb.Not? && T[p.tr].args[i] < |T|
    ensures Lits(T, PassedOn(T, p, i).tr, PassedOn(T, p, i).sgn) == Lits(T, T[p.tr].args[i], p.sgn)
  {
    assert WfTerm(T, p.tr);
    PureLits(T, T[p.tr].args[i], p.sgn);
  }

  lemma {:induction false} PendingPushed(T: seq<Pterm>, p: PtAsgn, queue: seq<PtAsgn>, n: nat)
    requires WfTerms(T) && p.tr < |T| && n <= |T[p.tr].args| && InTerms(T, queue)
    ensures InTerms(T, queue + PassedOns(T, p, n))
    ensures Pending(T, queue + PassedOns(T, p, n)) == LitsOf(T, p.tr, p.sgn, n) + Pending(T, queue)
  {
    hide Lits, PassedOn, WfTerms, Pending, InTerms;
    if n == 0 {
      assert queue + [] == queue;
      assert [] + Pending(T, queue) == Pending(T, queue);
    } else {
      PendingPushed(T, p, queue, n - 1);
      PassedOnFacts(T, p, n - 1);
      var x, y := Lits(T, T[p.tr].args[n - 1], p.sgn), LitsOf(T, p.tr, p.sgn, n - 1);
      assert LitsOf(T, p.tr, p.sgn, n) == x + y;
      assert PassedOns(T, p, n) == PassedOns(T, p, n - 1) + [PassedOn(T, p, n - 1)];
      hide LitsOf, PassedOns;
      Assoc(queue, PassedOns(T, p, n - 1), [PassedOn(T, p, n - 1)]);
      PendingMore(T, queue + PassedOns(T, p, n - 1), PassedOn(T, p, n - 1));
      Assoc(x, y, Pending(T, queue));
    }
  }

  lemma Assoc(a: seq<PtAsgn>, b: seq<PtAsgn>, c: seq<PtAsgn>)
    ensures a + (b + c) == a + b + c
  {
  }

  lemma PendingMore(T: seq<Pterm>, queue: seq<PtAsgn>, p: PtAsgn)
    requires WfTerms(T) && InTerms(T, queue) && p.tr < |T| && !T[p.tr].symb.Not?
    ensures InTerms(T, queue + [p]) && Pending(T, queue + [p]) == Lits(T, p.tr, p.sgn) + Pending(T, queue)
  {
    hide Lits, WfTerms;
    assert (queue + [p])[..|queue|] == queue;
  }

  /** Something on the worklist, with nothing above it that is not younger than d, will state q. */
  ghost predicate WaitsBelow(T: seq<Pterm>, queue: seq<PtAsgn>, d: PtAsgn, q: PtAsgn)
    requires WfTerms(T) && InTerms(T, queue)
  {
    exists j | 0 <= j < |queue| :: q in Lits(T, queue[j].tr, queue[j].sgn) && forall k | j <= k < |queue| :: queue[k].tr < d.tr
  }

  /** What a visited entry states was visited, or waits where only older terms are above it. */
  ghost predicate Covered(T: seq<Pterm>, queue: seq<PtAsgn>, done: set<PtAsgn>)
    requires WfTerms(T) && InTerms(T, queue)
  {
    forall d, q | d in done && d.tr < |T| && q in Lits(T, d.tr, d.sgn) && q !in done :: WaitsBelow(T, queue, d, q)
  }

  /** So when an entry comes up again, everything that it states was visited. */
  lemma CoveredAgain(T: seq<Pterm>, queue: seq<PtAsgn>, done: set<PtAsgn>)
    requires WfTerms(T) && InTerms(T, queue) && Covered(T, queue, done) && queue != [] && queue[|queue| - 1] in done
    ensures forall q | q in Lits(T, queue[|queue| - 1].tr, queue[|queue| - 1].sgn) :: q in done
    ensures InTerms(T, queue[..|queue| - 1]) && Covered(T, queue[..|queue| - 1], done)
  {
    hide Lits;
    var top := |queue| - 1;
    forall q | q in Lits(T, queue[top].tr, queue[top].sgn) && q !in done ensures !WaitsBelow(T, queue, queue[top], q) {
    }
    forall d, q | d in done && d.tr < |T| && q in Lits(T, d.tr, d.sgn) && q !in done ensures WaitsBelow(T, queue[..top], d, q) {
      assert WaitsBelow(T, queue, d, q);
      var j :| 0 <= j < |queue| && q in Lits(T, queue[j].tr, queue[j].sgn) && forall k | j <= k < |queue| :: queue[k].tr < d.tr;
      assert j != top;
      assert queue[..top][j] == queue[j];
    }
  }

  /** The entries that take the place of the top one. */
  function Successors(T: seq<Pterm>, p: PtAsgn): seq<PtAsgn>
    requires WfTerms(T) && p.tr < |T|
  {
    if Splits(T[p.tr], p.sgn) then PassedOns(T, p, |T[p.tr].args|) else []
  }

  lemma {:induction false} LitsOfArg(T: seq<Pterm>, p: PtAsgn, n: nat, q: PtAsgn) returns (i: nat)
    requires WfTerms(T) && p.tr < |T| && n <= |T[p.tr].args| && q in LitsOf(T, p.tr, p.sgn, n)
    ensures i < n && PassedOn(T, p, i).tr < p.tr && q in Lits(T, PassedOn(T, p, i).tr, PassedOn(T, p, i).sgn)
  {
    hide Lits, PassedOn;
    PassedOnFacts(T, p, n - 1);
    if q in Lits(T, T[p.tr].args[n - 1], p.sgn) {
      i := n - 1;
    } else {
      i := LitsOfArg(T, p, n - 1, q);
    }
  }

  lemma SuccessorFacts(T: seq<Pterm>, p: PtAsgn)
    requires WfTerms(T) && p.tr < |T| && !T[p.tr].symb.Not?
    ensures InTerms(T, Successors(T, p)) && forall k | 0 <= k < |Successors(T, p)| :: Successors(T, p)[k].tr < p.tr
    ensures forall q | q in Lits(T, p.tr, p.sgn) && q != p ::
              exists k | 0 <= k < |Successors(T, p)| :: q in Lits(T, Successors(T, p)[k].tr, Successors(T, p)[k].sgn)
  {
    var ss := Successors(T, p);
    forall k | 0 <= k < |ss| ensures ss[k].tr < p.tr && !T[ss[k].tr].symb.Not? {
      PassedOnFacts(T, p, k);
    }
    forall q | q in Lits(T, p.tr, p.sgn) && q != p ensures exists k | 0 <= k < |ss| :: q in Lits(T, ss[k].tr, ss[k].sgn) {
      var i := LitsOfArg(T, p, |T[p.tr].args|, q);
      assert ss[i] == PassedOn(T, p, i);
    }
  }

  /** Visiting the top entry. */
  lemma CoveredVisit(T: seq<Pterm>, queue: seq<PtAsgn>, done: set<PtAsgn>, p: PtAsgn)
    requires WfTerms(T) && InTerms(T, queue + [p]) && Covered(T, queue + [p], done) && p.tr < |T| && !T[p.tr].symb.Not?
    ensures InTerms(T, queue + Successors(T, p)) && Covered(T, queue + Successors(T, p), done + {p})
  {
    hide Lits, Successors;
    SuccessorFacts(T, p);
    var ss := Successors(T, p);
    var before, after := queue + [p], queue + ss;
    assert before[|queue|] == p;
    assert forall k | 0 <= k < |queue| :: before[k] == queue[k] && after[k] == queue[k];
    forall d, q | d in done + {p} && d.tr < |T| && q in Lits(T, d.tr, d.sgn) && q !in done + {p} ensures WaitsBelow(T, after, d, q) {
      var j := |queue|;
      if d in done {
        assert WaitsBelow(T, before, d, q);
        j :| 0 <= j < |before| && q in Lits(T, before[j].tr, before[j].sgn) && forall k | j <= k < |before| :: before[k].tr < d.tr;
        assert before[|queue|].tr < d.tr;
      }
      if j < |queue| {
        assert q in Lits(T, after[j].tr, after[j].sgn);
        forall k | j <= k < |after| ensures after[k].tr < d.tr {
          assert k < |queue| ==> after[k] == before[k];
          assert k >= |queue| ==> after[k] == ss[k - |queue|];
        }
      } else {
        var k :| 0 <= k < |ss| && q in Lits(T, ss[k].tr, ss[k].sgn);
        assert after[|queue| + k] == ss[k];
        forall l | |queue| + k <= l < |after| ensures after[l].tr < d.tr {
          assert after[l] == ss[l - |queue|];
        }
      }
    }
  }

  /** The entries visited so far and the worklist give the order. */
  ghost predicate InOrder(T: seq<Pterm>, root: PTRef, visited: seq<PtAsgn>, done: set<PtAsgn>, queue: seq<PtAsgn>)
    requires WfTerms(T) && root < |T|
  {
    && InTerms(T, queue) && Covered(T, queue, done) && (forall p :: p in done <==> p in visited)
    && Order(T, root) == visited + Dedup(Pending(T, queue), done)
  }

  lemma OrderStarts(T: seq<Pterm>, root: PTRef)
    requires WfTerms(T) && root < |T|
    ensures InOrder(T, root, [], {}, [PureOf(T, root, true)])
  {
    PureLits(T, root, true);
    var q := [PureOf(T, root, true)];
    assert q[..0] == [];
    assert Pending(T, q) == Lits(T, root, true) + [] == Lits(T, root, true);
    assert [] + Dedup(Lits(T, root, true), {}) == Dedup(Lits(T, root, true), {});
  }

  lemma OrderSkips(T: seq<Pterm>, root: PTRef, visited: seq<PtAsgn>, done: set<PtAsgn>, queue: seq<PtAsgn>)
    requires WfTerms(T) && root < |T| && InOrder(T, root, visited, done, queue) && queue != [] && queue[|queue| - 1] in done
    ensures InOrder(T, root, visited, done, queue[..|queue| - 1])
  {
    hide Lits, Covered, Dedup, Order;
    CoveredAgain(T, queue, done);
    var p, rest := queue[|queue| - 1], queue[..|queue| - 1];
    DedupSeen(Lits(T, p.tr, p.sgn), Pending(T, rest), done);
  }

  lemma OrderVisits(T: seq<Pterm>, root: PTRef, visited: seq<PtAsgn>, done: set<PtAsgn>, queue: seq<PtAsgn>)
    requires WfTerms(T) && root < |T| && InOrder(T, root, visited, done, queue) && queue != [] && queue[|queue| - 1] !in done
    ensures queue[|queue| - 1].tr < |T|
    ensures InOrder(T, root, visited + [queue[|queue| - 1]], done + {queue[|queue| - 1]},
                    queue[..|queue| - 1] + Successors(T, queue[|queue| - 1]))
    ensures |visited| < |Order(T, root)| && Order(T, root)[|visited|] == queue[|queue| - 1] && Order(T, root)[..|visited|] == visited
  {
    hide Covered, Dedup, Order, WfTerms, Pending, Lits, LitsOf, Successors;
    var p, rest := queue[|queue| - 1], queue[..|queue| - 1];
    assert queue == rest + [p];
    assert InTerms(T, rest) && p.tr < |T| && !T[p.tr].symb.Not?;
    CoveredVisit(T, rest, done, p);
    PendingMore(T, rest, p);
    var more := LitsAfter(T, p, rest);
    Assoc([p], more, Pending(T, rest));
    DedupFirst(p, more + Pending(T, rest), done);
    Assoc(visited, [p], Dedup(more + Pending(T, rest), done + {p}));
    PrefixTaken(Order(T, root), visited, p, Dedup(more + Pending(T, rest), done + {p}));
  }

  /** What the successors of an entry will state is what the entry states after itself. */
  lemma LitsAfter(T: seq<Pterm>, p: PtAsgn, queue: seq<PtAsgn>) returns (more: seq<PtAsgn>)
    requires WfTerms(T) && p.tr < |T| && !T[p.tr].symb.Not? && InTerms(T, queue)
    ensures Lits(T, p.tr, p.sgn) == [p] + more
    ensures InTerms(T, queue + Successors(T, p)) && Pending(T, queue + Successors(T, p)) == more + Pending(T, queue)
  {
    hide Pending, InTerms;
    var n := if Splits(T[p.tr], p.sgn) then |T[p.tr].args| else 0;
    more := LitsOf(T, p.tr, p.sgn, n);
    PendingPushed(T, p, queue, n);
    assert Successors(T, p) == PassedOns(T, p, n);
  }

  lemma PrefixTaken(order: seq<PtAsgn>, visited: seq<PtAsgn>, p: PtAsgn, later: seq<PtAsgn>)
    requires order == visited + [p] + later
    ensures |visited| < |order| && order[|visited|] == p && order[..|visited|] == visited
  {
  }

  lemma OrderEnds(T: seq<Pterm>, root: PTRef, visited: seq<PtAsgn>, done: set<PtAsgn>)
    requires WfTerms(T) && root < |T| && InOrder(T, root, visited, done, [])
    ensures Order(T, root) == visited
  {
  }
}
