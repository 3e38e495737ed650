/** Closing an acyclic substitution map under itself. */
module SubstitutionClosure {
  import opened Terms
  import opened Semantics
  import opened LogicStore
  import opened Graphs
  import opened SubstLoops
  import opened Substitution

  ghost function Enabled(S: Substs): set<PTRef> {
    set k | k in S && S[k].sgn
  }

  /** The interpretations in which every enabled key equals its target. */
  ghost predicate Solves(T: seq<Pterm>, M: Interp, S: Substs)
    requires WfTerms(T) && SubstsOk(T, S)
  {
    forall k | k in S && S[k].sgn :: Eval(T, M, k) == Eval(T, M, S[k].tr)
  }

  /** No enabled key occurs in the target of an enabled entry. */
  ghost predicate Idempotent(T: seq<Pterm>, S: Substs)
    requires WfTerms(T) && SubstsOk(T, S)
  {
    forall k: PTRef, v: PTRef | DependsOn(T, S, k, v) :: v !in Enabled(S)
  }

  /** Dependencies lead to smaller ranks. */
  ghost predicate Ranked(T: seq<Pterm>, S: Substs, rank: map<PTRef, nat>)
    requires WfTerms(T) && SubstsOk(T, S)
  {
    && Enabled(S) <= rank.Keys
    && forall k: PTRef, v: PTRef | DependsOn(T, S, k, v) && v in Enabled(S) :: rank[v] < rank[k]
  }

  // ----- ranks from acyclicity -----

  ghost function ReachSet(G: Graph, x: nat): set<nat> {
    set y: nat | y < |G| && Reach(G, x, y)
  }

  lemma EdgeShrinks(G: Graph, x: nat, j: nat)
    requires Acyclic(G) && x < |G| && j < |G[x]| && G[x][j] < |G|
    ensures ReachSet(G, G[x][j]) < ReachSet(G, x)
  {
    var c := G[x][j];
    ReachEdge(G, x, c);
    ReachRefl(G, x);
    hide Reach;
    forall y | y in ReachSet(G, c) ensures y in ReachSet(G, x) {
      ReachTrans(G, x, c, y);
    }
    assert x in ReachSet(G, x) && x !in ReachSet(G, c);
  }

  lemma {:induction false} SmallerSet(a: set<nat>, b: set<nat>)
    requires a < b
    ensures |a| < |b|
  {
    var x :| x in b && x !in a;
    assert b == (b - {x}) + {x} && a <= b - {x};
    SubsetSize(a, b - {x});
  }

  lemma AcyclicRank(T: seq<Pterm>, S: Substs) returns (rank: map<PTRef, nat>)
    requires WfTerms(T) && SubstsOk(T, S) && AcyclicSubsts(T, S)
    ensures Ranked(T, S, rank)
  {
    hide Reach, Occurs;
    var G := DependsGraph(T, S);
    rank := map k | k in Enabled(S) :: |ReachSet(G, k)|;
    forall k: PTRef, v: PTRef | DependsOn(T, S, k, v) && v in Enabled(S) ensures rank[v] < rank[k] {
      assert v in G[k];
      var j :| 0 <= j < |G[k]| && G[k][j] == v;
      EdgeShrinks(G, k, j);
      SmallerSet(ReachSet(G, v), ReachSet(G, k));
    }
  }

  // ----- the height of a term: one more than the greatest rank of an enabled key in it -----

  ghost function Height(T: seq<Pterm>, on: set<PTRef>, rank: map<PTRef, nat>, r: PTRef, n: nat): nat
    requires WfTerms(T) && r < |T| && on <= rank.Keys
  {
    if n == 0 then 0
    else
      var h := Height(T, on, rank, r, n - 1);
      if n - 1 in on && Occurs(T, r, n - 1) && h <= rank[n - 1] then rank[n - 1] + 1 else h
  }

  lemma {:induction false} HeightAbove(T: seq<Pterm>, on: set<PTRef>, rank: map<PTRef, nat>, r: PTRef, n: nat, v: PTRef)
    requires WfTerms(T) && r < |T| && on <= rank.Keys && v < n && v in on && Occurs(T, r, v)
    ensures rank[v] < Height(T, on, rank, r, n)
  {
    if v < n - 1 {
      HeightAbove(T, on, rank, r, n - 1, v);
    }
  }

  lemma {:induction false} HeightWitness(T: seq<Pterm>, on: set<PTRef>, rank: map<PTRef, nat>, r: PTRef, n: nat) returns (v: PTRef)
    requires WfTerms(T) && r < |T| && on <= rank.Keys && Height(T, on, rank, r, n) > 0
    ensures v < n && v in on && Occurs(T, r, v) && Height(T, on, rank, r, n) == rank[v] + 1
  {
    v := n - 1;
    if Height(T, on, rank, r, n - 1) == Height(T, on, rank, r, n) {
      v := HeightWitness(T, on, rank, r, n - 1);
    }
  }

  lemma {:induction false} HeightGrows(T: seq<Pterm>, T': seq<Pterm>, on: set<PTRef>, rank: map<PTRef, nat>, r: PTRef, n: nat)
    requires WfTerms(T) && WfTerms(T') && T <= T' && r < |T| && on <= rank.Keys
    ensures Height(T', on, rank, r, n) == Height(T, on, rank, r, n)
  {
    if n > 0 {
      HeightGrows(T, T', on, rank, r, n - 1);
      OccursPrefix(T, T', r, n - 1);
    }
  }

  /** Enabled keys of a rewritten term come from targets, so they have smaller ranks than some key before. */
  lemma KeyFromTarget(T: seq<Pterm>, S: Substs, T': seq<Pterm>, x: PTRef, r: PTRef, rank: map<PTRef, nat>, v: PTRef) returns (k: PTRef)
    requires WfTerms(T) && SubstsOk(T, S) && SortsOk(T, S) && WfTerms(T') && T <= T' && x < |T|
    requires Ranked(T, S, rank) && Rewritten(T, S, T', x, r) && Occurs(T', r, v) && v in Enabled(S)
    ensures k in Enabled(S) && Occurs(T, x, k) && rank[v] < rank[k]
  {
    hide Occurs;
    assert VarAfter(T, S, x, v);
    k :| Occurs(T, x, k) && DependsOn(T, S, k, v);
  }

  /** Rewriting lowers the height unless there was nothing to replace, and changes the term exactly
      when there was. */
  lemma HeightDrops(T: seq<Pterm>, S: Substs, T': seq<Pterm>, x: PTRef, r: PTRef, rank: map<PTRef, nat>, n: nat)
    requires WfTerms(T) && SubstsOk(T, S) && SortsOk(T, S) && WfTerms(T') && T <= T' && x < |T|
    requires Ranked(T, S, rank) && Rewritten(T, S, T', x, r) && forall k | k in S :: k < n
    ensures Height(T', Enabled(S), rank, r, n) <= Height(T, Enabled(S), rank, x, n)
    ensures r != x ==> Height(T', Enabled(S), rank, r, n) < Height(T, Enabled(S), rank, x, n)
    ensures r == x ==> forall v: PTRef | Occurs(T, x, v) :: v !in Enabled(S)
  {
    hide Occurs;
    var on := Enabled(S);
    if Height(T', on, rank, r, n) > 0 {
      var v := HeightWitness(T', on, rank, r, n);
      var k := KeyFromTarget(T, S, T', x, r, rank, v);
      HeightAbove(T, on, rank, x, n, k);
    }
    if r != x {
      var k: PTRef :| Occurs(T, x, k) && Moves(S, k);
      HeightAbove(T, on, rank, x, n, k);
    } else {
      HeightGrows(T, T', on, rank, x, n);
      forall v: PTRef | Occurs(T, x, v) ensures v !in on {
        if v in on {
          HeightAbove(T, on, rank, x, n, v);
        }
      }
    }
  }

  // ----- what one step keeps -----

  /** With every key of a term equal to its target, the term has the value of its rewriting. */
  lemma {:induction false} EvalUnderSolved(T: seq<Pterm>, M: Interp, S: Substs, r: PTRef)
    requires WfTerms(T) && SubstsOk(T, S) && SortsOk(T, S) && r < |T|
    requires forall k | k in Enabled(S) && Occurs(T, r, k) :: Eval(T, M, k) == Eval(T, M, S[k].tr)
    ensures EvalUnder(T, M, S, r) == Eval(T, M, r)
    decreases r
  {
    BelowSelf(T, r);
    if r in S && S[r].sgn {
      assert Occurs(T, r, r);
    } else {
      EvalDef(T, M, r);
      EvalUnderDef(T, M, S, r);
      assert WfTerm(T, r);
      var args := T[r].args;
      forall i | 0 <= i < |args| ensures EvalUnder(T, M, S, args[i]) == Eval(T, M, args[i]) {
        forall k | k in Enabled(S) && Occurs(T, args[i], k) ensures Eval(T, M, k) == Eval(T, M, S[k].tr) {
          ArgTouches(T, S, r, i);
        }
        EvalUnderSolved(T, M, S, args[i]);
      }
      assert EvalUnderSeq(T, M, S, args) == EvalSeq(T, M, args);
    }
  }

  lemma StoreGrows(T: seq<Pterm>, T': seq<Pterm>, S: Substs)
    requires WfTerms(T) && WfTerms(T') && T <= T' && SubstsOk(T, S)
    ensures SubstsOk(T', S) && (SortsOk(T, S) ==> SortsOk(T', S))
    ensures forall k: PTRef, v: PTRef :: DependsOn(T', S, k, v) == DependsOn(T, S, k, v)
    ensures forall M: Interp :: Solves(T', M, S) == Solves(T, M, S)
  {
    forall k: PTRef, v: PTRef ensures DependsOn(T', S, k, v) == DependsOn(T, S, k, v) {
      if k in S {
        OccursPrefix(T, T', S[k].tr, v);
      }
    }
    forall M: Interp ensures Solves(T', M, S) == Solves(T, M, S) {
      forall k | k in S ensures Eval(T', M, k) == Eval(T, M, k) && Eval(T', M, S[k].tr) == Eval(T, M, S[k].tr) {
        EvalPrefix(T, T', M, k);
        EvalPrefix(T, T', M, S[k].tr);
      }
    }
  }

  /** Replacing the target of one entry by its rewriting. */
  lemma ClosureStep(T: seq<Pterm>, T': seq<Pterm>, S: Substs, key: PTRef, r: PTRef, rank: map<PTRef, nat>)
    requires WfTerms(T) && SubstsOk(T, S) && SortsOk(T, S) && WfTerms(T') && T <= T' && Ranked(T, S, rank)
    requires key in Enabled(S) && Rewritten(T, S, T', S[key].tr, r)
    ensures var S' := S[key := PtAsgn(r, true)];
      && SubstsOk(T', S') && SortsOk(T', S') && Ranked(T', S', rank)
      && forall M: Interp :: Solves(T', M, S') == Solves(T, M, S)
  {
    var S' := S[key := PtAsgn(r, true)];
    assert Enabled(S') == Enabled(S);
    StoreGrows(T, T', S);
    StepRanked(T, T', S, key, r, rank);
    forall M: Interp ensures Solves(T', M, S') == Solves(T, M, S) {
      StepSolves(T, T', S, key, r, rank, M);
    }
  }

  lemma StepRanked(T: seq<Pterm>, T': seq<Pterm>, S: Substs, key: PTRef, r: PTRef, rank: map<PTRef, nat>)
    requires WfTerms(T) && SubstsOk(T, S) && SortsOk(T, S) && WfTerms(T') && T <= T' && Ranked(T, S, rank)
    requires key in Enabled(S) && Rewritten(T, S, T', S[key].tr, r)
    ensures SubstsOk(T', S[key := PtAsgn(r, true)]) && SortsOk(T', S[key := PtAsgn(r, true)])
    ensures Ranked(T', S[key := PtAsgn(r, true)], rank)
  {
    hide Occurs;
    var S' := S[key := PtAsgn(r, true)];
    StoreGrows(T, T', S);
    assert Enabled(S') == Enabled(S);
    forall k: PTRef, v: PTRef | DependsOn(T', S', k, v) && v in Enabled(S') ensures rank[v] < rank[k] {
      if k == key {
        var k2 := KeyFromTarget(T, S, T', S[key].tr, r, rank, v);
        assert DependsOn(T, S, key, k2);
      } else {
        assert DependsOn(T', S, k, v);
      }
    }
  }

  lemma StepSolves(T: seq<Pterm>, T': seq<Pterm>, S: Substs, key: PTRef, r: PTRef, rank: map<PTRef, nat>, M: Interp)
    requires WfTerms(T) && SubstsOk(T, S) && SortsOk(T, S) && WfTerms(T') && T <= T' && Ranked(T, S, rank)
    requires key in Enabled(S) && Rewritten(T, S, T', S[key].tr, r)
    requires SubstsOk(T', S[key := PtAsgn(r, true)])
    ensures Solves(T', M, S[key := PtAsgn(r, true)]) == Solves(T, M, S)
  {
    hide Occurs, Ranked, SortsOk, EvalUnder, Eval, Rewritten;
    var S' := S[key := PtAsgn(r, true)];
    assert Eval(T', M, r) == EvalUnder(T, M, S, S[key].tr) by { RewrittenValue(T, S, T', S[key].tr, r, M); }
    EvalPrefix(T, T', M, key);
    forall k | k in S && k != key ensures (Eval(T', M, k) == Eval(T', M, S'[k].tr)) == (Eval(T, M, k) == Eval(T, M, S[k].tr)) {
      EvalPrefix(T, T', M, k);
      EvalPrefix(T, T', M, S[k].tr);
    }
    if Solves(T', M, S') || Solves(T, M, S) {
      forall k | k in Enabled(S) && Occurs(T, S[key].tr, k) ensures Eval(T, M, k) == Eval(T, M, S[k].tr) {
        assert DependsOn(T, S, key, k);
        assert k != key by { NotSelf(T, S, rank, key); }
      }
      EvalUnderSolved(T, M, S, S[key].tr);
    }
  }

  lemma RewrittenValue(T: seq<Pterm>, S: Substs, T': seq<Pterm>, x: PTRef, r: PTRef, M: Interp)
    requires WfTerms(T) && SubstsOk(T, S) && SortsOk(T, S) && WfTerms(T') && T <= T' && x < |T| && Rewritten(T, S, T', x, r)
    ensures r < |T'| && Eval(T', M, r) == EvalUnder(T, M, S, x)
  {
  }

  lemma NotSelf(T: seq<Pterm>, S: Substs, rank: map<PTRef, nat>, k: PTRef)
    requires WfTerms(T) && SubstsOk(T, S) && Ranked(T, S, rank) && k in Enabled(S)
    ensures !DependsOn(T, S, k, k)
  {
  }

  // ----- the closure loop -----

  /** The heights of the targets of the first m keys, added up. */
  ghost function Total(T: seq<Pterm>, S: Substs, rank: map<PTRef, nat>, keys: seq<PTRef>, n: nat, m: nat): nat
    requires WfTerms(T) && SubstsOk(T, S) && Enabled(S) <= rank.Keys && m <= |keys| && forall i | 0 <= i < |keys| :: keys[i] in S
  {
    if m == 0 then 0 else Total(T, S, rank, keys, n, m - 1) + Height(T, Enabled(S), rank, S[keys[m - 1]].tr, n)
  }

  lemma {:induction false} TotalGrows(T: seq<Pterm>, T': seq<Pterm>, S: Substs, rank: map<PTRef, nat>, keys: seq<PTRef>, n: nat, m: nat)
    requires WfTerms(T) && WfTerms(T') && T <= T' && SubstsOk(T, S) && SubstsOk(T', S)
    requires Enabled(S) <= rank.Keys && m <= |keys| && forall i | 0 <= i < |keys| :: keys[i] in S
    ensures Total(T', S, rank, keys, n, m) == Total(T, S, rank, keys, n, m)
  {
    if m > 0 {
      TotalGrows(T, T', S, rank, keys, n, m - 1);
      HeightGrows(T, T', Enabled(S), rank, S[keys[m - 1]].tr, n);
    }
  }

  lemma {:induction false} TotalStep(T: seq<Pterm>, S: Substs, S': Substs, rank: map<PTRef, nat>, keys: seq<PTRef>, n: nat, i: nat, m: nat)
    requires WfTerms(T) && SubstsOk(T, S) && SubstsOk(T, S') && Enabled(S) == Enabled(S') <= rank.Keys
    requires i < |keys| && m <= |keys| && (forall j | 0 <= j < |keys| :: keys[j] in S && keys[j] in S')
    requires forall j | 0 <= j < |keys| && j != i :: S'[keys[j]] == S[keys[j]]
    requires Height(T, Enabled(S), rank, S'[keys[i]].tr, n) <= Height(T, Enabled(S), rank, S[keys[i]].tr, n)
    ensures Total(T, S', rank, keys, n, m) <= Total(T, S, rank, keys, n, m)
    ensures i < m && Height(T, Enabled(S), rank, S'[keys[i]].tr, n) < Height(T, Enabled(S), rank, S[keys[i]].tr, n)
            ==> Total(T, S', rank, keys, n, m) < Total(T, S, rank, keys, n, m)
  {
    if m > 0 {
      TotalStep(T, S, S', rank, keys, n, i, m - 1);
    }
  }

  ghost predicate InSomeTarget(T: seq<Pterm>, S: Substs, v: PTRef)
    requires WfTerms(T) && SubstsOk(T, S)
  {
    exists k: PTRef :: DependsOn(T, S, k, v)
  }

  /** The state of the closure loop: solutions are those of the original map, ranks still decrease,
      and targets flagged as unchanged contain no enabled key. */
  ghost predicate Closing(T0: seq<Pterm>, S0: Substs, T: seq<Pterm>, S: Substs, rank: map<PTRef, nat>, keys: seq<PTRef>, flags: seq<bool>)
    requires WfTerms(T0) && WfTerms(T) && SubstsOk(T0, S0)
  {
    && T0 <= T && SubstsOk(T, S) && SortsOk(T, S) && Ranked(T, S, rank)
    && S.Keys == S0.Keys && Enabled(S) == Enabled(S0)
    && (forall k | k in S && !S[k].sgn :: S[k] == S0[k])
    && (forall M: Interp :: Solves(T, M, S) == Solves(T0, M, S0))
    && (forall k: PTRef, v: PTRef | DependsOn(T, S, k, v) :: InSomeTarget(T0, S0, v))
    && |flags| == |keys| && (forall k :: k in keys <==> k in S) && (forall i, j | 0 <= i < j < |keys| :: keys[i] != keys[j])
    && (forall i, v: PTRef | 0 <= i < |keys| && flags[i] && DependsOn(T, S, keys[i], v) :: v !in Enabled(S))
  }

  /** The entry i is enabled and not flagged, and its target was rewritten to r. */
  ghost predicate Looked(T0: seq<Pterm>, S0: Substs, T: seq<Pterm>, S: Substs, T': seq<Pterm>, rank: map<PTRef, nat>,
                         keys: seq<PTRef>, flags: seq<bool>, i: nat, r: PTRef)
    requires WfTerms(T0) && WfTerms(T) && WfTerms(T') && SubstsOk(T0, S0) && T <= T'
  {
    && Closing(T0, S0, T, S, rank, keys, flags) && i < |keys| && keys[i] in Enabled(S) && !flags[i]
    && Rewritten(T, S, T', S[keys[i]].tr, r)
  }

  /** An unchanged target contains no enabled key. */
  lemma CloseSame(T0: seq<Pterm>, S0: Substs, T: seq<Pterm>, S: Substs, T': seq<Pterm>, rank: map<PTRef, nat>,
                  keys: seq<PTRef>, flags: seq<bool>, i: nat, r: PTRef)
    requires WfTerms(T0) && WfTerms(T) && WfTerms(T') && SubstsOk(T0, S0) && T <= T'
    requires Looked(T0, S0, T, S, T', rank, keys, flags, i, r) && r == S[keys[i]].tr
    ensures SubstsOk(T', S) && Closing(T0, S0, T', S, rank, keys, flags[i := true])
  {
    hide Occurs, Rewritten, Solves, Height, DependsOn;
    HeightDrops(T, S, T', S[keys[i]].tr, r, rank, |T0|);
    StoreGrows(T, T', S);
    FlagOne(T, S, keys, flags, i);
  }

  lemma CloseChanged(T0: seq<Pterm>, S0: Substs, T: seq<Pterm>, S: Substs, T': seq<Pterm>, rank: map<PTRef, nat>,
                     keys: seq<PTRef>, flags: seq<bool>, i: nat, r: PTRef)
    requires WfTerms(T0) && WfTerms(T) && WfTerms(T') && SubstsOk(T0, S0) && T <= T'
    requires Looked(T0, S0, T, S, T', rank, keys, flags, i, r)
    ensures SubstsOk(T', S[keys[i] := PtAsgn(r, true)]) && Closing(T0, S0, T', S[keys[i] := PtAsgn(r, true)], rank, keys, flags)
  {
    hide Occurs, Rewritten, Solves, Height, Ranked, SortsOk;
    StoreGrows(T, T', S);
    ClosureStep(T, T', S, keys[i], r, rank);
    var S' := S[keys[i] := PtAsgn(r, true)];
    assert Enabled(S') == Enabled(S);
    forall j, v: PTRef | 0 <= j < |keys| && flags[j] && DependsOn(T', S', keys[j], v) ensures v !in Enabled(S') {
      assert keys[j] != keys[i];
      assert DependsOn(T', S, keys[j], v);
    }
    forall k: PTRef, v: PTRef | DependsOn(T', S', k, v) ensures InSomeTarget(T0, S0, v) {
      if k == keys[i] {
        NewTargetVar(T, S, T', k, r, v);
      } else {
        assert DependsOn(T', S, k, v);
      }
    }
  }

  /** A variable of a new target was in some target before. */
  lemma NewTargetVar(T: seq<Pterm>, S: Substs, T': seq<Pterm>, key: PTRef, r: PTRef, v: PTRef)
    requires WfTerms(T) && SubstsOk(T, S) && SortsOk(T, S) && WfTerms(T') && T <= T'
    requires key in Enabled(S) && Rewritten(T, S, T', S[key].tr, r) && Occurs(T', r, v)
    ensures exists k: PTRef :: DependsOn(T, S, k, v)
  {
    hide Occurs;
    assert VarAfter(T, S, S[key].tr, v);
    if Occurs(T, S[key].tr, v) {
      assert DependsOn(T, S, key, v);
    }
  }

  /** What the loops measure. */
  ghost function Measure(T0: seq<Pterm>, S0: Substs, T: seq<Pterm>, S: Substs, rank: map<PTRef, nat>, keys: seq<PTRef>, flags: seq<bool>): nat
    requires WfTerms(T0) && WfTerms(T) && SubstsOk(T0, S0)
    requires Closing(T0, S0, T, S, rank, keys, flags)
  {
    assert forall j | 0 <= j < |keys| :: keys[j] in keys;
    Total(T, S, rank, keys, |T0|, |keys|)
  }

  lemma MeasureStep(T0: seq<Pterm>, S0: Substs, T: seq<Pterm>, S: Substs, T': seq<Pterm>, rank: map<PTRef, nat>,
                    keys: seq<PTRef>, flags: seq<bool>, i: nat, r: PTRef)
    requires WfTerms(T0) && WfTerms(T) && WfTerms(T') && SubstsOk(T0, S0) && T <= T'
    requires Looked(T0, S0, T, S, T', rank, keys, flags, i, r)
    requires SubstsOk(T', S[keys[i] := PtAsgn(r, true)]) && Closing(T0, S0, T', S[keys[i] := PtAsgn(r, true)], rank, keys, flags)
    ensures r != S[keys[i]].tr ==>
              Measure(T0, S0, T', S[keys[i] := PtAsgn(r, true)], rank, keys, flags) < Measure(T0, S0, T, S, rank, keys, flags)
    ensures r == S[keys[i]].tr && SubstsOk(T', S) && Closing(T0, S0, T', S, rank, keys, flags[i := true]) ==>
              Measure(T0, S0, T', S, rank, keys, flags[i := true]) == Measure(T0, S0, T, S, rank, keys, flags)
  {
    hide Occurs, Rewritten, Solves, Height, Ranked, SortsOk, DependsOn;
    assert forall j | 0 <= j < |keys| :: keys[j] in keys;
    var S' := S[keys[i] := PtAsgn(r, true)];
    assert Enabled(S') == Enabled(S);
    StoreGrows(T, T', S);
    assert Enabled(S) <= rank.Keys by { RankTotal(T, S, rank); }
    HeightDrops(T, S, T', S[keys[i]].tr, r, rank, |T0|);
    TotalGrows(T, T', S, rank, keys, |T0|, |keys|);
    HeightGrows(T, T', Enabled(S), rank, S[keys[i]].tr, |T0|);
    TotalStep(T', S, S', rank, keys, |T0|, i, |keys|);
  }

  lemma RankTotal(T: seq<Pterm>, S: Substs, rank: map<PTRef, nat>)
    requires WfTerms(T) && SubstsOk(T, S) && Ranked(T, S, rank)
    ensures Enabled(S) <= rank.Keys
  {
  }

  lemma FlagOne(T: seq<Pterm>, S: Substs, keys: seq<PTRef>, flags: seq<bool>, i: nat)
    requires WfTerms(T) && SubstsOk(T, S) && |flags| == |keys| && i < |keys| && keys[i] in S
    requires forall j, v: PTRef | 0 <= j < |keys| && flags[j] && DependsOn(T, S, keys[j], v) :: v !in Enabled(S)
    requires forall v: PTRef | Occurs(T, S[keys[i]].tr, v) :: v !in Enabled(S)
    ensures forall j, v: PTRef | 0 <= j < |keys| && flags[i := true][j] && DependsOn(T, S, keys[j], v) :: v !in Enabled(S)
  {
    hide Occurs;
  }

  /** Substitutes into the targets until nothing changes. */
  method SubstitutionsTransitiveClosure(logic: Logic, substs: Substs) returns (S: Substs)
    requires logic.Valid() && IteFree(logic.terms) && SubstsOk(logic.terms, substs) && SortsOk(logic.terms, substs)
    requires AcyclicSubsts(logic.terms, substs)
    modifies logic
    ensures logic.Valid() && old(logic.terms) <= logic.terms && IteFree(logic.terms)
    ensures Plain(old(logic.terms)) ==> Plain(logic.terms)
    ensures SubstsOk(logic.terms, S) && SortsOk(logic.terms, S) && S.Keys == substs.Keys && Enabled(S) == Enabled(substs)
    ensures forall k | k in S && !S[k].sgn :: S[k] == substs[k]
    ensures Idempotent(logic.terms, S)
    ensures forall k: PTRef, v: PTRef | DependsOn(logic.terms, S, k, v) :: InSomeTarget(old(logic.terms), substs, v)
    ensures forall M: Interp :: Solves(logic.terms, M, S) == Solves(old(logic.terms), M, substs)
  {
    hide WfTerms, ProperTerm, Closing, Measure, AcyclicSubsts, IteFree, Plain, Enabled;
    ghost var T0 := logic.terms;
    ghost var rank := AcyclicRank(T0, substs);
    S := substs;
    var changed := true;
    var keys := KeysOf(substs);
    var notChangedElems := seq(|keys|, i => false);
    ClosingStart(T0, substs, rank, keys, notChangedElems);
    while changed
      invariant logic.Valid() && IteFree(logic.terms) && (Plain(T0) ==> Plain(logic.terms)) && Closing(T0, substs, logic.terms, S, rank, keys, notChangedElems)
      invariant |notChangedElems| == |keys|
      invariant changed || forall i | 0 <= i < |keys| :: keys[i] in Enabled(S) ==> notChangedElems[i]
      decreases Measure(T0, substs, logic.terms, S, rank, keys, notChangedElems), changed
    {
      changed := false;
      ghost var measure := Measure(T0, substs, logic.terms, S, rank, keys, notChangedElems);
      for i := 0 to |keys|
        invariant logic.Valid() && IteFree(logic.terms) && (Plain(T0) ==> Plain(logic.terms)) && Closing(T0, substs, logic.terms, S, rank, keys, notChangedElems)
        invariant |notChangedElems| == |keys|
        invariant changed || forall j | 0 <= j < i :: keys[j] in Enabled(S) ==> notChangedElems[j]
        invariant Measure(T0, substs, logic.terms, S, rank, keys, notChangedElems) <= measure
        invariant changed ==> Measure(T0, substs, logic.terms, S, rank, keys, notChangedElems) < measure
      {
        S, notChangedElems, changed := CloseEntry(logic, S, keys, notChangedElems, i, changed, T0, substs, rank);
      }
    }
    ClosingDone(T0, substs, logic.terms, S, rank, keys, notChangedElems);
  }

  /** Substitutes into one target that is enabled and may still change. */
  method CloseEntry(logic: Logic, S: Substs, keys: seq<PTRef>, flags: seq<bool>, i: nat, changed: bool,
                    ghost T0: seq<Pterm>, ghost S0: Substs, ghost rank: map<PTRef, nat>)
    returns (S': Substs, flags': seq<bool>, changed': bool)
    requires logic.Valid() && IteFree(logic.terms) && WfTerms(T0) && SubstsOk(T0, S0)
    requires Closing(T0, S0, logic.terms, S, rank, keys, flags) && i < |keys| == |flags|
    modifies logic
    ensures logic.Valid() && old(logic.terms) <= logic.terms && IteFree(logic.terms)
    ensures Plain(old(logic.terms)) ==> Plain(logic.terms)
    ensures Closing(T0, S0, logic.terms, S', rank, keys, flags') && |flags'| == |flags|
    ensures forall j | 0 <= j < |flags| && flags[j] :: flags'[j]
    ensures changed ==> changed'
    ensures changed' || (keys[i] in Enabled(S') ==> flags'[i])
    ensures Enabled(S') == Enabled(S)
    ensures Measure(T0, S0, logic.terms, S', rank, keys, flags') <= old(Measure(T0, S0, logic.terms, S, rank, keys, flags))
    ensures changed' && !changed ==>
              Measure(T0, S0, logic.terms, S', rank, keys, flags') < old(Measure(T0, S0, logic.terms, S, rank, keys, flags))
  {
    hide WfTerms, ProperTerm, Closing, Measure, IteFree, Plain, Rewritten, Touched;
    ghost var T := logic.terms;
    ClosingFacts(T0, S0, T, S, rank, keys, flags, i);
    S', flags', changed' := S, flags, changed;
    var key := keys[i];
    var val := S[key];
    if val.sgn && !flags[i] {
      var newVal, _ := VarSubstitute(logic, val.tr, S);
      assert Looked(T0, S0, T, S, logic.terms, rank, keys, flags, i, newVal);
      hide Looked;
      CloseChanged(T0, S0, T, S, logic.terms, rank, keys, flags, i, newVal);
      MeasureStep(T0, S0, T, S, logic.terms, rank, keys, flags, i, newVal);
      if val.tr != newVal {
        changed' := true;
        S' := S[key := PtAsgn(newVal, true)];
      } else {
        CloseSame(T0, S0, T, S, logic.terms, rank, keys, flags, i, newVal);
        flags' := flags[i := true];
      }
    }
  }

  lemma ClosingFacts(T0: seq<Pterm>, S0: Substs, T: seq<Pterm>, S: Substs, rank: map<PTRef, nat>, keys: seq<PTRef>, flags: seq<bool>, i: nat)
    requires WfTerms(T0) && WfTerms(T) && SubstsOk(T0, S0) && Closing(T0, S0, T, S, rank, keys, flags) && i < |keys|
    ensures SubstsOk(T, S) && SortsOk(T, S) && T0 <= T && keys[i] in S && S[keys[i]].tr < |T|
  {
    assert keys[i] in keys;
  }

  lemma ClosingDone(T0: seq<Pterm>, S0: Substs, T: seq<Pterm>, S: Substs, rank: map<PTRef, nat>, keys: seq<PTRef>, flags: seq<bool>)
    requires WfTerms(T0) && WfTerms(T) && SubstsOk(T0, S0) && Closing(T0, S0, T, S, rank, keys, flags)
    requires forall i | 0 <= i < |keys| && i < |flags| :: keys[i] in Enabled(S) ==> flags[i]
    ensures T0 <= T && SubstsOk(T, S) && SortsOk(T, S) && S.Keys == S0.Keys && Enabled(S) == Enabled(S0)
    ensures forall k | k in S && !S[k].sgn :: S[k] == S0[k]
    ensures forall M: Interp :: Solves(T, M, S) == Solves(T0, M, S0)
    ensures Idempotent(T, S)
    ensures forall k: PTRef, v: PTRef | DependsOn(T, S, k, v) :: InSomeTarget(T0, S0, v)
  {
    hide Occurs, Solves;
    forall k: PTRef, v: PTRef | DependsOn(T, S, k, v) ensures v !in Enabled(S) {
      assert k in keys;
      var i :| 0 <= i < |keys| && keys[i] == k;
      assert flags[i];
    }
  }

  /** The keys of a map in some order. */
  method KeysOf(S: Substs) returns (keys: seq<PTRef>)
    ensures forall k :: k in keys <==> k in S
    ensures forall i, j | 0 <= i < j < |keys| :: keys[i] != keys[j]
  {
    keys := [];
    var left := S.Keys;
    while left != {}
      invariant left <= S.Keys && forall k :: k in keys <==> k in S && k !in left
      invariant forall i, j | 0 <= i < j < |keys| :: keys[i] != keys[j]
    {
      var k :| k in left;
      left := left - {k};
      keys := keys + [k];
    }
  }

  lemma ClosingStart(T: seq<Pterm>, S: Substs, rank: map<PTRef, nat>, keys: seq<PTRef>, flags: seq<bool>)
    requires WfTerms(T) && SubstsOk(T, S) && SortsOk(T, S) && Ranked(T, S, rank)
    requires |flags| == |keys| && (forall i | 0 <= i < |flags| :: !flags[i])
    requires (forall k :: k in keys <==> k in S) && (forall i, j | 0 <= i < j < |keys| :: keys[i] != keys[j])
    ensures Closing(T, S, T, S, rank, keys, flags)
  {
    hide Occurs, Solves;
    forall k: PTRef, v: PTRef | DependsOn(T, S, k, v) ensures InSomeTarget(T, S, v) {
    }
  }

  // ----- what the substituted formula means -----

  /** Where the keys equal their targets, substitution keeps the value; and after closing the map,
      no enabled key is left in the result. */
  lemma SubstitutedMeaning(T: seq<Pterm>, S: Substs, T': seq<Pterm>, root: PTRef, r: PTRef)
    requires WfTerms(T) && SubstsOk(T, S) && SortsOk(T, S) && WfTerms(T') && T <= T' && root < |T|
    requires Rewritten(T, S, T', root, r)
    ensures forall M: Interp | Solves(T, M, S) :: Eval(T', M, r) == Eval(T, M, root)
    ensures Idempotent(T, S) ==> forall v: PTRef | Occurs(T', r, v) :: v !in Enabled(S)
  {
    forall M: Interp | Solves(T, M, S) ensures Eval(T', M, r) == Eval(T, M, root) {
      EvalUnderSolved(T, M, S, root);
    }
    hide Occurs;
    forall v: PTRef | Idempotent(T, S) && Occurs(T', r, v) ensures v !in Enabled(S) {
      assert VarAfter(T, S, root, v);
    }
  }
}
