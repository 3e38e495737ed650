/** Simultaneous substitution over the term DAG. */
module Substitution {
  import opened Terms
  import opened Semantics
  import opened LogicStore
  import opened SubstLoops

  ghost predicate SortsOk(T: seq<Pterm>, S: Substs)
    requires SubstsOk(T, S)
  {
    forall k | k in S :: HasSortBool(T, k) == HasSortBool(T, S[k].tr)
  }

  /** The value of a term when every enabled key stands for its target. */
  ghost function EvalUnder(T: seq<Pterm>, M: Interp, S: Substs, r: PTRef): (v: Value)
    requires WfTerms(T) && SubstsOk(T, S) && SortsOk(T, S) && r < |T|
    ensures v.B? == HasSortBool(T, r)
    decreases r
  {
    assert WfTerm(T, r);
    if r in S && S[r].sgn then Eval(T, M, S[r].tr)
    else EvalSym(M, T[r].symb, seq(|T[r].args|, i requires 0 <= i < |T[r].args| => EvalUnder(T, M, S, T[r].args[i])))
  }

  ghost function EvalUnderSeq(T: seq<Pterm>, M: Interp, S: Substs, rs: seq<PTRef>): (vs: seq<Value>)
    requires WfTerms(T) && SubstsOk(T, S) && SortsOk(T, S) && InStore(T, rs)
    ensures |vs| == |rs| && forall i | 0 <= i < |rs| :: vs[i] == EvalUnder(T, M, S, rs[i])
  {
    seq(|rs|, i requires 0 <= i < |rs| => EvalUnder(T, M, S, rs[i]))
  }

  lemma EvalUnderDef(T: seq<Pterm>, M: Interp, S: Substs, r: PTRef)
    requires WfTerms(T) && SubstsOk(T, S) && SortsOk(T, S) && r < |T| && !(r in S && S[r].sgn)
    ensures InStore(T, T[r].args) && ArityOk(T[r])
    ensures ArityOk(Pterm(T[r].symb, seq(|T[r].args|, i => 0)))
    ensures EvalUnder(T, M, S, r) == EvalSym(M, T[r].symb, EvalUnderSeq(T, M, S, T[r].args))
  {
    assert WfTerm(T, r);
    assert seq(|T[r].args|, i requires 0 <= i < |T[r].args| => EvalUnder(T, M, S, T[r].args[i])) == EvalUnderSeq(T, M, S, T[r].args);
  }

  /** An enabled entry that moves its key. */
  predicate Moves(S: Substs, k: PTRef) {
    k in S && S[k].sgn && S[k].tr != k
  }

  /** Some key that is moved occurs in the term. */
  ghost predicate Touched(T: seq<Pterm>, S: Substs, r: PTRef)
    requires WfTerms(T) && r < |T|
  {
    exists k: PTRef :: Occurs(T, r, k) && Moves(S, k)
  }

  /** The variables that remain: those that are not replaced, and those of the targets put in. */
  ghost predicate VarAfter(T: seq<Pterm>, S: Substs, r: PTRef, v: PTRef)
    requires WfTerms(T) && SubstsOk(T, S) && r < |T|
  {
    || (Occurs(T, r, v) && !(v in S && S[v].sgn))
    || (exists k: PTRef :: Occurs(T, r, k) && DependsOn(T, S, k, v))
  }

  /** x of the store T0 is rewritten to r of the grown store T. */
  ghost predicate Rewritten(T0: seq<Pterm>, S: Substs, T: seq<Pterm>, x: PTRef, r: PTRef)
    requires WfTerms(T0) && SubstsOk(T0, S) && SortsOk(T0, S) && WfTerms(T) && T0 <= T && x < |T0|
  {
    && r < |T| && HasSortBool(T, r) == HasSortBool(T0, x)
    && (forall M: Interp :: Eval(T, M, r) == EvalUnder(T0, M, S, x))
    && (r != x ==> Touched(T0, S, x))
    && (forall v: PTRef | Occurs(T, r, v) :: VarAfter(T0, S, x, v))
  }

  lemma RewrittenGrows(T0: seq<Pterm>, S: Substs, T: seq<Pterm>, T': seq<Pterm>, x: PTRef, r: PTRef)
    requires WfTerms(T0) && SubstsOk(T0, S) && SortsOk(T0, S) && WfTerms(T) && WfTerms(T') && T0 <= T <= T' && x < |T0|
    requires Rewritten(T0, S, T, x, r)
    ensures Rewritten(T0, S, T', x, r)
  {
    forall M: Interp ensures Eval(T', M, r) == EvalUnder(T0, M, S, x) {
      EvalPrefix(T, T', M, r);
    }
    forall v: PTRef | Occurs(T', r, v) ensures VarAfter(T0, S, x, v) {
      OccursPrefix(T, T', r, v);
    }
  }

  /** Variables and constants, replaced when they are enabled keys. */
  lemma RewriteLeaf(T0: seq<Pterm>, S: Substs, T: seq<Pterm>, x: PTRef)
    requires WfTerms(T0) && SubstsOk(T0, S) && SortsOk(T0, S) && WfTerms(T) && T0 <= T && x < |T0|
    requires IsVarSym(T0[x].symb) || IsConstSym(T0[x].symb)
    ensures Rewritten(T0, S, T, x, if x in S && S[x].sgn then S[x].tr else x)
  {
    var r := if x in S && S[x].sgn then S[x].tr else x;
    forall M: Interp ensures Eval(T, M, r) == EvalUnder(T0, M, S, x) {
      EvalPrefix(T0, T, M, r);
      if r == x && !(x in S && S[x].sgn) {
        EvalUnderDef(T0, M, S, x);
        EvalDef(T0, M, x);
        assert T0[x].args == [];
        assert EvalUnderSeq(T0, M, S, []) == EvalSeq(T0, M, []);
      }
    }
    BelowSelf(T0, x);
    if r != x {
      assert Occurs(T0, x, x);
    }
    forall v: PTRef | Occurs(T, r, v) ensures VarAfter(T0, S, x, v) {
      OccursPrefix(T0, T, r, v);
      if x in S && S[x].sgn {
        assert Occurs(T0, x, x) && DependsOn(T0, S, x, v);
      } else {
        assert WfTerm(T0, x) && v == x;
      }
    }
  }

  /** What touches an argument touches the term. */
  lemma ArgTouches(T: seq<Pterm>, S: Substs, x: PTRef, i: nat)
    requires WfTerms(T) && SubstsOk(T, S) && x < |T| && i < |T[x].args|
    ensures T[x].args[i] < |T|
    ensures forall v: PTRef | Occurs(T, T[x].args[i], v) :: Occurs(T, x, v)
    ensures Touched(T, S, T[x].args[i]) ==> Touched(T, S, x)
    ensures forall v: PTRef | VarAfter(T, S, T[x].args[i], v) :: VarAfter(T, S, x, v)
  {
    assert WfTerm(T, x);
    assert T[x].args[i] in T[x].args;
  }

  lemma VarsOfTerm(T: seq<Pterm>, x: PTRef, v: PTRef) returns (i: nat)
    requires WfTerms(T) && x < |T| && !IsVarSym(T[x].symb) && Occurs(T, x, v)
    ensures InStore(T, T[x].args) && i < |T[x].args| && Occurs(T, T[x].args[i], v)
  {
    assert WfTerm(T, x);
    var a :| a in T[x].args && Below(T, a, v);
    i :| 0 <= i < |T[x].args| && T[x].args[i] == a;
  }

  /** All arguments were rewritten to themselves. */
  lemma RewriteSame(T0: seq<Pterm>, S: Substs, T: seq<Pterm>, x: PTRef)
    requires WfTerms(T0) && SubstsOk(T0, S) && SortsOk(T0, S) && WfTerms(T) && T0 <= T && x < |T0|
    requires !IsVarSym(T0[x].symb)
    requires forall i | 0 <= i < |T0[x].args| :: T0[x].args[i] < |T0| && Rewritten(T0, S, T, T0[x].args[i], T0[x].args[i])
    ensures Rewritten(T0, S, T, x, x)
  {
    hide Touched, VarAfter;
    var args := T0[x].args;
    forall M: Interp ensures Eval(T, M, x) == EvalUnder(T0, M, S, x) {
      EvalDef(T, M, x);
      EvalUnderDef(T0, M, S, x);
      assert EvalSeq(T, M, args) == EvalUnderSeq(T0, M, S, args);
    }
    forall v: PTRef | Occurs(T, x, v) ensures VarAfter(T0, S, x, v) {
      var i := VarsOfTerm(T, x, v);
      ArgTouches(T0, S, x, i);
    }
  }

  /** Some argument was rewritten and the term was built anew. */
  lemma RewriteNew(T0: seq<Pterm>, S: Substs, T1: seq<Pterm>, T: seq<Pterm>, x: PTRef, mapped: seq<PTRef>, r: PTRef)
    requires WfTerms(T0) && SubstsOk(T0, S) && SortsOk(T0, S) && WfTerms(T1) && WfTerms(T) && T0 <= T1 <= T && x < |T0| && r < |T|
    requires !IsVarSym(T0[x].symb) && |mapped| == |T0[x].args| && mapped != T0[x].args
    requires forall i | 0 <= i < |mapped| :: T0[x].args[i] < |T0| && Rewritten(T0, S, T1, T0[x].args[i], mapped[i])
    requires ArityOk(Pterm(T0[x].symb, mapped)) && InStore(T1, mapped)
    requires forall M: Interp :: Eval(T, M, r) == EvalSymOf(T1, M, T0[x].symb, mapped)
    requires OnlyVarsOf(T1, mapped, T, r)
    ensures Rewritten(T0, S, T, x, r)
  {
    hide Touched, VarAfter;
    var args := T0[x].args;
    forall M: Interp ensures Eval(T, M, r) == EvalUnder(T0, M, S, x) {
      EvalUnderDef(T0, M, S, x);
      assert EvalSeq(T1, M, mapped) == EvalUnderSeq(T0, M, S, args);
    }
    forall v: PTRef | Occurs(T, r, v) ensures VarAfter(T0, S, x, v) {
      var i :| 0 <= i < |mapped| && Occurs(T1, mapped[i], v);
      ArgTouches(T0, S, x, i);
    }
    assert Touched(T0, S, x) by {
      var i :| 0 <= i < |mapped| && mapped[i] != args[i];
      ArgTouches(T0, S, x, i);
    }
    assert HasSortBool(T, r) == HasSortBool(T0, x) by {
      var M: Interp := imap[];
      assert Eval(T, M, r) == EvalUnder(T0, M, S, x);
    }
  }

  /** The rewritten terms so far: below the root, arguments first. */
  ghost predicate CacheOk(T0: seq<Pterm>, S: Substs, T: seq<Pterm>, root: PTRef, genSub: map<PTRef, PTRef>)
    requires WfTerms(T0) && SubstsOk(T0, S) && SortsOk(T0, S) && WfTerms(T) && T0 <= T && root < |T0|
  {
    && ArgsInside(T0, genSub.Keys)
    && (forall x | x in genSub :: x < |T0| && Below(T0, root, x) && Rewritten(T0, S, T, x, genSub[x]))
    && (forall x | x in genSub && x in S && S[x].sgn :: genSub[x] == S[x].tr)
  }

  lemma CacheGrows(T0: seq<Pterm>, S: Substs, T: seq<Pterm>, T': seq<Pterm>, root: PTRef, genSub: map<PTRef, PTRef>)
    requires WfTerms(T0) && SubstsOk(T0, S) && SortsOk(T0, S) && WfTerms(T) && WfTerms(T') && T0 <= T <= T' && root < |T0|
    requires CacheOk(T0, S, T, root, genSub)
    ensures CacheOk(T0, S, T', root, genSub)
  {
    forall x | x in genSub ensures Rewritten(T0, S, T', x, genSub[x]) {
      RewrittenGrows(T0, S, T, T', x, genSub[x]);
    }
  }

  ghost predicate Waiting(T: seq<Pterm>, root: PTRef, queue: seq<PTRef>)
    requires WfTerms(T) && root < |T|
  {
    forall i | 0 <= i < |queue| :: queue[i] < |T| && Below(T, root, queue[i])
  }

  lemma WaitingPop(T: seq<Pterm>, root: PTRef, queue: seq<PTRef>)
    requires WfTerms(T) && root < |T| && Waiting(T, root, queue) && queue != []
    ensures Waiting(T, root, queue[..|queue| - 1])
    ensures queue[|queue| - 1] < |T| && Below(T, root, queue[|queue| - 1])
    ensures queue == queue[..|queue| - 1] + [queue[|queue| - 1]]
  {
  }

  lemma CacheEmpty(T: seq<Pterm>, S: Substs, root: PTRef)
    requires WfTerms(T) && SubstsOk(T, S) && SortsOk(T, S) && root < |T|
    ensures CacheOk(T, S, T, root, map[]) && Waiting(T, root, [root])
  {
    BelowSelf(T, root);
  }

  lemma CacheAdds(T0: seq<Pterm>, S: Substs, T: seq<Pterm>, T': seq<Pterm>, root: PTRef, genSub: map<PTRef, PTRef>, tr: PTRef, result: PTRef)
    requires WfTerms(T0) && SubstsOk(T0, S) && SortsOk(T0, S) && WfTerms(T) && WfTerms(T') && T0 <= T <= T' && root < |T0|
    requires CacheOk(T0, S, T, root, genSub) && tr < |T0| && Below(T0, root, tr)
    requires forall i | 0 <= i < |T0[tr].args| :: T0[tr].args[i] in genSub
    requires Rewritten(T0, S, T', tr, result) && (tr in S && S[tr].sgn ==> result == S[tr].tr)
    ensures CacheOk(T0, S, T', root, genSub[tr := result])
  {
    hide Rewritten, Below;
    CacheGrows(T0, S, T, T', root, genSub);
  }

  /** Lets the arguments without a result wait on top of tr. */
  method PushArgs(logic: Logic, tr: PTRef, queue: seq<PTRef>, genSub: map<PTRef, PTRef>, ghost T0: seq<Pterm>, ghost root: PTRef)
    returns (unprocessed: bool, queue': seq<PTRef>)
    requires WfTerms(T0) && T0 <= logic.terms && root < |T0| && tr < |T0| && Below(T0, root, tr) && Waiting(T0, root, queue)
    ensures Waiting(T0, root, queue') && queue <= queue'
    ensures if unprocessed then |queue'| > |queue| && queue'[|queue'| - 1] < tr && queue'[|queue'| - 1] !in genSub
            else queue' == queue && forall i | 0 <= i < |T0[tr].args| :: T0[tr].args[i] in genSub
  {
    unprocessed, queue' := false, queue;
    var args := logic.terms[tr].args;
    assert WfTerm(T0, tr) && T0[tr].args == args;
    for i := 0 to |args|
      invariant Waiting(T0, root, queue') && queue <= queue'
      invariant if unprocessed then |queue'| > |queue| && queue'[|queue'| - 1] < tr && queue'[|queue'| - 1] !in genSub
                else queue' == queue && forall k | 0 <= k < i :: args[k] in genSub
    {
      if args[i] !in genSub {
        BelowSelf(T0, args[i]);
        assert Below(T0, tr, args[i]);
        BelowTrans(T0, root, tr, args[i]);
        queue', unprocessed := queue' + [args[i]], true;
      }
    }
  }

  /** Rewrites a term whose arguments are rewritten. */
  method RewriteTerm(logic: Logic, tr: PTRef, S: Substs, genSub: map<PTRef, PTRef>, ghost T0: seq<Pterm>, ghost root: PTRef)
    returns (result: PTRef)
    requires logic.Valid() && WfTerms(T0) && SubstsOk(T0, S) && SortsOk(T0, S) && T0 <= logic.terms && root < |T0| && tr < |T0|
    requires IteFree(logic.terms) && CacheOk(T0, S, logic.terms, root, genSub)
    requires forall i | 0 <= i < |T0[tr].args| :: T0[tr].args[i] in genSub
    modifies logic
    ensures logic.Valid() && old(logic.terms) <= logic.terms && IteFree(logic.terms)
    ensures Plain(old(logic.terms)) ==> Plain(logic.terms)
    ensures Rewritten(T0, S, logic.terms, tr, result)
    ensures tr in S && S[tr].sgn ==> result == S[tr].tr
  {
    hide CacheOk, Rewritten, WfTerms, ProperTerm, SubstsOk, SortsOk, OnlyVarsOf, Plain, Fits;
    ghost var T1 := logic.terms;
    if IsVarSym(logic.terms[tr].symb) || IsConstSym(logic.terms[tr].symb) {
      result := if tr in S && S[tr].sgn then S[tr].tr else tr;
      RewriteLeaf(T0, S, T1, tr);
    } else {
      var mapped, changed := MapArgs(logic, tr, S, genSub, T0, root);
      MappedOk(T0, S, T1, tr, mapped);
      result := tr;
      if changed {
        StoredFits(T1, tr);
        result := logic.InsertTerm(logic.terms[tr].symb, mapped);
        RewriteNew(T0, S, T1, logic.terms, tr, mapped, result);
      } else {
        RewriteSame(T0, S, T1, tr);
      }
    }
    assert tr in S && S[tr].sgn ==> result == S[tr].tr by { KeysAreVars(T0, S); }
  }

  lemma KeysAreVars(T: seq<Pterm>, S: Substs)
    requires SubstsOk(T, S)
    ensures forall k | k in S :: k < |T| && IsVarSym(T[k].symb)
  {
  }

  method MapArgs(logic: Logic, tr: PTRef, S: Substs, genSub: map<PTRef, PTRef>, ghost T0: seq<Pterm>, ghost root: PTRef)
    returns (mapped: seq<PTRef>, changed: bool)
    requires WfTerms(logic.terms) && WfTerms(T0) && SubstsOk(T0, S) && SortsOk(T0, S) && T0 <= logic.terms && root < |T0| && tr < |T0|
    requires CacheOk(T0, S, logic.terms, root, genSub)
    requires forall i | 0 <= i < |T0[tr].args| :: T0[tr].args[i] in genSub
    ensures |mapped| == |T0[tr].args| && (changed <==> mapped != T0[tr].args)
    ensures forall i | 0 <= i < |mapped| :: T0[tr].args[i] < |T0| && Rewritten(T0, S, logic.terms, T0[tr].args[i], mapped[i])
  {
    hide Rewritten, WfTerms, ProperTerm, SubstsOk, SortsOk;
    var args: seq<PTRef> := logic.terms[tr].args;
    mapped, changed := [], false;
    for i := 0 to |args|
      invariant |mapped| == i && (changed <==> mapped != args[..i])
      invariant forall k | 0 <= k < i :: args[k] < |T0| && Rewritten(T0, S, logic.terms, args[k], mapped[k])
    {
      var sub := genSub[args[i]];
      assert args[..i + 1] == args[..i] + [args[i]];
      changed := changed || sub != args[i];
      mapped := mapped + [sub];
    }
    assert args[..|args|] == args;
  }

  /** The rewritten arguments fit the symbol. */
  lemma MappedOk(T0: seq<Pterm>, S: Substs, T: seq<Pterm>, x: PTRef, mapped: seq<PTRef>)
    requires WfTerms(T0) && SubstsOk(T0, S) && SortsOk(T0, S) && WfTerms(T) && T0 <= T && x < |T0|
    requires |mapped| == |T0[x].args|
    requires forall i | 0 <= i < |mapped| :: T0[x].args[i] < |T0| && Rewritten(T0, S, T, T0[x].args[i], mapped[i])
    ensures InStore(T, mapped) && ArityOk(Pterm(T0[x].symb, mapped))
    ensures IsBooleanOperator(T0[x].symb) ==> AllBool(T, mapped)
    ensures T0[x].symb.UEq? ==> forall i | 0 <= i < |mapped| :: !HasSortBool(T, mapped[i])
  {
    assert WfTerm(T0, x);
  }

  /** Replaces every enabled key by its target in one pass over the DAG.  The second result says
      whether anything below the root was replaced. */
  method VarSubstitute(logic: Logic, root: PTRef, S: Substs) returns (trNew: PTRef, changed: bool)
    requires logic.Valid() && root < |logic.terms| && IteFree(logic.terms)
    requires SubstsOk(logic.terms, S) && SortsOk(logic.terms, S)
    modifies logic
    ensures logic.Valid() && old(logic.terms) <= logic.terms && IteFree(logic.terms)
    ensures Plain(old(logic.terms)) ==> Plain(logic.terms)
    ensures Rewritten(old(logic.terms), S, logic.terms, root, trNew)
    ensures changed <==> Touched(old(logic.terms), S, root)
  {
    hide WfTerms, ProperTerm, Rewritten, Touched, SubstsOk, SortsOk, IteFree, Plain, Below, CacheOk, Waiting;
    ghost var T0 := logic.terms;
    var genSub: map<PTRef, PTRef> := map[];
    var nSubsts := 0;
    var queue: seq<PTRef> := [root];
    assert CacheOk(T0, S, T0, root, genSub) && Waiting(T0, root, queue) by { CacheEmpty(T0, S, root); }
    while queue != []
      invariant logic.Valid() && T0 <= logic.terms && IteFree(logic.terms) && (Plain(T0) ==> Plain(logic.terms))
      invariant CacheOk(T0, S, logic.terms, root, genSub) && Waiting(T0, root, queue)
      invariant nSubsts >= 0 && (nSubsts > 0 <==> exists x :: x in genSub && genSub[x] != x)
      invariant root in genSub || root in queue
      decreases Refs(|T0|) - genSub.Keys, Phase(queue, genSub.Keys), Depth(queue, genSub.Keys)
    {
      var tr := queue[|queue| - 1];
      WaitingPop(T0, root, queue);
      if tr in genSub {
        queue := queue[..|queue| - 1];
        continue;
      }
      var unprocessed;
      unprocessed, queue := PushArgs(logic, tr, queue, genSub, T0, root);
      if unprocessed {
        continue;
      }
      queue := queue[..|queue| - 1];
      ghost var T1, open := logic.terms, Refs(|T0|) - genSub.Keys;
      assert tr in open;
      var result := RewriteTerm(logic, tr, S, genSub, T0, root);
      CacheAdds(T0, S, T1, logic.terms, root, genSub, tr, result);
      assert forall x | x in genSub :: genSub[tr := result][x] == genSub[x];
      genSub := genSub[tr := result];
      assert tr !in Refs(|T0|) - genSub.Keys;
      if result != tr {
        nSubsts := nSubsts + 1;
      }
    }
    trNew := genSub[root];
    CacheAt(T0, S, logic.terms, root, genSub);
    changed := nSubsts > 0;
    ChangedExactly(T0, S, logic.terms, root, genSub);
  }

  lemma CacheAt(T0: seq<Pterm>, S: Substs, T: seq<Pterm>, root: PTRef, genSub: map<PTRef, PTRef>)
    requires WfTerms(T0) && SubstsOk(T0, S) && SortsOk(T0, S) && WfTerms(T) && T0 <= T && root < |T0|
    requires CacheOk(T0, S, T, root, genSub) && root in genSub
    ensures Rewritten(T0, S, T, root, genSub[root])
  {
  }

  lemma ChangedExactly(T0: seq<Pterm>, S: Substs, T: seq<Pterm>, root: PTRef, genSub: map<PTRef, PTRef>)
    requires WfTerms(T0) && SubstsOk(T0, S) && SortsOk(T0, S) && WfTerms(T) && T0 <= T && root < |T0|
    requires CacheOk(T0, S, T, root, genSub) && root in genSub
    ensures (exists x :: x in genSub && genSub[x] != x) <==> Touched(T0, S, root)
  {
    if x :| x in genSub && genSub[x] != x {
      assert Touched(T0, S, x);
      var k: PTRef :| Occurs(T0, x, k) && Moves(S, k);
      BelowTrans(T0, root, x, k);
      assert Occurs(T0, root, k);
    }
    if Touched(T0, S, root) {
      var k: PTRef :| Occurs(T0, root, k) && Moves(S, k);
      InsideCovers(T0, genSub.Keys, root, k);
    }
  }
}
