/** Many-sorted interpretations of terms. */
module Semantics {
  import opened Terms

  datatype Value = B(b: bool) | U(u: int)

  /** What an interpretation assigns to symbols and argument values. */
  type Interp = imap<(Sym, seq<Value>), Value>

  ghost function App(M: Interp, s: Sym, vs: seq<Value>): (v: Value)
    ensures v.B? == SymIsBool(s)
  {
    if (s, vs) in M && M[(s, vs)].B? == SymIsBool(s) then M[(s, vs)]
    else if SymIsBool(s) then B(false) else U(0)
  }

  const TT := B(true)

  /** The value of a symbol applied to argument values. */
  ghost function EvalSym(M: Interp, s: Sym, vs: seq<Value>): (v: Value)
    requires ArityOk(Pterm(s, seq(|vs|, i => 0)))
    ensures v.B? == SymIsBool(s)
  {
    match s
    case True => B(true)
    case False => B(false)
    case UConst(n) => U(n)
    case And => B(forall i | 0 <= i < |vs| :: vs[i] == TT)
    case Or => B(exists i | 0 <= i < |vs| :: vs[i] == TT)
    case Not => B(vs[0] != TT)
    case Xor => B((vs[0] == TT) != (vs[1] == TT))
    case Iff => B((vs[0] == TT) == (vs[1] == TT))
    case Implies => B(vs[0] == TT ==> vs[1] == TT)
    case Ite => B(if vs[0] == TT then vs[1] == TT else vs[2] == TT)
    case UEq => B(vs[0] == vs[1])
    case _ => App(M, s, vs)
  }

  ghost function Eval(T: seq<Pterm>, M: Interp, r: PTRef): (v: Value)
    requires WfTerms(T) && r < |T|
    ensures v.B? == HasSortBool(T, r)
    decreases r
  {
    assert WfTerm(T, r);
    EvalSym(M, T[r].symb, seq(|T[r].args|, i requires 0 <= i < |T[r].args| => Eval(T, M, T[r].args[i])))
  }

  ghost function EvalSeq(T: seq<Pterm>, M: Interp, rs: seq<PTRef>): (vs: seq<Value>)
    requires WfTerms(T) && InStore(T, rs)
    ensures |vs| == |rs| && forall i | 0 <= i < |rs| :: vs[i] == Eval(T, M, rs[i])
  {
    seq(|rs|, i requires 0 <= i < |rs| => Eval(T, M, rs[i]))
  }

  lemma EvalDef(T: seq<Pterm>, M: Interp, r: PTRef)
    requires WfTerms(T) && r < |T|
    ensures InStore(T, T[r].args) && ArityOk(T[r])
    ensures ArityOk(Pterm(T[r].symb, seq(|T[r].args|, i => 0)))
    ensures Eval(T, M, r) == EvalSym(M, T[r].symb, EvalSeq(T, M, T[r].args))
  {
    assert WfTerm(T, r);
    assert seq(|T[r].args|, i requires 0 <= i < |T[r].args| => Eval(T, M, T[r].args[i])) == EvalSeq(T, M, T[r].args);
  }

  /** Growing the store changes no value. */
  lemma {:induction false} EvalPrefix(T: seq<Pterm>, T': seq<Pterm>, M: Interp, r: PTRef)
    requires WfTerms(T) && WfTerms(T') && T <= T' && r < |T|
    ensures Eval(T', M, r) == Eval(T, M, r)
    decreases r
  {
    EvalDef(T, M, r);
    EvalDef(T', M, r);
    assert WfTerm(T, r) && T'[r] == T[r];
    forall i | 0 <= i < |T[r].args| ensures Eval(T', M, T[r].args[i]) == Eval(T, M, T[r].args[i]) {
      EvalPrefix(T, T', M, T[r].args[i]);
    }
    assert EvalSeq(T', M, T[r].args) == EvalSeq(T, M, T[r].args);
  }

  lemma EvalPrefixSeq(T: seq<Pterm>, T': seq<Pterm>, M: Interp, rs: seq<PTRef>)
    requires WfTerms(T) && WfTerms(T') && T <= T' && InStore(T, rs)
    ensures EvalSeq(T', M, rs) == EvalSeq(T, M, rs)
  {
    forall i | 0 <= i < |rs| ensures EvalSeq(T', M, rs)[i] == EvalSeq(T, M, rs)[i] {
      EvalPrefix(T, T', M, rs[i]);
    }
  }

  /** The terms that an interpretation makes true, as a valuation of the propositional part. */
  ghost function TrueTerms(T: seq<Pterm>, M: Interp): Valuation
    requires WfTerms(T)
  {
    iset r: PTRef | r < |T| && Eval(T, M, r) == TT
  }

  /** The propositional value under that valuation is the value under the interpretation. */
  lemma {:induction false} EvalIsProp(T: seq<Pterm>, T': seq<Pterm>, M: Interp, r: PTRef)
    requires WfTerms(T) && WfTerms(T') && T <= T' && r < |T| && HasSortBool(T, r)
    ensures Eval(T, M, r) == B(PropEval(T, TrueTerms(T', M), r))
    decreases r
  {
    EvalDef(T, M, r);
    EvalPrefix(T, T', M, r);
    assert WfTerm(T, r);
    var args := T[r].args;
    if IsBooleanOperator(T[r].symb) {
      forall i | 0 <= i < |args| ensures Eval(T, M, args[i]) == B(PropEval(T, TrueTerms(T', M), args[i])) {
        EvalIsProp(T, T', M, args[i]);
      }
      assert forall a | a in args :: exists i :: 0 <= i < |args| && args[i] == a;
    }
  }

  /** The same for whole argument lists. */
  lemma EvalSeqIsProp(T: seq<Pterm>, T': seq<Pterm>, M: Interp, rs: seq<PTRef>)
    requires WfTerms(T) && WfTerms(T') && T <= T' && AllBool(T, rs)
    ensures InStore(T, rs)
    ensures forall i | 0 <= i < |rs| :: EvalSeq(T, M, rs)[i] == B(PropEval(T, TrueTerms(T', M), rs[i]))
    ensures AllTrue(T, TrueTerms(T', M), rs) == forall i | 0 <= i < |rs| :: EvalSeq(T, M, rs)[i] == TT
    ensures SomeTrue(T, TrueTerms(T', M), rs) == exists i | 0 <= i < |rs| :: EvalSeq(T, M, rs)[i] == TT
  {
    forall i | 0 <= i < |rs| ensures Eval(T, M, rs[i]) == B(PropEval(T, TrueTerms(T', M), rs[i])) {
      EvalIsProp(T, T', M, rs[i]);
    }
    if exists i | 0 <= i < |rs| :: EvalSeq(T, M, rs)[i] == TT {
      var i :| 0 <= i < |rs| && EvalSeq(T, M, rs)[i] == TT;
      assert rs[i] in rs;
    }
    if !(forall i | 0 <= i < |rs| :: EvalSeq(T, M, rs)[i] == TT) {
      var i :| 0 <= i < |rs| && EvalSeq(T, M, rs)[i] != TT;
      assert rs[i] in rs;
    }
  }
}
