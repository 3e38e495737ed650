/** Hash-consed terms.

    A term reference is a position in the term store.  A term is always created after its
    arguments, so the references of the arguments are smaller than the reference of the term:
    this is what makes the store a DAG and every traversal of it terminate. */
module Terms {

  type PTRef = nat

  datatype OptRef = NoRef | SomeRef(tr: PTRef)

  datatype Sym =
    | True | False
    | BoolVar(name: string)            // a Boolean variable of the user
    | FrameVar(id: nat)                // the variable ".frame<id>" of an assertion frame
    | UVar(name: string)               // a variable of a non-Boolean sort
    | UConst(value: int)               // a constant of a non-Boolean sort
    | And | Or | Not | Xor | Iff | Implies | Ite
    | UEq                              // equality of two non-Boolean terms
    | UP(name: string)                 // uninterpreted predicate
    | UF(name: string)                 // uninterpreted function

  datatype Pterm = Pterm(symb: Sym, args: seq<PTRef>)

  predicate SymIsBool(s: Sym) {
    !s.UVar? && !s.UConst? && !s.UF?
  }

  predicate IsBooleanOperator(s: Sym) {
    s.And? || s.Or? || s.Not? || s.Xor? || s.Iff? || s.Implies? || s.Ite?
  }

  predicate IsNullary(s: Sym) {
    IsVarSym(s) || IsConstSym(s)
  }

  predicate IsVarSym(s: Sym) {
    s.BoolVar? || s.FrameVar? || s.UVar?
  }

  predicate IsConstSym(s: Sym) {
    s.True? || s.False? || s.UConst?
  }

  predicate ArityOk(p: Pterm) {
    match p.symb
    case Not => |p.args| == 1
    case Xor | Iff | Implies | UEq => |p.args| == 2
    case Ite => |p.args| == 3
    case UP(_) => p.args != []
    case UF(_) => p.args != []
    case _ => IsNullary(p.symb) ==> p.args == []
  }

  predicate HasSortBool(T: seq<Pterm>, r: PTRef)
    requires r < |T|
  {
    SymIsBool(T[r].symb)
  }

  /** The term at position r could have been built over the terms before it. */
  predicate WfTerm(T: seq<Pterm>, r: PTRef)
    requires r < |T|
  {
    && ArityOk(T[r])
    && (forall i | 0 <= i < |T[r].args| :: T[r].args[i] < r)
    && (T[r].symb.True? ==> r == TERM_TRUE) && (T[r].symb.False? ==> r == TERM_FALSE)
    && (IsBooleanOperator(T[r].symb) ==> forall i | 0 <= i < |T[r].args| :: HasSortBool(T, T[r].args[i]))
    && (T[r].symb.UEq? ==> forall i | 0 <= i < |T[r].args| :: !HasSortBool(T, T[r].args[i]))
  }

  predicate WfTerms(T: seq<Pterm>) {
    && |T| >= 2
    && T[0] == Pterm(True, [])
    && T[1] == Pterm(False, [])
    && (forall r: PTRef | r < |T| :: WfTerm(T, r))
  }

  const TERM_TRUE: PTRef := 0
  const TERM_FALSE: PTRef := 1

  /** Atoms are the Boolean terms that the propositional part treats as variables. */
  predicate IsAtomSym(s: Sym) {
    s.True? || s.False? || s.BoolVar? || s.FrameVar? || s.UEq? || s.UP?
  }

  predicate IsAtom(T: seq<Pterm>, r: PTRef)
    requires r < |T|
  {
    IsAtomSym(T[r].symb)
  }

  predicate IsLit(T: seq<Pterm>, r: PTRef)
    requires WfTerms(T) && r < |T|
  {
    assert WfTerm(T, r);
    if !HasSortBool(T, r) then false
    else if T[r].args == [] && !IsBooleanOperator(T[r].symb) then true
    else if T[r].symb.Not? then IsLit(T, T[r].args[0])
    else if T[r].symb.UEq? then true
    else !IsBooleanOperator(T[r].symb)
  }

  /** A valuation is the set of atoms that are true; theory atoms are free. */
  type Valuation = iset<PTRef>

  /** The truth value of a Boolean term under a valuation of its atoms. */
  ghost predicate PropEval(T: seq<Pterm>, val: Valuation, r: PTRef)
    requires WfTerms(T) && r < |T|
    decreases r
  {
    assert WfTerm(T, r);
    var args := T[r].args;
    match T[r].symb
    case True => true
    case False => false
    case And => forall a | a in args :: PropEval(T, val, a)
    case Or => exists a | a in args :: PropEval(T, val, a)
    case Not => !PropEval(T, val, args[0])
    case Xor => PropEval(T, val, args[0]) != PropEval(T, val, args[1])
    case Iff => PropEval(T, val, args[0]) == PropEval(T, val, args[1])
    case Implies => PropEval(T, val, args[0]) ==> PropEval(T, val, args[1])
    case Ite => if PropEval(T, val, args[0]) then PropEval(T, val, args[1]) else PropEval(T, val, args[2])
    case _ => (r in val)
  }

  ghost predicate AllTrue(T: seq<Pterm>, val: Valuation, rs: seq<PTRef>)
    requires WfTerms(T) && InStore(T, rs)
  {
    forall a | a in rs :: PropEval(T, val, a)
  }

  ghost predicate SomeTrue(T: seq<Pterm>, val: Valuation, rs: seq<PTRef>)
    requires WfTerms(T) && InStore(T, rs)
  {
    exists a | a in rs :: PropEval(T, val, a)
  }

  predicate InStore(T: seq<Pterm>, rs: seq<PTRef>) {
    forall i | 0 <= i < |rs| :: rs[i] < |T|
  }

  predicate AllBool(T: seq<Pterm>, rs: seq<PTRef>) {
    forall i | 0 <= i < |rs| :: rs[i] < |T| && HasSortBool(T, rs[i])
  }

  /** Growing the store changes the value of no term already in it. */
  lemma {:induction false} PropEvalPrefix(T: seq<Pterm>, T': seq<Pterm>, val: Valuation, r: PTRef)
    requires WfTerms(T) && WfTerms(T') && T <= T' && r < |T|
    ensures PropEval(T', val, r) == PropEval(T, val, r)
    decreases r
  {
    assert WfTerm(T, r) && T'[r] == T[r];
    forall a | a in T[r].args ensures PropEval(T', val, a) == PropEval(T, val, a) {
      PropEvalPrefix(T, T', val, a);
    }
  }

  /** Only atoms below r matter for the value of r. */
  ghost predicate Below(T: seq<Pterm>, r: PTRef, x: PTRef)
    requires WfTerms(T) && r < |T|
    decreases r
  {
    assert WfTerm(T, r);
    x == r || exists a | a in T[r].args :: Below(T, a, x)
  }

  lemma BelowSelf(T: seq<Pterm>, r: PTRef)
    requires WfTerms(T) && r < |T|
    ensures Below(T, r, r)
  {
  }

  lemma {:induction false} BelowIsOlder(T: seq<Pterm>, r: PTRef, x: PTRef)
    requires WfTerms(T) && r < |T| && Below(T, r, x)
    ensures x <= r
    decreases r
  {
    assert WfTerm(T, r);
    if x != r {
      var a :| a in T[r].args && Below(T, a, x);
      BelowIsOlder(T, a, x);
    }
  }

  lemma {:induction false} BelowTrans(T: seq<Pterm>, r: PTRef, x: PTRef, y: PTRef)
    requires WfTerms(T) && r < |T| && Below(T, r, x) && x < |T| && Below(T, x, y)
    ensures Below(T, r, y)
    decreases r
  {
    assert WfTerm(T, r);
    if x != r {
      var a :| a in T[r].args && Below(T, a, x);
      BelowTrans(T, a, x, y);
    }
  }

  lemma {:induction false} BelowPrefix(T: seq<Pterm>, T': seq<Pterm>, r: PTRef, x: PTRef)
    requires WfTerms(T) && WfTerms(T') && T <= T' && r < |T|
    ensures Below(T', r, x) == Below(T, r, x)
    decreases r
  {
    assert WfTerm(T, r) && T'[r] == T[r];
    forall a | a in T[r].args ensures Below(T', a, x) == Below(T, a, x) {
      BelowPrefix(T, T', a, x);
    }
  }

  lemma {:induction false} PropEvalAgree(T: seq<Pterm>, val: Valuation, val': Valuation, r: PTRef)
    requires WfTerms(T) && r < |T|
    requires forall x: PTRef | x < |T| && Below(T, r, x) && IsAtom(T, x) :: (x in val) == (x in val')
    requires HasSortBool(T, r)
    ensures PropEval(T, val, r) == PropEval(T, val', r)
    decreases r
  {
    assert WfTerm(T, r);
    assert Below(T, r, r);
    if IsBooleanOperator(T[r].symb) {
      forall a | a in T[r].args ensures PropEval(T, val, a) == PropEval(T, val', a) {
        forall x: PTRef | x < |T| && Below(T, a, x) && IsAtom(T, x) ensures (x in val) == (x in val') {
          assert Below(T, a, a);
          assert Below(T, r, a);
          BelowTrans(T, r, a, x);
        }
        PropEvalAgree(T, val, val', a);
      }
    }
  }

  /** The variable v occurs in the term r. */
  ghost predicate Occurs(T: seq<Pterm>, r: PTRef, v: PTRef)
    requires WfTerms(T) && r < |T|
  {
    v < |T| && IsVarSym(T[v].symb) && Below(T, r, v)
  }

  ghost predicate OccursIn(T: seq<Pterm>, rs: seq<PTRef>, v: PTRef)
    requires WfTerms(T) && InStore(T, rs)
  {
    exists i | 0 <= i < |rs| :: Occurs(T, rs[i], v)
  }

  /** A term of the grown store T has no variables but those of the terms rs of the store T0. */
  ghost predicate OnlyVarsOf(T0: seq<Pterm>, rs: seq<PTRef>, T: seq<Pterm>, r: PTRef)
    requires WfTerms(T0) && WfTerms(T) && InStore(T0, rs) && r < |T|
  {
    forall v: PTRef | Occurs(T, r, v) :: OccursIn(T0, rs, v)
  }

  lemma OccursPrefix(T: seq<Pterm>, T': seq<Pterm>, r: PTRef, v: PTRef)
    requires WfTerms(T) && WfTerms(T') && T <= T' && r < |T|
    ensures Occurs(T', r, v) == Occurs(T, r, v)
  {
    BelowPrefix(T, T', r, v);
    if Occurs(T', r, v) {
      BelowIsOlder(T', r, v);
    }
  }

  lemma OnlyVarsConst(T0: seq<Pterm>, rs: seq<PTRef>, T: seq<Pterm>, r: PTRef)
    requires WfTerms(T0) && WfTerms(T) && InStore(T0, rs) && r < |T| && IsConstSym(T[r].symb)
    ensures OnlyVarsOf(T0, rs, T, r)
  {
    assert WfTerm(T, r);
  }

  lemma OnlyVarsArg(T0: seq<Pterm>, rs: seq<PTRef>, T: seq<Pterm>, i: nat)
    requires WfTerms(T0) && WfTerms(T) && T0 <= T && InStore(T0, rs) && i < |rs|
    ensures OnlyVarsOf(T0, rs, T, rs[i])
  {
    forall v: PTRef | Occurs(T, rs[i], v) ensures OccursIn(T0, rs, v) {
      OccursPrefix(T0, T, rs[i], v);
    }
  }

  lemma OnlyVarsGrow(T0: seq<Pterm>, rs: seq<PTRef>, T1: seq<Pterm>, T: seq<Pterm>, r: PTRef)
    requires WfTerms(T0) && WfTerms(T1) && WfTerms(T) && T1 <= T && InStore(T0, rs) && r < |T1|
    requires OnlyVarsOf(T0, rs, T1, r)
    ensures OnlyVarsOf(T0, rs, T, r)
  {
    forall v: PTRef | Occurs(T, r, v) ensures OccursIn(T0, rs, v) {
      OccursPrefix(T1, T, r, v);
    }
  }

  /** A term over arguments without other variables. */
  lemma OnlyVarsNew(T0: seq<Pterm>, rs: seq<PTRef>, T: seq<Pterm>, r: PTRef)
    requires WfTerms(T0) && WfTerms(T) && InStore(T0, rs) && r < |T| && !IsVarSym(T[r].symb)
    requires forall i | 0 <= i < |T[r].args| :: T[r].args[i] < |T| && OnlyVarsOf(T0, rs, T, T[r].args[i])
    ensures OnlyVarsOf(T0, rs, T, r)
  {
    assert WfTerm(T, r);
    forall v: PTRef | Occurs(T, r, v) ensures OccursIn(T0, rs, v) {
      var a :| a in T[r].args && Below(T, a, v);
      assert Occurs(T, a, v);
    }
  }

  /** What has only variables of a term built from rs has only variables of rs. */
  lemma OnlyVarsTrans(T0: seq<Pterm>, rs: seq<PTRef>, T1: seq<Pterm>, qs: seq<PTRef>, T: seq<Pterm>, r: PTRef)
    requires WfTerms(T0) && WfTerms(T1) && WfTerms(T) && InStore(T0, rs) && InStore(T1, qs) && r < |T|
    requires forall i | 0 <= i < |qs| :: OnlyVarsOf(T0, rs, T1, qs[i])
    requires OnlyVarsOf(T1, qs, T, r)
    ensures OnlyVarsOf(T0, rs, T, r)
  {
    forall v: PTRef | Occurs(T, r, v) ensures OccursIn(T0, rs, v) {
      var i :| 0 <= i < |qs| && Occurs(T1, qs[i], v);
    }
  }

  // ----- traversals with an explicit stack -----

  ghost predicate ArgsInside(T: seq<Pterm>, done: set<PTRef>) {
    forall x | x in done :: x < |T| && forall i | 0 <= i < |T[x].args| :: T[x].args[i] in done
  }

  lemma {:induction false} InsideCovers(T: seq<Pterm>, done: set<PTRef>, r: PTRef, x: PTRef)
    requires WfTerms(T) && r in done && ArgsInside(T, done) && Below(T, r, x)
    ensures x in done
    decreases r
  {
    assert WfTerm(T, r);
    if x != r {
      var a :| a in T[r].args && Below(T, a, x);
      InsideCovers(T, done, a, x);
    }
  }

  ghost function Refs(n: nat): (r: set<PTRef>)
    ensures forall x: PTRef :: x in r <==> x < n
  {
    if n == 0 then {} else Refs(n - 1) + {n - 1}
  }

  /** Progress of a post-order traversal with an explicit stack: while nothing new is finished,
      finished terms are popped first, and then the top of the stack only gets older. */
  ghost function Phase(work: seq<PTRef>, done: set<PTRef>): nat {
    if work != [] && work[|work| - 1] in done then 1 else 0
  }

  ghost function Depth(work: seq<PTRef>, done: set<PTRef>): nat {
    if work == [] then 0 else if work[|work| - 1] in done then |work| else work[|work| - 1]
  }
}
