/** What the clausifier recognises in a formula, and what definitions of subterms mean. */
module CnfShapes {
  import opened Terms
  import opened TermMapping
  import opened LogicStore

  /** The definitional meaning of one term: its own variable agrees with its operator
      applied to the values of its arguments. */
  ghost predicate Consistent(T: seq<Pterm>, tau: Valuation, p: PTRef)
    requires WfTerms(T) && p < |T|
  {
    assert WfTerm(T, p);
    var args := T[p].args;
    match T[p].symb
    case And => (p in tau) == forall a | a in args :: TermVal(T, tau, a)
    case Or => (p in tau) == exists a | a in args :: TermVal(T, tau, a)
    case Xor => (p in tau) == (TermVal(T, tau, args[0]) != TermVal(T, tau, args[1]))
    case Iff => (p in tau) == (TermVal(T, tau, args[0]) == TermVal(T, tau, args[1]))
    case Implies => (p in tau) == (TermVal(T, tau, args[0]) ==> TermVal(T, tau, args[1]))
    case Ite => (p in tau) == if TermVal(T, tau, args[0]) then TermVal(T, tau, args[1]) else TermVal(T, tau, args[2])
    case _ => true
  }

  ghost predicate ConstantsOk(tau: Valuation) {
    (TERM_TRUE in tau) && (TERM_FALSE !in tau)
  }

  ghost predicate AllConsistent(T: seq<Pterm>, tau: Valuation)
    requires WfTerms(T)
  {
    forall p: PTRef | p < |T| :: Consistent(T, tau, p)
  }

  /** x is reached from r through Boolean operators only. */
  ghost predicate BoolBelow(T: seq<Pterm>, r: PTRef, x: PTRef)
    requires WfTerms(T) && r < |T|
    decreases r
  {
    assert WfTerm(T, r);
    x == r || (IsBooleanOperator(T[r].symb) && exists a | a in T[r].args :: BoolBelow(T, a, x))
  }

  /** Definitions determine the value of a term: with every operator below it defined, the
      value of its literal is the truth value of the formula. */
  lemma {:induction false} DefinitionsDetermine(T: seq<Pterm>, tau: Valuation, r: PTRef)
    requires WfTerms(T) && r < |T| && HasSortBool(T, r) && ConstantsOk(tau)
    requires forall x: PTRef | x < |T| && BoolBelow(T, r, x) :: Consistent(T, tau, x)
    ensures TermVal(T, tau, r) == PropEval(T, tau, r)
    decreases r
  {
    assert WfTerm(T, r);
    assert BoolBelow(T, r, r) && Consistent(T, tau, r);
    if IsBooleanOperator(T[r].symb) {
      forall a | a in T[r].args ensures TermVal(T, tau, a) == PropEval(T, tau, a) {
        forall x: PTRef | x < |T| && BoolBelow(T, a, x) ensures Consistent(T, tau, x) {
          assert BoolBelow(T, r, x);
        }
        DefinitionsDetermine(T, tau, a);
      }
    } else {
      assert T[0].symb.True? && T[1].symb.False?;
    }
  }

  /** Every valuation of the atoms extends to an assignment that satisfies all definitions. */
  ghost function Extension(T: seq<Pterm>, val: Valuation): Valuation
    requires WfTerms(T)
  {
    iset r: PTRef | r < |T| && HasSortBool(T, r) && PropEval(T, val, r)
  }

  lemma ExtensionIsConsistent(T: seq<Pterm>, val: Valuation)
    requires WfTerms(T)
    ensures AllConsistent(T, Extension(T, val)) && ConstantsOk(Extension(T, val))
    ensures forall r: PTRef | r < |T| && HasSortBool(T, r) :: PropEval(T, Extension(T, val), r) == PropEval(T, val, r)
  {
    var tau := Extension(T, val);
    forall r: PTRef | r < |T| && HasSortBool(T, r)
      ensures TermVal(T, tau, r) == PropEval(T, val, r)
    {
      ExtensionVal(T, val, r);
    }
    assert T[0].symb.True? && T[1].symb.False?;
    forall p: PTRef | p < |T| ensures Consistent(T, tau, p) {
      assert WfTerm(T, p);
    }
    forall r: PTRef | r < |T| && HasSortBool(T, r) ensures PropEval(T, tau, r) == PropEval(T, val, r) {
      DefinitionsDetermine(T, tau, r);
    }
  }

  lemma {:induction false} ExtensionVal(T: seq<Pterm>, val: Valuation, r: PTRef)
    requires WfTerms(T) && r < |T| && HasSortBool(T, r)
    ensures TermVal(T, Extension(T, val), r) == PropEval(T, val, r)
    decreases r
  {
    assert WfTerm(T, r);
    if T[r].symb.Not? {
      ExtensionVal(T, val, T[r].args[0]);
    }
  }

  lemma AllConsistentPrefix(T: seq<Pterm>, T': seq<Pterm>, tau: Valuation)
    requires WfTerms(T) && WfTerms(T') && T <= T' && AllConsistent(T', tau)
    ensures AllConsistent(T, tau)
  {
    forall p: PTRef | p < |T| ensures Consistent(T, tau, p) {
      assert Consistent(T', tau, p) && T'[p] == T[p] && WfTerm(T, p);
      forall a | a in T[p].args ensures TermVal(T', tau, a) == TermVal(T, tau, a) {
        TermValPrefix(T, T', tau, a);
      }
    }
  }

  // ----- shapes recognised without definitions -----

  /** A term is an atom under any number of negations. */
  predicate IsNPAtom(T: seq<Pterm>, r: PTRef)
    requires WfTerms(T) && r < |T|
    decreases r
  {
    assert WfTerm(T, r);
    if T[r].symb.Not? then IsNPAtom(T, T[r].args[0]) else IsAtom(T, r)
  }

  lemma {:induction false} LiteralsAreAtoms(T: seq<Pterm>, r: PTRef)
    requires WfTerms(T) && r < |T|
    ensures IsLit(T, r) <==> IsNPAtom(T, r)
    ensures IsLit(T, r) ==> forall tau: Valuation | ConstantsOk(tau) :: TermVal(T, tau, r) == PropEval(T, tau, r)
    decreases r
  {
    assert WfTerm(T, r);
    if T[r].symb.Not? {
      LiteralsAreAtoms(T, T[r].args[0]);
    }
  }

  /** Below r, through disjunctions only, there are literals. */
  predicate OrLeavesAreAtoms(T: seq<Pterm>, r: PTRef)
    requires WfTerms(T) && r < |T|
    decreases r
  {
    assert WfTerm(T, r);
    if T[r].symb.Or? then forall i | 0 <= i < |T[r].args| :: OrLeavesAreAtoms(T, T[r].args[i])
    else IsNPAtom(T, r)
  }

  predicate ClauseShape(T: seq<Pterm>, r: PTRef)
    requires WfTerms(T) && r < |T|
  {
    T[r].symb.Or? && OrLeavesAreAtoms(T, r)
  }

  /** Below r, through conjunctions only, there are clauses. */
  predicate AndLeavesAreClauses(T: seq<Pterm>, r: PTRef)
    requires WfTerms(T) && r < |T|
    decreases r
  {
    assert WfTerm(T, r);
    if T[r].symb.And? then forall i | 0 <= i < |T[r].args| :: AndLeavesAreClauses(T, T[r].args[i])
    else ClauseShape(T, r)
  }

  predicate CnfShape(T: seq<Pterm>, r: PTRef)
    requires WfTerms(T) && r < |T|
  {
    IsLit(T, r) || (T[r].symb.And? && AndLeavesAreClauses(T, r)) || ClauseShape(T, r)
  }

  /** Below r, through conjunctions only, there are literals. */
  predicate AndLeavesAreLits(T: seq<Pterm>, r: PTRef)
    requires WfTerms(T) && r < |T|
    decreases r
  {
    assert WfTerm(T, r);
    if T[r].symb.And? then forall i | 0 <= i < |T[r].args| :: AndLeavesAreLits(T, T[r].args[i])
    else IsLit(T, r)
  }

  predicate DeMorganShape(T: seq<Pterm>, r: PTRef)
    requires WfTerms(T) && r < |T|
  {
    assert WfTerm(T, r);
    T[r].symb.Not? && T[T[r].args[0]].symb.And? && AndLeavesAreLits(T, T[r].args[0])
  }

  // ----- size of the unfolding of a DAG: why a worklist without a "seen" table terminates -----

  ghost function TreeSize(T: seq<Pterm>, r: PTRef): nat
    requires WfTerms(T) && r < |T|
    decreases r, 1, 0
  {
    assert WfTerm(T, r);
    1 + ListSize(T, T[r].args, r)
  }

  ghost function ListSize(T: seq<Pterm>, rs: seq<PTRef>, bound: nat): nat
    requires WfTerms(T) && bound <= |T| && forall i | 0 <= i < |rs| :: rs[i] < bound
    decreases bound, 0, |rs|
  {
    if rs == [] then 0
    else ListSize(T, rs[..|rs| - 1], bound) + TreeSize(T, rs[|rs| - 1])
  }

  lemma {:induction false} ListSizeBound(T: seq<Pterm>, rs: seq<PTRef>, b: nat, b': nat)
    requires WfTerms(T) && b <= b' <= |T| && forall i | 0 <= i < |rs| :: rs[i] < b
    ensures ListSize(T, rs, b) == ListSize(T, rs, b')
    decreases |rs|
  {
    if rs != [] {
      ListSizeBound(T, rs[..|rs| - 1], b, b');
    }
  }

  ghost function WorkSize(T: seq<Pterm>, rs: seq<PTRef>): nat
    requires WfTerms(T) && InStore(T, rs)
  {
    ListSize(T, rs, |T|)
  }

  lemma {:induction false} WorkSizePop(T: seq<Pterm>, rs: seq<PTRef>)
    requires WfTerms(T) && InStore(T, rs) && rs != []
    ensures var e := rs[|rs| - 1];
      && InStore(T, T[e].args)
      && WorkSize(T, rs) == WorkSize(T, rs[..|rs| - 1]) + 1 + WorkSize(T, T[e].args)
  {
    var e := rs[|rs| - 1];
    assert WfTerm(T, e);
    ListSizeBound(T, T[e].args, e, |T|);
    assert TreeSize(T, e) == 1 + ListSize(T, T[e].args, e);
    assert ListSize(T, rs, |T|) == ListSize(T, rs[..|rs| - 1], |T|) + TreeSize(T, e);
  }

  lemma {:induction false} WorkSizeAppend(T: seq<Pterm>, rs: seq<PTRef>, ss: seq<PTRef>)
    requires WfTerms(T) && InStore(T, rs) && InStore(T, ss)
    ensures InStore(T, rs + ss) && WorkSize(T, rs + ss) == WorkSize(T, rs) + WorkSize(T, ss)
    decreases |ss|
  {
    if ss == [] {
      assert rs + ss == rs;
    } else {
      assert (rs + ss)[..|rs + ss| - 1] == rs + ss[..|ss| - 1];
      WorkSizeAppend(T, rs, ss[..|ss| - 1]);
    }
  }

  /** The assignments in which a frame's clauses do not bind. */
  ghost predicate Guard(tau: Valuation, frameTerm: PTRef) {
    frameTerm != TERM_TRUE && (frameTerm in tau)
  }

  ghost predicate SomeLit(T: seq<Pterm>, tau: Valuation, rs: seq<PTRef>)
    requires WfTerms(T) && InStore(T, rs)
  {
    exists r | r in rs :: TermVal(T, tau, r)
  }

  ghost predicate AllLits(T: seq<Pterm>, tau: Valuation, rs: seq<PTRef>)
    requires WfTerms(T) && InStore(T, rs)
  {
    forall r | r in rs :: TermVal(T, tau, r)
  }

  method StripNegations(T: seq<Pterm>, r: PTRef) returns (atom: OptRef, sgn: bool)
    requires WfTerms(T) && r < |T|
    ensures atom.SomeRef? <==> IsNPAtom(T, r)
    ensures atom.SomeRef? ==> (atom.tr, sgn) == Purify(T, r)
  {
    var p: PTRef := r;
    sgn := false;
    while T[p].symb.Not?
      invariant p < |T| && IsNPAtom(T, r) == IsNPAtom(T, p)
      invariant Purify(T, r) == (var (q, s) := Purify(T, p); (q, s != sgn))
      decreases p
    {
      assert WfTerm(T, p);
      p := T[p].args[0];
      sgn := !sgn;
    }
    atom := if IsAtom(T, p) then SomeRef(p) else NoRef;
  }

  predicate OrLeavesAll(T: seq<Pterm>, ws: seq<PTRef>)
    requires WfTerms(T) && InStore(T, ws)
  {
    forall i | 0 <= i < |ws| :: OrLeavesAreAtoms(T, ws[i])
  }

  predicate AndLeavesAll(T: seq<Pterm>, ws: seq<PTRef>)
    requires WfTerms(T) && InStore(T, ws)
  {
    forall i | 0 <= i < |ws| :: AndLeavesAreClauses(T, ws[i])
  }

  predicate AndLitsAll(T: seq<Pterm>, ws: seq<PTRef>)
    requires WfTerms(T) && InStore(T, ws)
  {
    forall i | 0 <= i < |ws| :: AndLeavesAreLits(T, ws[i])
  }

  lemma LitsAppend(T: seq<Pterm>, ws: seq<PTRef>, us: seq<PTRef>)
    requires WfTerms(T) && InStore(T, ws) && InStore(T, us)
    ensures InStore(T, ws + us)
    ensures AndLitsAll(T, ws + us) <==> AndLitsAll(T, ws) && AndLitsAll(T, us)
    ensures WorkSize(T, ws + us) == WorkSize(T, ws) + WorkSize(T, us)
  {
    WorkSizeAppend(T, ws, us);
    assert forall i | 0 <= i < |ws| :: (ws + us)[i] == ws[i];
    assert forall i | 0 <= i < |us| :: (ws + us)[|ws| + i] == us[i];
  }

  /** What the last waiting term asks for. */
  lemma LitsLast(T: seq<Pterm>, base: seq<PTRef>, x: PTRef)
    requires WfTerms(T) && InStore(T, base) && x < |T|
    ensures InStore(T, T[x].args) && InStore(T, base + [x])
    ensures AndLitsAll(T, base + [x]) <==> AndLitsAll(T, base) && AndLeavesAreLits(T, x)
    ensures T[x].symb.And? ==> (AndLeavesAreLits(T, x) <==> AndLitsAll(T, T[x].args))
  {
    assert WfTerm(T, x);
    assert (base + [x])[|base|] == x && forall i | 0 <= i < |base| :: (base + [x])[i] == base[i];
  }

  lemma LeavesAppend(T: seq<Pterm>, ws: seq<PTRef>, us: seq<PTRef>)
    requires WfTerms(T) && InStore(T, ws) && InStore(T, us)
    ensures InStore(T, ws + us)
    ensures OrLeavesAll(T, ws + us) <==> OrLeavesAll(T, ws) && OrLeavesAll(T, us)
    ensures AndLeavesAll(T, ws + us) <==> AndLeavesAll(T, ws) && AndLeavesAll(T, us)
    ensures WorkSize(T, ws + us) == WorkSize(T, ws) + WorkSize(T, us)
  {
    WorkSizeAppend(T, ws, us);
    assert forall i | 0 <= i < |ws| :: (ws + us)[i] == ws[i];
    assert forall i | 0 <= i < |us| :: (ws + us)[|ws| + i] == us[i];
  }

  /** Pushes the disjunctions among the arguments of a disjunction; fails when one of the
      others is not a literal. */
  method PushDisjunctions(T: seq<Pterm>, args: seq<PTRef>, base: seq<PTRef>) returns (ok: bool, work: seq<PTRef>)
    requires WfTerms(T) && InStore(T, args) && InStore(T, base) && forall k | 0 <= k < |base| :: T[base[k]].symb.Or?
    ensures InStore(T, work) && forall k | 0 <= k < |work| :: T[work[k]].symb.Or?
    ensures if ok then OrLeavesAll(T, work) <==> OrLeavesAll(T, base) && OrLeavesAll(T, args) else !OrLeavesAll(T, args)
    ensures ok ==> WorkSize(T, work) <= WorkSize(T, base) + WorkSize(T, args)
  {
    work := base;
    for i := 0 to |args|
      invariant InStore(T, work) && forall k | 0 <= k < |work| :: T[work[k]].symb.Or?
      invariant OrLeavesAll(T, work) <==> OrLeavesAll(T, base) && OrLeavesAll(T, args[..i])
      invariant WorkSize(T, work) <= WorkSize(T, base) + WorkSize(T, args[..i])
    {
      LeavesAppend(T, args[..i], [args[i]]);
      assert args[..i + 1] == args[..i] + [args[i]];
      if T[args[i]].symb.Or? {
        LeavesAppend(T, work, [args[i]]);
        work := work + [args[i]];
      } else {
        var p, sgn := StripNegations(T, args[i]);
        if p.NoRef? {
          return false, work;
        }
      }
    }
    assert args[..|args|] == args;
    ok := true;
  }

  method CheckClause(T: seq<Pterm>, e: PTRef) returns (b: bool)
    requires WfTerms(T) && e < |T|
    ensures b <==> ClauseShape(T, e)
  {
    if !T[e].symb.Or? {
      return false;
    }
    var work := [e];
    while work != []
      invariant InStore(T, work) && forall i | 0 <= i < |work| :: T[work[i]].symb.Or?
      invariant OrLeavesAll(T, work) <==> OrLeavesAreAtoms(T, e)
      decreases WorkSize(T, work)
    {
      WorkSizePop(T, work);
      var x := work[|work| - 1];
      var rest := work[..|work| - 1];
      LeavesAppend(T, rest, [x]);
      assert WfTerm(T, x) && work == rest + [x];
      var ok;
      ok, work := PushDisjunctions(T, T[x].args, rest);
      if !ok {
        return false;
      }
    }
    return true;
  }

  method PushConjunctions(T: seq<Pterm>, args: seq<PTRef>, base: seq<PTRef>) returns (ok: bool, work: seq<PTRef>)
    requires WfTerms(T) && InStore(T, args) && InStore(T, base) && forall k | 0 <= k < |base| :: T[base[k]].symb.And?
    ensures InStore(T, work) && forall k | 0 <= k < |work| :: T[work[k]].symb.And?
    ensures if ok then AndLeavesAll(T, work) <==> AndLeavesAll(T, base) && AndLeavesAll(T, args) else !AndLeavesAll(T, args)
    ensures ok ==> WorkSize(T, work) <= WorkSize(T, base) + WorkSize(T, args)
  {
    work := base;
    for i := 0 to |args|
      invariant InStore(T, work) && forall k | 0 <= k < |work| :: T[work[k]].symb.And?
      invariant AndLeavesAll(T, work) <==> AndLeavesAll(T, base) && AndLeavesAll(T, args[..i])
      invariant WorkSize(T, work) <= WorkSize(T, base) + WorkSize(T, args[..i])
    {
      LeavesAppend(T, args[..i], [args[i]]);
      assert args[..i + 1] == args[..i] + [args[i]];
      if T[args[i]].symb.And? {
        LeavesAppend(T, work, [args[i]]);
        work := work + [args[i]];
      } else {
        var c := CheckClause(T, args[i]);
        if !c {
          return false, work;
        }
      }
    }
    assert args[..|args|] == args;
    ok := true;
  }

  method CheckConj(T: seq<Pterm>, e: PTRef) returns (b: bool)
    requires WfTerms(T) && e < |T|
    ensures b <==> IsLit(T, e) || (T[e].symb.And? && AndLeavesAreClauses(T, e))
  {
    if IsLit(T, e) {
      return true;
    }
    if !T[e].symb.And? {
      return false;
    }
    var work := [e];
    while work != []
      invariant InStore(T, work) && forall i | 0 <= i < |work| :: T[work[i]].symb.And?
      invariant AndLeavesAll(T, work) <==> AndLeavesAreClauses(T, e)
      decreases WorkSize(T, work)
    {
      WorkSizePop(T, work);
      var x := work[|work| - 1];
      var rest := work[..|work| - 1];
      LeavesAppend(T, rest, [x]);
      assert WfTerm(T, x) && work == rest + [x];
      var ok;
      ok, work := PushConjunctions(T, T[x].args, rest);
      if !ok {
        return false;
      }
    }
    return true;
  }

  method CheckCnf(T: seq<Pterm>, e: PTRef) returns (b: bool)
    requires WfTerms(T) && e < |T|
    ensures b <==> CnfShape(T, e)
  {
    b := CheckConj(T, e);
    if !b {
      b := CheckClause(T, e);
    }
  }

  lemma LitsOne(T: seq<Pterm>, e: PTRef)
    requires WfTerms(T) && e < |T|
    ensures AndLitsAll(T, [e]) <==> AndLeavesAreLits(T, e)
  {
    assert [e][0] == e;
  }

  lemma LitsNone(T: seq<Pterm>)
    requires WfTerms(T)
    ensures AndLitsAll(T, [])
  {
  }

  lemma NoLeaf(T: seq<Pterm>, x: PTRef)
    requires WfTerms(T) && x < |T| && !T[x].symb.And?
    ensures AndLeavesAreLits(T, x) == IsLit(T, x)
  {
  }

  method CheckPureConj(T: seq<Pterm>, e: PTRef) returns (b: bool)
    requires WfTerms(T) && e < |T|
    ensures b <==> T[e].symb.And? && AndLeavesAreLits(T, e)
  {
    if !T[e].symb.And? {
      return false;
    }
    hide WfTerms, AndLitsAll, AndLeavesAreLits, WorkSize, IsLit;
    var work: seq<PTRef> := [e];
    assert AndLitsAll(T, work) <==> AndLeavesAreLits(T, e) by { LitsOne(T, e); }
    while work != []
      invariant InStore(T, work)
      invariant AndLitsAll(T, work) <==> AndLeavesAreLits(T, e)
      decreases WorkSize(T, work)
    {
      WorkSizePop(T, work);
      var x, base := work[|work| - 1], work[..|work| - 1];
      assert work == base + [x];
      LitsLast(T, base, x);
      work := base;
      if T[x].symb.And? {
        LitsAppend(T, base, T[x].args);
        work := base + T[x].args;
      } else if !IsLit(T, x) {
        assert !AndLeavesAreLits(T, x) by { NoLeaf(T, x); }
        return false;
      } else {
        assert AndLeavesAreLits(T, x) by { NoLeaf(T, x); }
      }
    }
    assert AndLitsAll(T, work) by { LitsNone(T); }
    return true;
  }

  method CheckDeMorgan(T: seq<Pterm>, e: PTRef) returns (b: bool)
    requires WfTerms(T) && e < |T|
    ensures b <==> DeMorganShape(T, e)
  {
    assert WfTerm(T, e);
    if T[e].symb.Not? {
      b := CheckPureConj(T, T[e].args[0]);
    } else {
      b := false;
    }
  }

  lemma AllTrueAppend(T: seq<Pterm>, val: Valuation, rs: seq<PTRef>, ss: seq<PTRef>)
    requires WfTerms(T) && InStore(T, rs) && InStore(T, ss)
    ensures InStore(T, rs + ss)
    ensures AllTrue(T, val, rs + ss) == (AllTrue(T, val, rs) && AllTrue(T, val, ss))
  {
    assert forall a :: a in rs + ss <==> a in rs || a in ss;
  }

  /** The conjuncts found so far and those still to visit make up the formula. */
  ghost predicate Splits(T: seq<Pterm>, root: PTRef, tops: seq<PTRef>, work: seq<PTRef>)
    requires WfTerms(T) && root < |T|
  {
    && AllBool(T, tops) && AllBool(T, work)
    && (forall val: Valuation :: (AllTrue(T, val, tops) && AllTrue(T, val, work)) == PropEval(T, val, root))
    && (AndLeavesAreClauses(T, root) ==> AndLeavesAll(T, tops) && AndLeavesAll(T, work))
  }

  lemma SplitsStep(T: seq<Pterm>, root: PTRef, tops: seq<PTRef>, rest: seq<PTRef>, f: PTRef, tops': seq<PTRef>, work': seq<PTRef>)
    requires WfTerms(T) && root < |T| && f < |T| && Splits(T, root, tops, rest + [f])
    requires (tops', work') == (if T[f].symb.And? then (tops, rest + Reversed(T[f].args))
                                else if f in tops then (tops, rest) else (tops + [f], rest))
    ensures Splits(T, root, tops', work')
  {
    var work := rest + [f];
    assert WfTerm(T, f) && work[|rest|] == f && forall i | 0 <= i < |rest| :: work[i] == rest[i];
    LeavesAppend(T, rest, [f]);
    forall val: Valuation ensures AllTrue(T, val, work) == (AllTrue(T, val, rest) && PropEval(T, val, f)) {
      AllTrueAppend(T, val, rest, [f]);
    }
    if T[f].symb.And? {
      SplitsExpand(T, root, tops, rest, f);
    } else if f in tops {
      assert forall val: Valuation :: AllTrue(T, val, tops) ==> PropEval(T, val, f);
    } else {
      LeavesAppend(T, tops, [f]);
      forall val: Valuation ensures AllTrue(T, val, tops') == (AllTrue(T, val, tops) && PropEval(T, val, f)) {
        AllTrueAppend(T, val, tops, [f]);
      }
    }
  }

  lemma SplitsExpand(T: seq<Pterm>, root: PTRef, tops: seq<PTRef>, rest: seq<PTRef>, f: PTRef)
    requires WfTerms(T) && root < |T| && f < |T| && T[f].symb.And? && Splits(T, root, tops, rest + [f])
    ensures Splits(T, root, tops, rest + Reversed(T[f].args))
  {
    assert WfTerm(T, f);
    var pushed := Reversed(T[f].args);
    assert AllBool(T, rest) by {
      assert forall i | 0 <= i < |rest| :: (rest + [f])[i] == rest[i];
    }
    LeavesAppend(T, rest, [f]);
    LeavesAppend(T, rest, pushed);
    assert AndLeavesAreClauses(T, f) ==> AndLeavesAll(T, pushed);
    forall val: Valuation
      ensures AllTrue(T, val, rest + pushed) == AllTrue(T, val, rest + [f])
    {
      AllTrueAppend(T, val, rest, [f]);
      AllTrueAppend(T, val, rest, pushed);
      assert AllTrue(T, val, [f]) == PropEval(T, val, f);
      assert AllTrue(T, val, pushed) == PropEval(T, val, f) by {
        assert forall a :: a in pushed <==> a in T[f].args;
      }
    }
  }

  /** The conjuncts of a formula, without duplicates. */
  method RetrieveTopLevelFormulae(T: seq<Pterm>, root: PTRef) returns (tops: seq<PTRef>)
    requires WfTerms(T) && root < |T| && HasSortBool(T, root)
    ensures AllBool(T, tops) && forall i | 0 <= i < |tops| :: !T[tops[i]].symb.And?
    ensures forall i, j | 0 <= i < j < |tops| :: tops[i] != tops[j]
    ensures forall val: Valuation :: AllTrue(T, val, tops) == PropEval(T, val, root)
    ensures AndLeavesAreClauses(T, root) ==> AndLeavesAll(T, tops)
  {
    var work := [root];
    var seen: set<PTRef> := {};
    tops := [];
    while work != []
      invariant Splits(T, root, tops, work)
      invariant forall i | 0 <= i < |tops| :: !T[tops[i]].symb.And?
      invariant forall i, j | 0 <= i < j < |tops| :: tops[i] != tops[j]
      invariant forall f :: f in seen <==> f in tops
      decreases WorkSize(T, work)
    {
      WorkSizePop(T, work);
      var f := work[|work| - 1];
      var rest := work[..|work| - 1];
      assert WfTerm(T, f) && work == rest + [f];
      ghost var was := tops;
      if T[f].symb.And? {
        ReversedSize(T, T[f].args);
        WorkSizeAppend(T, rest, Reversed(T[f].args));
        work := rest + Reversed(T[f].args);
      } else {
        work := rest;
        if f !in seen {
          tops := tops + [f];
          seen := seen + {f};
        }
      }
      SplitsStep(T, root, was, rest, f, tops, work);
    }
  }

  function Reversed(s: seq<PTRef>): (r: seq<PTRef>)
    ensures |r| == |s| && forall i | 0 <= i < |s| :: r[i] == s[|s| - 1 - i]
    ensures forall x :: x in r <==> x in s
  {
    if s == [] then [] else
      assert s == s[..|s| - 1] + [s[|s| - 1]];
      [s[|s| - 1]] + Reversed(s[..|s| - 1])
  }

  lemma {:induction false} ReversedSize(T: seq<Pterm>, s: seq<PTRef>)
    requires WfTerms(T) && InStore(T, s)
    ensures InStore(T, Reversed(s)) && WorkSize(T, Reversed(s)) == WorkSize(T, s)
    decreases |s|
  {
    if s != [] {
      var l := s[|s| - 1];
      ReversedSize(T, s[..|s| - 1]);
      WorkSizeAppend(T, [l], Reversed(s[..|s| - 1]));
      assert s == s[..|s| - 1] + [l];
      WorkSizeAppend(T, s[..|s| - 1], [l]);
    }
  }

  /** The literals of a clause, with nested disjunctions flattened. */
  method RetrieveClause(T: seq<Pterm>, f: PTRef) returns (lits: seq<PTRef>)
    requires WfTerms(T) && f < |T| && HasSortBool(T, f) && OrLeavesAreAtoms(T, f)
    ensures AllBool(T, lits)
    ensures forall tau: Valuation | ConstantsOk(tau) :: SomeLit(T, tau, lits) == PropEval(T, tau, f)
    decreases f
  {
    LiteralsAreAtoms(T, f);
    if IsLit(T, f) {
      lits := [f];
    } else {
      lits := [];
      var args := T[f].args;
      assert WfTerm(T, f);
      for i := 0 to |args|
        invariant AllBool(T, lits)
        invariant forall tau: Valuation | ConstantsOk(tau) :: SomeLit(T, tau, lits) == SomeTrue(T, tau, args[..i])
      {
        var more := RetrieveClause(T, args[i]);
        ghost var was := lits;
        lits := lits + more;
        assert args[..i + 1] == args[..i] + [args[i]];
        assert forall tau: Valuation :: SomeLit(T, tau, lits) == (SomeLit(T, tau, was) || SomeLit(T, tau, more));
        assert forall tau: Valuation ::
            SomeTrue(T, tau, args[..i + 1]) == (SomeTrue(T, tau, args[..i]) || PropEval(T, tau, args[i]));
      }
      assert args[..|args|] == args;
    }
  }

  /** The literals of a pure conjunction, with nested conjunctions flattened. */
  method RetrieveConjuncts(T: seq<Pterm>, f: PTRef) returns (lits: seq<PTRef>)
    requires WfTerms(T) && f < |T| && HasSortBool(T, f) && AndLeavesAreLits(T, f)
    ensures AllBool(T, lits)
    ensures forall tau: Valuation | ConstantsOk(tau) :: AllLits(T, tau, lits) == PropEval(T, tau, f)
    decreases f
  {
    LiteralsAreAtoms(T, f);
    if IsLit(T, f) {
      lits := [f];
    } else {
      lits := [];
      var args := T[f].args;
      assert WfTerm(T, f);
      for i := 0 to |args|
        invariant AllBool(T, lits)
        invariant forall tau: Valuation | ConstantsOk(tau) :: AllLits(T, tau, lits) == AllTrue(T, tau, args[..i])
      {
        var more := RetrieveConjuncts(T, args[i]);
        ghost var was := lits;
        lits := lits + more;
        assert args[..i + 1] == args[..i] + [args[i]];
        assert forall tau: Valuation :: AllLits(T, tau, lits) == (AllLits(T, tau, was) && AllLits(T, tau, more));
        assert forall tau: Valuation ::
            AllTrue(T, tau, args[..i + 1]) == (AllTrue(T, tau, args[..i]) && PropEval(T, tau, args[i]));
      }
      assert args[..|args|] == args;
    }
  }

  predicate IsFrameTerm(T: seq<Pterm>, r: PTRef, id: nat) {
    r == TERM_TRUE || (id > 0 && r < |T| && T[r] == Pterm(FrameVar(id), []))
  }
}
