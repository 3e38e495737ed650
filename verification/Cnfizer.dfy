/** Clausification: the three routes by which a conjunct becomes clauses. */
module Cnf {
  import opened Terms
  import opened TermMapping
  import opened LogicStore
  import opened CnfShapes

  ghost predicate SomeAsgnVal(T: seq<Pterm>, tau: Valuation, c: seq<PtAsgn>)
    requires WfTerms(T) && forall i | 0 <= i < |c| :: c[i].tr < |T|
  {
    exists i | 0 <= i < |c| :: TermVal(T, tau, c[i].tr) == c[i].sgn
  }

  predicate AsgnsBool(T: seq<Pterm>, c: seq<PtAsgn>) {
    forall i | 0 <= i < |c| :: c[i].tr < |T| && HasSortBool(T, c[i].tr)
  }

  /** What the clauses of one visited node say: the definition of its variable, except that a
      disjunction asserted at the top is a clause over its arguments. */
  ghost predicate DefMeaning(T: seq<Pterm>, tau: Valuation, p: PTRef, formula: OptRef)
    requires WfTerms(T) && p < |T|
  {
    assert WfTerm(T, p);
    if formula == SomeRef(p) && T[p].symb.Or? then SomeLit(T, tau, T[p].args) else Consistent(T, tau, p)
  }

  ghost predicate ReachedFrom(T: seq<Pterm>, ws: seq<PTRef>, x: PTRef)
    requires WfTerms(T) && InStore(T, ws)
  {
    exists i | 0 <= i < |ws| :: BoolBelow(T, ws[i], x)
  }

  /** What one call of Declare adds: the definitions of everything reached, nothing less, so
      that they do not depend on clauses of any other call or frame. */
  ghost predicate Declared(T: seq<Pterm>, tau: Valuation, ws: seq<PTRef>, formula: OptRef)
    requires WfTerms(T) && InStore(T, ws)
  {
    forall x: PTRef | x < |T| && ReachedFrom(T, ws, x) :: DefMeaning(T, tau, x, formula)
  }

  ghost predicate DefMeanings(T: seq<Pterm>, tau: Valuation, xs: set<PTRef>, formula: OptRef)
    requires WfTerms(T)
  {
    forall x | x in xs && x < |T| :: DefMeaning(T, tau, x, formula)
  }

  /** A set closed under the arguments of Boolean operators contains all that is reached. */
  lemma {:induction false} ClosedUnderArgs(T: seq<Pterm>, xs: set<PTRef>, r: PTRef, x: PTRef)
    requires WfTerms(T) && r in xs && r < |T| && BoolBelow(T, r, x)
    requires forall y | y in xs && y < |T| && IsBooleanOperator(T[y].symb) :: forall a | a in T[y].args :: a in xs
    ensures x in xs
    decreases r
  {
    assert WfTerm(T, r);
    if x != r {
      var a :| a in T[r].args && BoolBelow(T, a, x);
      ClosedUnderArgs(T, xs, a, x);
    }
  }

  lemma NoGuard()
    ensures forall tau: Valuation :: !Guard(tau, TERM_TRUE)
  {
  }

  /** A clause with the literal of the frame holds where the frame is disabled or the clause holds. */
  lemma GuardedClause(T: seq<Pterm>, vt: seq<PTRef>, vt': seq<PTRef>, c: Clause, l: Lit, frameTerm: PTRef)
    requires WfTerms(T) && vt <= vt' && ClauseOk(vt, c) && l.v < |vt'| && frameTerm != TERM_TRUE
    requires frameTerm < |T| && T[frameTerm].symb.FrameVar?
    requires forall tau: Valuation :: LitVal(vt', tau, l) == TermVal(T, tau, frameTerm)
    ensures ClauseOk(vt', c + [l])
    ensures forall tau: Valuation :: ClauseTrue(vt', tau, c + [l]) == (Guard(tau, frameTerm) || ClauseTrue(vt, tau, c))
  {
    forall tau: Valuation ensures ClauseTrue(vt', tau, c + [l]) == (Guard(tau, frameTerm) || ClauseTrue(vt, tau, c)) {
      ClauseTruePrefix(vt, vt', tau, c);
      ClauseTrueAppend(vt', tau, c, l);
    }
  }

  /** The models of a database with one more clause, over possibly more variables. */
  lemma ModelsMore(vt: seq<PTRef>, vt': seq<PTRef>, D: seq<Clause>, c: Clause)
    requires vt <= vt' && ClausesOk(vt, D) && ClauseOk(vt', c)
    ensures ClausesOk(vt', D) && ClausesOk(vt', D + [c])
    ensures forall tau: Valuation :: Models(vt', tau, D) == Models(vt, tau, D)
    ensures forall tau: Valuation :: Models(vt', tau, D + [c]) == (Models(vt, tau, D) && ClauseTrue(vt', tau, c))
  {
    hide ClauseTrue;
    forall tau: Valuation
      ensures ClausesOk(vt', D) && Models(vt', tau, D) == Models(vt, tau, D)
    {
      ModelsPrefix(vt, vt', tau, D);
    }
    assert (D + [c])[|D|] == c && forall i | 0 <= i < |D| :: (D + [c])[i] == D[i];
  }

  lemma EmptyClause(T: seq<Pterm>, vt: seq<PTRef>, c: seq<PtAsgn>)
    requires WfTerms(T) && AsgnsBool(T, c)
    ensures forall tau: Valuation :: ClauseTrue(vt, tau, []) == SomeAsgnVal(T, tau, c[..0])
  {
  }

  /** One more literal, negated when the polarity asks for it. */
  lemma LiteralJoins(T: seq<Pterm>, vt: seq<PTRef>, vt': seq<PTRef>, was: Clause, l: Lit, c: seq<PtAsgn>, i: nat)
    requires WfTerms(T) && vt <= vt' && ClauseOk(vt, was) && l.v < |vt'| && AsgnsBool(T, c) && i < |c|
    requires forall tau: Valuation :: ClauseTrue(vt, tau, was) == SomeAsgnVal(T, tau, c[..i])
    requires forall tau: Valuation :: LitVal(vt', tau, l) == TermVal(T, tau, c[i].tr)
    ensures var k := if c[i].sgn then l else Neg(l);
      ClauseOk(vt', was + [k])
      && forall tau: Valuation :: ClauseTrue(vt', tau, was + [k]) == SomeAsgnVal(T, tau, c[..i + 1])
  {
    hide TermVal, WfTerms;
    var k := if c[i].sgn then l else Neg(l);
    forall tau: Valuation
      ensures ClauseOk(vt', was + [k]) && ClauseTrue(vt', tau, was + [k]) == SomeAsgnVal(T, tau, c[..i + 1])
    {
      ClauseTruePrefix(vt, vt', tau, was);
      ClauseTrueAppend(vt', tau, was, k);
      assert c[..i + 1] == c[..i] + [c[i]];
      assert c[..i + 1][i] == c[i] && forall j | 0 <= j < i :: c[..i + 1][j] == c[..i][j];
    }
  }

  // ----- Boolean arguments of predicates and functions -----

  ghost predicate NestedArg(T: seq<Pterm>, p: PTRef, x: PTRef) {
    p < |T| && x < |T| && !IsBooleanOperator(T[p].symb) && x in T[p].args && HasSortBool(T, x)
  }

  ghost predicate NestedBoolRoot(T: seq<Pterm>, root: PTRef, x: PTRef)
    requires WfTerms(T) && root < |T|
  {
    exists p: PTRef :: NestedArg(T, p, x) && Below(T, root, p)
  }

  /** What was visited is below the root, has its arguments visited or waiting, and its nested roots collected. */
  ghost predicate Nested(T: seq<Pterm>, root: PTRef, work: seq<PTRef>, processed: set<PTRef>, roots: seq<PTRef>)
    requires WfTerms(T) && root < |T|
  {
    && (forall p | p in processed || p in work :: p < |T| && Below(T, root, p))
    && (root in processed || root in work)
    && (forall p, x | p in processed && p < |T| && x in T[p].args :: x in processed || x in work)
    && (forall p, x | p in processed && NestedArg(T, p, x) :: x in roots)
    && (forall x | x in roots :: NestedBoolRoot(T, root, x))
  }

  lemma NestedStart(T: seq<Pterm>, root: PTRef)
    requires WfTerms(T) && root < |T|
    ensures Nested(T, root, [root], {}, [])
  {
    BelowSelf(T, root);
  }

  lemma NestedSkip(T: seq<Pterm>, root: PTRef, work: seq<PTRef>, processed: set<PTRef>, roots: seq<PTRef>)
    requires WfTerms(T) && root < |T| && Nested(T, root, work, processed, roots) && work != [] && work[|work| - 1] in processed
    ensures Nested(T, root, work[..|work| - 1], processed, roots)
  {
    hide Below, WfTerms, NestedArg, NestedBoolRoot;
    assert work == work[..|work| - 1] + [work[|work| - 1]];
  }

  lemma NestedVisit(T: seq<Pterm>, root: PTRef, work: seq<PTRef>, processed: set<PTRef>, roots: seq<PTRef>, work': seq<PTRef>, roots': seq<PTRef>)
    requires WfTerms(T) && root < |T| && Nested(T, root, work, processed, roots) && work != [] && work[|work| - 1] < |T|
    requires forall x :: x in work' <==> x in work[..|work| - 1] || x in T[work[|work| - 1]].args
    requires forall x :: x in roots' <==> x in roots || NestedArg(T, work[|work| - 1], x)
    ensures Nested(T, root, work', processed + {work[|work| - 1]}, roots')
  {
    hide WfTerms, Below, NestedArg, NestedBoolRoot;
    var p := work[|work| - 1];
    assert work == work[..|work| - 1] + [p];
    assert p in work;
    forall x | x in T[p].args ensures x < |T| && Below(T, root, x) {
      ArgBelow(T, root, p, x);
    }
    forall x | x in roots' ensures NestedBoolRoot(T, root, x) {
      if NestedArg(T, p, x) {
        IsNestedRoot(T, root, p, x);
      }
    }
    StillInside(T, work, p, processed, work');
    forall q | q in processed + {p} || q in work' ensures q < |T| && Below(T, root, q) {
      assert q in processed || q == p || q in work[..|work| - 1] || q in T[p].args;
      assert q in work[..|work| - 1] ==> q in work;
    }
    forall q, x | q in processed + {p} && NestedArg(T, q, x) ensures x in roots' {
      assert q in processed || q == p;
    }
  }

  lemma IsNestedRoot(T: seq<Pterm>, root: PTRef, p: PTRef, x: PTRef)
    requires WfTerms(T) && root < |T| && NestedArg(T, p, x) && Below(T, root, p)
    ensures NestedBoolRoot(T, root, x)
  {
  }

  lemma StillInside(T: seq<Pterm>, work: seq<PTRef>, p: PTRef, processed: set<PTRef>, work': seq<PTRef>)
    requires p < |T| && forall q, x | q in processed && q < |T| && x in T[q].args :: x in processed || x in work
    requires forall x | x in work :: x == p || x in work'
    requires forall x | x in T[p].args :: x in work'
    ensures forall q, x | q in processed + {p} && q < |T| && x in T[q].args :: x in processed + {p} || x in work'
  {
  }

  lemma ArgBelow(T: seq<Pterm>, root: PTRef, p: PTRef, x: PTRef)
    requires WfTerms(T) && root < |T| && p < |T| && Below(T, root, p) && x in T[p].args
    ensures x < |T| && Below(T, root, x)
  {
    assert WfTerm(T, p);
    BelowSelf(T, x);
    BelowTrans(T, root, p, x);
  }

  lemma NestedDone(T: seq<Pterm>, root: PTRef, processed: set<PTRef>, roots: seq<PTRef>)
    requires WfTerms(T) && root < |T| && Nested(T, root, [], processed, roots)
    ensures AllBool(T, roots) && forall x :: x in roots <==> NestedBoolRoot(T, root, x)
  {
    hide WfTerms, Below;
    forall x | NestedBoolRoot(T, root, x) ensures x in roots {
      var p: PTRef :| NestedArg(T, p, x) && Below(T, root, p);
      InsideCovers(T, processed, root, p);
    }
    forall i | 0 <= i < |roots| ensures roots[i] < |T| && HasSortBool(T, roots[i]) {
      assert NestedBoolRoot(T, root, roots[i]);
    }
  }

  class Cnfizer {
    const logic: Logic
    const tmap: TermMapper
    const solver: SimpSMTSolver
    var frameTerm: PTRef
    var frameTerms: seq<PTRef>

    ghost predicate Valid()
      reads this, logic, tmap, solver
    {
      logic.Valid() && ValidOver(logic.terms)
    }

    ghost predicate ValidOver(T: seq<Pterm>)
      reads this, tmap, solver
    {
      && tmap.Valid(T) && solver.Valid()
      && ClausesOk(tmap.varToTerm, solver.clauses)
      && |frameTerms| > 0 && frameTerms[0] == TERM_TRUE
      && (forall i | 0 <= i < |frameTerms| :: IsFrameTerm(T, frameTerms[i], i))
      && (frameTerm == TERM_TRUE || (frameTerm < |T| && T[frameTerm].symb.FrameVar?))
    }

    lemma ValidOverMore(T: seq<Pterm>, T': seq<Pterm>)
      requires T <= T' && ValidOver(T)
      ensures ValidOver(T')
    {
    }

    ghost predicate DbModels(tau: Valuation)
      requires Valid()
      reads this, logic, tmap, solver
    {
      Models(tmap.varToTerm, tau, solver.clauses)
    }

    lemma NotOkHasNoModels()
      requires Valid() && !solver.ok
      ensures forall tau: Valuation :: !DbModels(tau)
    {
      forall tau: Valuation ensures !DbModels(tau) {
        if DbModels(tau) {
          TermAssignmentIsSat(tmap.varToTerm, tau, solver.clauses, []);
        }
      }
    }

    constructor (logic: Logic, tmap: TermMapper, solver: SimpSMTSolver)
      requires logic.Valid() && tmap.Valid(logic.terms) && solver.Valid()
      requires ClausesOk(tmap.varToTerm, solver.clauses)
      ensures Valid() && this.logic == logic && this.tmap == tmap && this.solver == solver
      ensures frameTerms == [TERM_TRUE] && frameTerm == TERM_TRUE
    {
      this.logic, this.tmap, this.solver := logic, tmap, solver;
      frameTerms, frameTerm := [TERM_TRUE], TERM_TRUE;
    }

    method LiteralFor(r: PTRef) returns (l: Lit)
      requires Valid() && r < |logic.terms| && HasSortBool(logic.terms, r)
      modifies tmap
      ensures Valid() && old(tmap.varToTerm) <= tmap.varToTerm && l.v < |tmap.varToTerm|
      ensures Purify(logic.terms, r) == (tmap.varToTerm[l.v], l.sgn)
      ensures forall tau: Valuation :: LitVal(tmap.varToTerm, tau, l) == TermVal(logic.terms, tau, r)
      ensures forall tau: Valuation :: DbModels(tau) == old(DbModels(tau))
    {
      ghost var vt := tmap.varToTerm;
      l := tmap.GetOrCreateLit(logic.terms, r);
      forall tau: Valuation
        ensures ClausesOk(tmap.varToTerm, solver.clauses)
        ensures Models(tmap.varToTerm, tau, solver.clauses) == Models(vt, tau, solver.clauses)
      {
        ModelsPrefix(vt, tmap.varToTerm, tau, solver.clauses);
      }
    }

    /** Adds a clause, guarded by the literal of the current frame. */
    method AddClause(c_in: Clause) returns (res: bool)
      requires Valid() && ClauseOk(tmap.varToTerm, c_in)
      modifies tmap, solver
      ensures Valid() && old(tmap.varToTerm) <= tmap.varToTerm && res == solver.ok
      ensures forall tau: Valuation ::
        DbModels(tau) == (old(DbModels(tau)) && (Guard(tau, frameTerm) || ClauseTrue(old(tmap.varToTerm), tau, c_in)))
    {
      hide Models, ClauseTrue, WfTerms, ProperTerm, Guard, LitVal, TermVal, TermMapper.Valid, SimpSMTSolver.Valid;
      var c := c_in;
      ghost var vt, D := tmap.varToTerm, solver.clauses;
      if frameTerm != TERM_TRUE {
        var l := LiteralFor(frameTerm);
        c := c + [l];
        GuardedClause(logic.terms, vt, tmap.varToTerm, c_in, l, frameTerm);
      } else {
        assert forall tau: Valuation :: !Guard(tau, frameTerm) by { NoGuard(); }
      }
      if !solver.ok {
        NotOkHasNoModels();
      }
      ModelsMore(vt, tmap.varToTerm, D, c);
      res := solver.AddOriginalSMTClause(c);
    }

    /** Adds the clause over the given terms and polarities. */
    method AddTermClause(c: seq<PtAsgn>) returns (res: bool)
      requires Valid() && AsgnsBool(logic.terms, c)
      modifies tmap, solver
      ensures Valid() && old(tmap.varToTerm) <= tmap.varToTerm && res == solver.ok
      ensures forall tau: Valuation ::
        DbModels(tau) == (old(DbModels(tau)) && (Guard(tau, frameTerm) || SomeAsgnVal(logic.terms, tau, c)))
    {
      hide Cnfizer.DbModels, Cnfizer.ValidOver, Guard, WfTerms, ProperTerm, TermVal, ClauseTrue, SomeAsgnVal, LitVal;
      var lits: Clause := [];
      assert forall tau: Valuation :: ClauseTrue(tmap.varToTerm, tau, lits) == SomeAsgnVal(logic.terms, tau, c[..0]) by {
        EmptyClause(logic.terms, tmap.varToTerm, c);
      }
      for i := 0 to |c|
        invariant Valid() && old(tmap.varToTerm) <= tmap.varToTerm && ClauseOk(tmap.varToTerm, lits)
        invariant forall tau: Valuation :: DbModels(tau) == old(DbModels(tau))
        invariant forall tau: Valuation ::
          ClauseTrue(tmap.varToTerm, tau, lits) == SomeAsgnVal(logic.terms, tau, c[..i])
      {
        ghost var vt, was := tmap.varToTerm, lits;
        var l := LiteralFor(c[i].tr);
        LiteralJoins(logic.terms, vt, tmap.varToTerm, was, l, c, i);
        if !c[i].sgn {
          l := Neg(l);
        }
        lits := lits + [l];
      }
      assert c[..|c|] == c;
      res := AddClause(lits);
    }

    // ----- definitional encoding -----

    method CnfizeAnd(p: PTRef) returns (res: bool)
      requires Valid() && p < |logic.terms| && logic.terms[p].symb.And?
      modifies tmap, solver
      ensures Valid() && old(tmap.varToTerm) <= tmap.varToTerm && res == solver.ok
      ensures forall tau: Valuation ::
        DbModels(tau) == (old(DbModels(tau)) && (Guard(tau, frameTerm) || Consistent(logic.terms, tau, p)))
    {
      hide Cnfizer.DbModels, Cnfizer.ValidOver, Guard, SomeAsgnVal, Consistent, PropEval;
      ghost var T := logic.terms;
      var args := logic.terms[p].args;
      assert WfTerm(T, p);
      var big := [PtAsgn(p, true)];
      for i := 0 to |args|
        invariant Valid() && old(tmap.varToTerm) <= tmap.varToTerm
        invariant big == [PtAsgn(p, true)] + Signed(args[..i], false)
        invariant forall tau: Valuation ::
          DbModels(tau) == (old(DbModels(tau)) && (Guard(tau, frameTerm) || LittleClauses(T, tau, p, args[..i], false)))
      {
        var little := [PtAsgn(p, false), PtAsgn(args[i], true)];
        big := big + [PtAsgn(args[i], false)];
        var _ := AddTermClause(little);
        LittleStep(T, p, args, i, false);
      }
      assert args[..|args|] == args;
      res := AddTermClause(big);
      AndDefinition(T, p);
    }

    method CnfizeOr(p: PTRef, def: bool) returns (res: bool)
      requires Valid() && p < |logic.terms| && logic.terms[p].symb.Or?
      modifies tmap, solver
      ensures Valid() && old(tmap.varToTerm) <= tmap.varToTerm && res == solver.ok
      ensures forall tau: Valuation ::
        DbModels(tau) == (old(DbModels(tau))
                          && (Guard(tau, frameTerm) || DefMeaning(logic.terms, tau, p, if def then NoRef else SomeRef(p))))
    {
      hide Cnfizer.DbModels, Cnfizer.ValidOver, Guard, SomeAsgnVal, Consistent, PropEval;
      ghost var T := logic.terms;
      var args := logic.terms[p].args;
      assert WfTerm(T, p);
      if !def {
        var clause: seq<PtAsgn> := [];
        for i := 0 to |args|
          invariant clause == Signed(args[..i], true)
        {
          clause := clause + [PtAsgn(args[i], true)];
        }
        assert args[..|args|] == args;
        res := AddTermClause(clause);
        SignedMeaning(T, args, true);
        return;
      }
      var big := [PtAsgn(p, false)];
      for i := 0 to |args|
        invariant Valid() && old(tmap.varToTerm) <= tmap.varToTerm
        invariant big == [PtAsgn(p, false)] + Signed(args[..i], true)
        invariant forall tau: Valuation ::
          DbModels(tau) == (old(DbModels(tau)) && (Guard(tau, frameTerm) || LittleClauses(T, tau, p, args[..i], true)))
      {
        var little := [PtAsgn(p, true), PtAsgn(args[i], false)];
        big := big + [PtAsgn(args[i], true)];
        var _ := AddTermClause(little);
        LittleStep(T, p, args, i, true);
      }
      assert args[..|args|] == args;
      res := AddTermClause(big);
      OrDefinition(T, p);
    }

    method AddFourClauses(c0: seq<PtAsgn>, c1: seq<PtAsgn>, c2: seq<PtAsgn>, c3: seq<PtAsgn>) returns (res: bool)
      requires Valid() && AsgnsBool(logic.terms, c0) && AsgnsBool(logic.terms, c1)
      requires AsgnsBool(logic.terms, c2) && AsgnsBool(logic.terms, c3)
      modifies tmap, solver
      ensures Valid() && old(tmap.varToTerm) <= tmap.varToTerm && res == solver.ok
      ensures forall tau: Valuation ::
        DbModels(tau) == (old(DbModels(tau))
                          && (Guard(tau, frameTerm)
                              || (SomeAsgnVal(logic.terms, tau, c0) && SomeAsgnVal(logic.terms, tau, c1)
                                  && SomeAsgnVal(logic.terms, tau, c2) && SomeAsgnVal(logic.terms, tau, c3))))
    {
      hide Cnfizer.DbModels, Cnfizer.ValidOver, Guard, SomeAsgnVal, Consistent, PropEval;
      var _ := AddTermClause(c0);
      var _ := AddTermClause(c1);
      var _ := AddTermClause(c2);
      res := AddTermClause(c3);
    }

    method CnfizeXor(p: PTRef) returns (res: bool)
      requires Valid() && p < |logic.terms| && logic.terms[p].symb.Xor?
      modifies tmap, solver
      ensures Valid() && old(tmap.varToTerm) <= tmap.varToTerm && res == solver.ok
      ensures forall tau: Valuation ::
        DbModels(tau) == (old(DbModels(tau)) && (Guard(tau, frameTerm) || Consistent(logic.terms, tau, p)))
    {
      hide Cnfizer.DbModels, Cnfizer.ValidOver, Guard, SomeAsgnVal, PropEval;
      ghost var T := logic.terms;
      assert WfTerm(T, p);
      var a0, a1 := logic.terms[p].args[0], logic.terms[p].args[1];
      res := AddFourClauses(
        [PtAsgn(p, false), PtAsgn(a0, true), PtAsgn(a1, true)],
        [PtAsgn(p, false), PtAsgn(a0, false), PtAsgn(a1, false)],
        [PtAsgn(p, true), PtAsgn(a0, false), PtAsgn(a1, true)],
        [PtAsgn(p, true), PtAsgn(a0, true), PtAsgn(a1, false)]);
      Ternary(T, p, a0, a1);
    }

    method CnfizeIff(p: PTRef) returns (res: bool)
      requires Valid() && p < |logic.terms| && logic.terms[p].symb.Iff?
      modifies tmap, solver
      ensures Valid() && old(tmap.varToTerm) <= tmap.varToTerm && res == solver.ok
      ensures forall tau: Valuation ::
        DbModels(tau) == (old(DbModels(tau)) && (Guard(tau, frameTerm) || Consistent(logic.terms, tau, p)))
    {
      hide Cnfizer.DbModels, Cnfizer.ValidOver, Guard, SomeAsgnVal, PropEval;
      ghost var T := logic.terms;
      assert WfTerm(T, p);
      var a0, a1 := logic.terms[p].args[0], logic.terms[p].args[1];
      res := AddFourClauses(
        [PtAsgn(p, false), PtAsgn(a0, true), PtAsgn(a1, false)],
        [PtAsgn(p, false), PtAsgn(a0, false), PtAsgn(a1, true)],
        [PtAsgn(p, true), PtAsgn(a0, true), PtAsgn(a1, true)],
        [PtAsgn(p, true), PtAsgn(a0, false), PtAsgn(a1, false)]);
      Ternary(T, p, a0, a1);
    }

    method CnfizeIfthenelse(p: PTRef) returns (res: bool)
      requires Valid() && p < |logic.terms| && logic.terms[p].symb.Ite?
      modifies tmap, solver
      ensures Valid() && old(tmap.varToTerm) <= tmap.varToTerm && res == solver.ok
      ensures forall tau: Valuation ::
        DbModels(tau) == (old(DbModels(tau)) && (Guard(tau, frameTerm) || Consistent(logic.terms, tau, p)))
    {
      hide Cnfizer.DbModels, Cnfizer.ValidOver, Guard, SomeAsgnVal, Consistent, PropEval;
      ghost var T := logic.terms;
      assert WfTerm(T, p);
      var a0, a1, a2 := logic.terms[p].args[0], logic.terms[p].args[1], logic.terms[p].args[2];
      res := AddFourClauses(
        [PtAsgn(p, false), PtAsgn(a0, false), PtAsgn(a1, true)],
        [PtAsgn(p, false), PtAsgn(a0, true), PtAsgn(a2, true)],
        [PtAsgn(p, true), PtAsgn(a0, false), PtAsgn(a1, false)],
        [PtAsgn(p, true), PtAsgn(a0, true), PtAsgn(a2, false)]);
      IteDefinition(T, p);
    }

    method CnfizeImplies(p: PTRef) returns (res: bool)
      requires Valid() && p < |logic.terms| && logic.terms[p].symb.Implies?
      modifies tmap, solver
      ensures Valid() && old(tmap.varToTerm) <= tmap.varToTerm && res == solver.ok
      ensures forall tau: Valuation ::
        DbModels(tau) == (old(DbModels(tau)) && (Guard(tau, frameTerm) || Consistent(logic.terms, tau, p)))
    {
      hide Cnfizer.DbModels, Cnfizer.ValidOver, Guard, SomeAsgnVal, PropEval;
      ghost var T := logic.terms;
      assert WfTerm(T, p);
      var a0, a1 := logic.terms[p].args[0], logic.terms[p].args[1];
      var _ := AddTermClause([PtAsgn(p, true), PtAsgn(a0, true)]);
      var _ := AddTermClause([PtAsgn(p, true), PtAsgn(a1, false)]);
      res := AddTermClause([PtAsgn(p, false), PtAsgn(a0, false), PtAsgn(a1, true)]);
      Ternary(T, p, a0, a1);
      Binary(T, p, a0);
      Binary(T, p, a1);
    }

    /** Adds the clauses of one visited node. */
    method DeclareOne(p: PTRef, formula: OptRef) returns (res: bool)
      requires Valid() && p < |logic.terms| && HasSortBool(logic.terms, p)
      modifies tmap, solver
      ensures Valid() && old(tmap.varToTerm) <= tmap.varToTerm && res == solver.ok
      ensures forall tau: Valuation ::
        DbModels(tau) == (old(DbModels(tau)) && (Guard(tau, frameTerm) || DefMeaning(logic.terms, tau, p, formula)))
    {
      var symb := logic.terms[p].symb;
      if symb.And? {
        res := CnfizeAnd(p);
      } else if symb.Or? {
        res := CnfizeOr(p, formula != SomeRef(p));
      } else if symb.Xor? {
        res := CnfizeXor(p);
      } else if symb.Iff? {
        res := CnfizeIff(p);
      } else if symb.Implies? {
        res := CnfizeImplies(p);
      } else if symb.Ite? {
        res := CnfizeIfthenelse(p);
      } else {
        res := solver.ok;
      }
    }

    /** One round of the visit: drops the last waiting term or adds its clauses and lets its
        arguments wait. */
    method VisitLast(work: seq<PTRef>, processed: set<PTRef>, formula: OptRef, ghost start: seq<PTRef>, ghost done: set<PTRef>)
      returns (work': seq<PTRef>, processed': set<PTRef>, ghost done': set<PTRef>)
      requires Valid() && InStore(logic.terms, start) && work != []
      requires Visiting(logic.terms, start, work, processed, done, formula)
      modifies tmap, solver
      ensures Valid() && old(tmap.varToTerm) <= tmap.varToTerm
      ensures Visiting(logic.terms, start, work', processed', done', formula)
      ensures done <= done' && (done' == done ==> |work'| < |work|)
      ensures forall tau: Valuation ::
        DbModels(tau) == (old(DbModels(tau)) && (Guard(tau, frameTerm) || DefMeanings(logic.terms, tau, done' - done, formula)))
    {
      hide Visiting, Models, Consistent, DefMeaning;
      ghost var T := logic.terms;
      var p := work[|work| - 1];
      var rest := work[..|work| - 1];
      VisitStep(T, start, rest, p, processed, done, formula, work);
      if p in processed {
        work', processed', done' := rest, processed, done;
        assert done' - done == {};
        return;
      }
      var _ := DeclareOne(p, formula);
      done' := done + {p};
      assert done' - done == {p};
      work' := rest + if IsBooleanOperator(logic.terms[p].symb) then logic.terms[p].args else [];
      processed' := if formula != SomeRef(p) then processed + {p} else processed;
    }

    /** Visits the DAG below the given terms through Boolean operators and defines every node
        met, except the top formula when that is a disjunction. */
    method Declare(unprocessed: seq<PTRef>, formula: OptRef) returns (res: bool)
      requires Valid() && AllBool(logic.terms, unprocessed)
      requires formula.SomeRef? ==> unprocessed == [formula.tr]
      modifies tmap, solver
      ensures Valid() && old(tmap.varToTerm) <= tmap.varToTerm && res == solver.ok
      ensures forall tau: Valuation ::
        DbModels(tau) == (old(DbModels(tau)) && (Guard(tau, frameTerm) || Declared(logic.terms, tau, unprocessed, formula)))
    {
      ghost var T := logic.terms;
      var work: seq<PTRef> := unprocessed;
      var processed: set<PTRef> := {};
      ghost var done: set<PTRef> := {};
      FrontierStart(T, unprocessed);
      while work != []
        invariant Valid() && old(tmap.varToTerm) <= tmap.varToTerm
        invariant Visiting(T, unprocessed, work, processed, done, formula)
        invariant forall tau: Valuation ::
          DbModels(tau) == (old(DbModels(tau)) && (Guard(tau, frameTerm) || DefMeanings(T, tau, done, formula)))
        decreases Refs(|T|) - done, |work|
      {
        ghost var was := done;
        work, processed, done := VisitLast(work, processed, formula, unprocessed, done);
        DefMeaningsSplit(T, was, done, formula);
      }
      FrontierDone(T, unprocessed, done, formula);
      res := solver.ok;
    }

    /** Asserts a formula that is not a conjunction by defining all its subterms. */
    method Cnfize(formula: PTRef) returns (res: bool)
      requires Valid() && formula < |logic.terms| && HasSortBool(logic.terms, formula)
      requires !logic.terms[formula].symb.And?
      modifies tmap, solver
      ensures Valid() && old(tmap.varToTerm) <= tmap.varToTerm && res == solver.ok
      ensures forall tau: Valuation | DbModels(tau) :: old(DbModels(tau))
      ensures forall tau: Valuation | ConstantsOk(tau) && DbModels(tau) ::
        Guard(tau, frameTerm) || PropEval(logic.terms, tau, formula)
      ensures forall tau: Valuation | ConstantsOk(tau) && AllConsistent(logic.terms, tau) && old(DbModels(tau))
                                      && (Guard(tau, frameTerm) || PropEval(logic.terms, tau, formula)) ::
        DbModels(tau)
    {
      ghost var T := logic.terms;
      if !logic.terms[formula].symb.Or? {
        var unit := [PtAsgn(formula, true)];
        var _ := AddTermClause(unit);
        assert unit[0].tr == formula;
        assert forall tau: Valuation :: SomeAsgnVal(T, tau, unit) == TermVal(T, tau, formula);
      }
      res := Declare([formula], SomeRef(formula));
      EncodingIsFaithful(T, formula);
    }

    // ----- formulas that need no definitions -----

    /** Gives literals, clauses and conjunctions of clauses to the solver as they are. */
    method GiveToSolver(f: PTRef) returns (res: bool)
      requires Valid() && f < |logic.terms| && HasSortBool(logic.terms, f) && CnfShape(logic.terms, f)
      modifies tmap, solver
      ensures Valid() && old(tmap.varToTerm) <= tmap.varToTerm && res == solver.ok
      ensures forall tau: Valuation | DbModels(tau) :: old(DbModels(tau))
      ensures forall tau: Valuation | ConstantsOk(tau) ::
        DbModels(tau) == (old(DbModels(tau)) && (Guard(tau, frameTerm) || PropEval(logic.terms, tau, f)))
      decreases if logic.terms[f].symb.And? then 1 else 0
    {
      hide Models, AndLeavesAreClauses, OrLeavesAreAtoms, ProperTerm;
      ghost var T := logic.terms;
      LiteralsAreAtoms(T, f);
      if IsLit(logic.terms, f) {
        var unit := [PtAsgn(f, true)];
        res := AddTermClause(unit);
        assert unit[0].tr == f;
        assert forall tau: Valuation :: SomeAsgnVal(T, tau, unit) == TermVal(T, tau, f);
        return;
      }
      if logic.terms[f].symb.Or? {
        var lits := RetrieveClause(logic.terms, f);
        res := AddTermClause(Signed(lits, true));
        SignedMeaning(T, lits, true);
        assert forall tau: Valuation :: SomeAsgnVal(T, tau, Signed(lits, true)) == SomeLit(T, tau, lits);
        return;
      }
      var conj := RetrieveTopLevelFormulae(logic.terms, f);
      res := solver.ok;
      for i := 0 to |conj|
        invariant Valid() && old(tmap.varToTerm) <= tmap.varToTerm && res == solver.ok
        invariant forall tau: Valuation | DbModels(tau) :: old(DbModels(tau))
        invariant forall tau: Valuation | ConstantsOk(tau) ::
          DbModels(tau) == (old(DbModels(tau)) && (Guard(tau, frameTerm) || AllTrue(T, tau, conj[..i])))
      {
        if !res {
          NotOkHasNoModels();
          assert forall tau: Valuation :: AllTrue(T, tau, conj) ==> AllTrue(T, tau, conj[..i]);
          return;
        }
        AllTrueStep(T, conj, i);
        ClauseIsNoConjunction(T, conj[i]);
        res := GiveToSolver(conj[i]);
      }
      assert conj[..|conj|] == conj;
    }

    /** Turns the negation of a conjunction of literals into one clause. */
    method DeMorganize(f: PTRef) returns (res: bool)
      requires Valid() && f < |logic.terms| && DeMorganShape(logic.terms, f)
      modifies tmap, solver
      ensures Valid() && old(tmap.varToTerm) <= tmap.varToTerm && res == solver.ok
      ensures forall tau: Valuation | DbModels(tau) :: old(DbModels(tau))
      ensures forall tau: Valuation | ConstantsOk(tau) ::
        DbModels(tau) == (old(DbModels(tau)) && (Guard(tau, frameTerm) || PropEval(logic.terms, tau, f)))
    {
      hide Models;
      ghost var T := logic.terms;
      assert WfTerm(T, f);
      var conjuncts := RetrieveConjuncts(logic.terms, logic.terms[f].args[0]);
      res := AddTermClause(Signed(conjuncts, false));
      SignedMeaning(T, conjuncts, false);
      assert forall tau: Valuation :: SomeAsgnVal(T, tau, Signed(conjuncts, false)) == !AllLits(T, tau, conjuncts);
    }

    /** One conjunct, by whichever route recognises it.  All routes assert the same meaning. */
    method GiveConjunct(f: PTRef) returns (res: bool)
      requires Valid() && f < |logic.terms| && HasSortBool(logic.terms, f) && !logic.terms[f].symb.And?
      modifies tmap, solver
      ensures Valid() && old(tmap.varToTerm) <= tmap.varToTerm && res == solver.ok
      ensures forall tau: Valuation | DbModels(tau) :: old(DbModels(tau))
      ensures forall tau: Valuation | ConstantsOk(tau) && DbModels(tau) ::
        Guard(tau, frameTerm) || PropEval(logic.terms, tau, f)
      ensures forall tau: Valuation | ConstantsOk(tau) && AllConsistent(logic.terms, tau) && old(DbModels(tau))
                                      && (Guard(tau, frameTerm) || PropEval(logic.terms, tau, f)) ::
        DbModels(tau)
    {
      hide Models, CnfShape, DeMorganShape;
      var inCnf := CheckCnf(logic.terms, f);
      if inCnf {
        res := GiveToSolver(f);
        return;
      }
      var byDeMorgan := CheckDeMorgan(logic.terms, f);
      if byDeMorgan {
        res := DeMorganize(f);
      } else {
        res := Cnfize(f);
      }
    }

    // ----- frames -----

    method NewFrameTerm(frameId: nat) returns (t: PTRef)
      requires Valid() && frameId > 0
      modifies logic
      ensures Valid() && old(logic.terms) <= logic.terms
      ensures t != TERM_TRUE && IsFrameTerm(logic.terms, t, frameId)
    {
      t := logic.InsertTermHash(FrameVar(frameId), []);
    }

    /** Makes the given frame current, creating its variable on first use.  Frame 0 is never
        retracted and has none. */
    method SetFrameTerm(frameId: nat)
      requires Valid()
      modifies this, logic
      ensures Valid() && old(logic.terms) <= logic.terms
      ensures FramesKept(old(frameTerms), frameTerms, frameId) && frameTerm == frameTerms[frameId]
    {
      hide WfTerms, ProperTerm, ClausesOk, TermMapper.Valid, SimpSMTSolver.Valid;
      while |frameTerms| <= frameId
        modifies this
        invariant Valid() && |old(frameTerms)| <= |frameTerms|
        invariant forall i | 0 <= i < |old(frameTerms)| :: frameTerms[i] == old(frameTerms)[i]
        invariant forall i | |old(frameTerms)| <= i < |frameTerms| :: frameTerms[i] == TERM_TRUE
      {
        frameTerms := frameTerms + [TERM_TRUE];
      }
      if frameId != 0 && frameTerms[frameId] == TERM_TRUE {
        var t := NewFrameTerm(frameId);
        frameTerms := frameTerms[frameId := t];
      }
      frameTerm := frameTerms[frameId];
    }

    /** All Boolean arguments of predicates and functions below the formula. */
    method GetNestedBoolRoots(root: PTRef) returns (roots: seq<PTRef>)
      requires Valid() && root < |logic.terms|
      ensures AllBool(logic.terms, roots)
      ensures forall x :: x in roots <==> NestedBoolRoot(logic.terms, root, x)
    {
      hide Below, WfTerms, ProperTerm, Nested, NestedBoolRoot;
      ghost var T := logic.terms;
      var work := [root];
      var processed: set<PTRef> := {};
      roots := [];
      assert Nested(T, root, work, processed, roots) by { NestedStart(T, root); }
      while work != []
        invariant InStore(T, work) && processed <= Refs(|T|) && Nested(T, root, work, processed, roots)
        decreases Refs(|T|) - processed, |work|
      {
        var p := work[|work| - 1];
        ghost var waiting := work;
        work := work[..|work| - 1];
        if p in processed {
          NestedSkip(T, root, waiting, processed, roots);
        } else {
          ghost var was := roots;
          work, roots := PushNested(p, work, roots);
          NestedVisit(T, root, waiting, processed, was, work, roots);
          processed := processed + {p};
        }
      }
      NestedDone(T, root, processed, roots);
    }

    /** Lets the arguments wait, and collects those that are Boolean arguments of no Boolean operator. */
    method PushNested(p: PTRef, work: seq<PTRef>, roots: seq<PTRef>) returns (work': seq<PTRef>, roots': seq<PTRef>)
      requires Valid() && p < |logic.terms| && InStore(logic.terms, work)
      ensures InStore(logic.terms, work') && forall x :: x in work' <==> x in work || x in logic.terms[p].args
      ensures forall x :: x in roots' <==> x in roots || NestedArg(logic.terms, p, x)
    {
      work', roots' := work, roots;
      var args := logic.terms[p].args;
      assert WfTerm(logic.terms, p);
      for i := 0 to |args|
        invariant InStore(logic.terms, work') && forall x :: x in work' <==> x in work || x in args[..i]
        invariant forall x :: x in roots' <==> x in roots || (NestedArg(logic.terms, p, x) && x in args[..i])
      {
        assert args[..i + 1] == args[..i] + [args[i]];
        work' := work' + [args[i]];
        if !IsBooleanOperator(logic.terms[p].symb) && HasSortBool(logic.terms, args[i]) {
          roots' := roots' + [args[i]];
        }
      }
      assert args[..|args|] == args;
    }

    /** Turns a formula into clauses of the given frame.  False means that the clause database
        has no model at all. */
    method CnfizeAndGiveToSolver(formula: PTRef, frameId: nat) returns (res: bool)
      requires Valid() && formula < |logic.terms| && HasSortBool(logic.terms, formula)
      modifies this, logic, tmap, solver
      ensures Valid() && old(logic.terms) <= logic.terms && res == solver.ok
      ensures FramesKept(old(frameTerms), frameTerms, frameId) && frameTerm == frameTerms[frameId]
      ensures forall tau: Valuation | DbModels(tau) :: old(DbModels(tau))
      ensures forall tau: Valuation | ConstantsOk(tau) && DbModels(tau) ::
        Guard(tau, frameTerm) || PropEval(logic.terms, tau, formula)
      ensures forall tau: Valuation | ConstantsOk(tau) && AllConsistent(logic.terms, tau) && old(DbModels(tau))
                                      && (Guard(tau, frameTerm) || PropEval(logic.terms, tau, formula)) ::
        DbModels(tau)
    {
      hide Models, WfTerms, ProperTerm, WfTerm, Consistent, IsFrameTerm;
      SetFrameTerm(frameId);
      ghost var T := logic.terms;
      if !solver.ok {
        NotOkHasNoModels();
        return false;
      }
      var tops := RetrieveTopLevelFormulae(logic.terms, formula);
      res := solver.ok;
      for i := 0 to |tops|
        modifies tmap, solver
        invariant Valid() && res == solver.ok
        invariant forall tau: Valuation | DbModels(tau) :: old(DbModels(tau))
        invariant forall tau: Valuation | ConstantsOk(tau) && DbModels(tau) ::
          Guard(tau, frameTerm) || AllTrue(T, tau, tops[..i])
        invariant forall tau: Valuation | ConstantsOk(tau) && AllConsistent(T, tau) && old(DbModels(tau))
                                          && (Guard(tau, frameTerm) || PropEval(T, tau, formula)) ::
          DbModels(tau)
      {
        if res {
          AllTrueStep(T, tops, i);
          assert forall tau: Valuation :: AllTrue(T, tau, tops) ==> PropEval(T, tau, tops[i]);
          res := GiveConjunct(tops[i]);
        } else {
          NotOkHasNoModels();
        }
      }
      assert tops[..|tops|] == tops;
      if res {
        var nested := GetNestedBoolRoots(formula);
        res := Declare(nested, NoRef);
        DeclaredIsImplied(T, nested);
      }
    }

    /** Makes the two constants mean what they say; guarded like every other clause. */
    method Initialize()
      requires Valid()
      modifies tmap, solver
      ensures Valid() && old(tmap.varToTerm) <= tmap.varToTerm
      ensures forall tau: Valuation :: DbModels(tau) == (old(DbModels(tau)) && (Guard(tau, frameTerm) || ConstantsOk(tau)))
    {
      ghost var T := logic.terms;
      var yes, no := [PtAsgn(TERM_TRUE, true)], [PtAsgn(TERM_FALSE, false)];
      var _ := AddTermClause(yes);
      var _ := AddTermClause(no);
      forall tau: Valuation
        ensures (SomeAsgnVal(T, tau, yes) && SomeAsgnVal(T, tau, no)) == ConstantsOk(tau)
      {
        assert yes[0].tr == TERM_TRUE && no[0].tr == TERM_FALSE;
        assert TermVal(T, tau, TERM_TRUE) == (TERM_TRUE in tau) && TermVal(T, tau, TERM_FALSE) == (TERM_FALSE in tau);
      }
    }

    method Solve(enFrames: seq<nat>) returns (sat: bool)
      requires Valid()
      requires forall k | 0 <= k < |enFrames| :: enFrames[k] < |frameTerms|
      requires forall j, k | 0 <= j < k < |enFrames| :: enFrames[j] != enFrames[k]
      modifies tmap
      ensures Valid() && old(tmap.varToTerm) <= tmap.varToTerm
      ensures forall tau: Valuation :: DbModels(tau) == old(DbModels(tau))
      ensures sat <==> exists tau: Valuation :: DbModels(tau) && FramesAssumed(tau, frameTerms, enFrames)
    {
      hide Models, WfTerms, ProperTerm, FramesAssumed, LitVal;
      var kept := Assumptions(enFrames);
      SearchMeaning(kept, enFrames);
      sat := solver.Solve(kept);
    }

    /** One literal per frame variable, inverted for the enabled frames. */
    method Assumptions(enFrames: seq<nat>) returns (kept: seq<Lit>)
      requires Valid()
      requires forall k | 0 <= k < |enFrames| :: enFrames[k] < |frameTerms|
      requires forall j, k | 0 <= j < k < |enFrames| :: enFrames[j] != enFrames[k]
      modifies tmap
      ensures Valid() && old(tmap.varToTerm) <= tmap.varToTerm && ClauseOk(tmap.varToTerm, kept)
      ensures forall tau: Valuation :: DbModels(tau) == old(DbModels(tau))
      ensures forall tau: Valuation ::
        FramesAssumed(tau, frameTerms, enFrames) <==> forall k | 0 <= k < |kept| :: LitVal(tmap.varToTerm, tau, kept[k])
    {
      hide Models, WfTerms, ProperTerm, FramesAssumed, LitVal;
      var litTrue := TrueLiteral();
      var assumps := FrameLiterals();
      assumps := InvertEnabled(assumps, enFrames);
      kept := DropTrue(assumps, enFrames, litTrue);
    }

    lemma SearchMeaning(kept: seq<Lit>, enFrames: seq<nat>)
      requires Valid() && ClauseOk(tmap.varToTerm, kept)
      requires forall tau: Valuation ::
        FramesAssumed(tau, frameTerms, enFrames) <==> forall k | 0 <= k < |kept| :: LitVal(tmap.varToTerm, tau, kept[k])
      ensures Satisfiable(solver.clauses, kept)
        <==> exists tau: Valuation :: DbModels(tau) && FramesAssumed(tau, frameTerms, enFrames)
    {
      hide FramesAssumed, WfTerms, ProperTerm;
      if Satisfiable(solver.clauses, kept) {
        var tau := SatIsTermAssignment(tmap, logic.terms, solver.clauses, kept);
        assert DbModels(tau) && FramesAssumed(tau, frameTerms, enFrames);
      }
      if tau: Valuation :| DbModels(tau) && FramesAssumed(tau, frameTerms, enFrames) {
        TermAssignmentIsSat(tmap.varToTerm, tau, solver.clauses, kept);
      }
    }

    /** By default every frame is disabled. */
    method FrameLiterals() returns (assumps: seq<Lit>)
      requires Valid()
      modifies tmap
      ensures Valid() && old(tmap.varToTerm) <= tmap.varToTerm && ClauseOk(tmap.varToTerm, assumps)
      ensures |assumps| == |frameTerms|
      ensures forall k | 0 <= k < |assumps| :: tmap.varToTerm[assumps[k].v] == frameTerms[k] && !assumps[k].sgn
      ensures forall tau: Valuation :: DbModels(tau) == old(DbModels(tau))
    {
      hide Models, WfTerms, ProperTerm, Cnfizer.ValidOver, Cnfizer.DbModels;
      assumps := [];
      for i := 0 to |frameTerms|
        invariant Valid() && old(tmap.varToTerm) <= tmap.varToTerm && |assumps| == i
        invariant ClauseOk(tmap.varToTerm, assumps)
        invariant forall k | 0 <= k < i :: tmap.varToTerm[assumps[k].v] == frameTerms[k] && !assumps[k].sgn
        invariant forall tau: Valuation :: DbModels(tau) == old(DbModels(tau))
      {
        FrameTermIsPure(i);
        var l := LiteralFor(frameTerms[i]);
        assumps := assumps + [l];
      }
    }

    method InvertEnabled(lits: seq<Lit>, enFrames: seq<nat>) returns (assumps: seq<Lit>)
      requires forall k | 0 <= k < |enFrames| :: enFrames[k] < |lits|
      requires forall j, k | 0 <= j < k < |enFrames| :: enFrames[j] != enFrames[k]
      requires forall k | 0 <= k < |lits| :: !lits[k].sgn
      ensures |assumps| == |lits|
      ensures forall k | 0 <= k < |assumps| :: assumps[k] == Lit(lits[k].v, k in enFrames)
    {
      assumps := lits;
      for i := 0 to |enFrames|
        invariant |assumps| == |lits|
        invariant forall k | 0 <= k < |assumps| :: assumps[k] == Lit(lits[k].v, k in enFrames[..i])
      {
        var e := enFrames[i];
        assert e !in enFrames[..i];
        assert enFrames[..i + 1] == enFrames[..i] + [e];
        assumps := assumps[e := Neg(assumps[e])];
      }
      assert enFrames[..|enFrames|] == enFrames;
    }

    method TrueLiteral() returns (l: Lit)
      requires Valid()
      modifies tmap
      ensures Valid() && old(tmap.varToTerm) <= tmap.varToTerm
      ensures l.v < |tmap.varToTerm| && tmap.varToTerm[l.v] == TERM_TRUE && !l.sgn
      ensures forall tau: Valuation :: DbModels(tau) == old(DbModels(tau))
    {
      hide Models;
      assert Purify(logic.terms, TERM_TRUE) == (TERM_TRUE, false);
      l := LiteralFor(TERM_TRUE);
    }

    /** Drops the entries of frames that have no variable. */
    method DropTrue(assumps: seq<Lit>, enFrames: seq<nat>, litTrue: Lit) returns (kept: seq<Lit>)
      requires Valid() && ClauseOk(tmap.varToTerm, assumps) && |assumps| == |frameTerms|
      requires forall k | 0 <= k < |assumps| :: tmap.varToTerm[assumps[k].v] == frameTerms[k]
      requires forall k | 0 <= k < |assumps| :: assumps[k].sgn <==> k in enFrames
      requires litTrue.v < |tmap.varToTerm| && tmap.varToTerm[litTrue.v] == TERM_TRUE
      ensures ClauseOk(tmap.varToTerm, kept)
      ensures forall tau: Valuation ::
        FramesAssumed(tau, frameTerms, enFrames) <==> forall k | 0 <= k < |kept| :: LitVal(tmap.varToTerm, tau, kept[k])
    {
      hide WfTerms, ProperTerm, SimpSMTSolver.Valid;
      kept := [];
      ghost var from: seq<nat> := [];      // from[k] is the frame of kept[k]
      for i := 0 to |assumps|
        invariant |from| == |kept| && forall k | 0 <= k < |kept| :: from[k] < i && kept[k] == assumps[from[k]]
        invariant forall k | 0 <= k < |kept| :: frameTerms[from[k]] != TERM_TRUE
        invariant forall f | 0 <= f < i && frameTerms[f] != TERM_TRUE :: assumps[f] in kept
      {
        assert tmap.termToVar[tmap.varToTerm[assumps[i].v]] == assumps[i].v;
        assert tmap.termToVar[TERM_TRUE] == litTrue.v;
        if assumps[i] != litTrue && assumps[i] != Neg(litTrue) {
          kept := kept + [assumps[i]];
          from := from + [i];
        }
      }
      forall tau: Valuation
        ensures FramesAssumed(tau, frameTerms, enFrames) <==> forall k | 0 <= k < |kept| :: LitVal(tmap.varToTerm, tau, kept[k])
      {
        if forall k | 0 <= k < |kept| :: LitVal(tmap.varToTerm, tau, kept[k]) {
          forall f | 0 <= f < |frameTerms| && frameTerms[f] != TERM_TRUE ensures frameTerms[f] in tau <==> f !in enFrames {
            var k :| 0 <= k < |kept| && kept[k] == assumps[f];
            assert LitVal(tmap.varToTerm, tau, kept[k]);
          }
        }
        if FramesAssumed(tau, frameTerms, enFrames) {
          forall k | 0 <= k < |kept| ensures LitVal(tmap.varToTerm, tau, kept[k]) {
            assert frameTerms[from[k]] in tau <==> from[k] !in enFrames;
          }
        }
      }
    }

    lemma FrameTermIsPure(i: nat)
      requires Valid() && i < |frameTerms|
      ensures frameTerms[i] < |logic.terms| && HasSortBool(logic.terms, frameTerms[i])
      ensures Purify(logic.terms, frameTerms[i]) == (frameTerms[i], false)
    {
      assert IsFrameTerm(logic.terms, frameTerms[i], i);
    }
  }

  /** Frame variables already in use stay the same. */
  ghost predicate FramesKept(fts: seq<PTRef>, fts': seq<PTRef>, id: nat) {
    && |fts| <= |fts'| && id < |fts'|
    && (forall i | 0 <= i < |fts| && i != id :: fts'[i] == fts[i])
    && (id < |fts| && fts[id] != TERM_TRUE ==> fts'[id] == fts[id])
    && (fts'[id] == TERM_TRUE <==> id == 0)
  }

  /** The assumptions under which a frame's clauses bind exactly when it is enabled. */
  ghost predicate FramesAssumed(tau: Valuation, frameTerms: seq<PTRef>, enFrames: seq<nat>) {
    forall i | 0 <= i < |frameTerms| && frameTerms[i] != TERM_TRUE :: frameTerms[i] in tau <==> i !in enFrames
  }

  lemma DeclaredIsImplied(T: seq<Pterm>, ws: seq<PTRef>)
    requires WfTerms(T) && InStore(T, ws)
    ensures forall tau: Valuation | AllConsistent(T, tau) :: Declared(T, tau, ws, NoRef)
  {
  }

  lemma AllTrueStep(T: seq<Pterm>, conj: seq<PTRef>, i: nat)
    requires WfTerms(T) && InStore(T, conj) && i < |conj|
    ensures forall tau: Valuation ::
      AllTrue(T, tau, conj[..i + 1]) == (AllTrue(T, tau, conj[..i]) && PropEval(T, tau, conj[i]))
  {
    assert conj[..i + 1] == conj[..i] + [conj[i]];
  }

  lemma ClauseIsNoConjunction(T: seq<Pterm>, f: PTRef)
    requires WfTerms(T) && f < |T|
    requires !T[f].symb.And? && AndLeavesAreClauses(T, f)
    ensures ClauseShape(T, f) && CnfShape(T, f)
  {
  }

  /** Bookkeeping of the visit: everything visited or waiting is reached from the start, the
      start is visited or waiting, and so are the arguments of every visited operator. */
  ghost predicate Frontier(T: seq<Pterm>, start: seq<PTRef>, work: seq<PTRef>, done: set<PTRef>)
    requires WfTerms(T) && InStore(T, start)
  {
    && AllBool(T, work)
    && (forall i | 0 <= i < |work| :: ReachedFrom(T, start, work[i]))
    && (forall x | x in done :: x < |T| && ReachedFrom(T, start, x))
    && (forall i | 0 <= i < |start| :: start[i] in done || start[i] in work)
    && (forall x | x in done && IsBooleanOperator(T[x].symb) :: forall a | a in T[x].args :: a in done || a in work)
  }

  /** The top formula is visited first and nothing visited later is as new as it is. */
  ghost predicate TopFirst(work: seq<PTRef>, done: set<PTRef>, formula: OptRef) {
    formula.SomeRef? ==>
      if formula.tr in done then forall i | 0 <= i < |work| :: work[i] < formula.tr else work == [formula.tr]
  }

  lemma TopFirstStep(T: seq<Pterm>, rest: seq<PTRef>, p: PTRef, done: set<PTRef>, formula: OptRef)
    requires WfTerms(T) && p < |T| && TopFirst(rest + [p], done, formula)
    ensures p in done ==> TopFirst(rest, done, formula)
    ensures TopFirst(rest + if IsBooleanOperator(T[p].symb) then T[p].args else [], done + {p}, formula)
    ensures formula.SomeRef? && formula.tr in done ==> p != formula.tr
  {
    var work := rest + [p];
    assert work[|rest|] == p && forall i | 0 <= i < |rest| :: rest[i] == work[i];
    assert WfTerm(T, p);
    if formula.SomeRef? && formula.tr !in done {
      assert |work| == 1 && rest == [];
    }
  }

  ghost predicate Visiting(T: seq<Pterm>, start: seq<PTRef>, work: seq<PTRef>, processed: set<PTRef>, done: set<PTRef>,
                           formula: OptRef)
    requires WfTerms(T) && InStore(T, start)
  {
    && Frontier(T, start, work, done)
    && TopFirst(work, done, formula)
    && done <= Refs(|T|)
    && processed == done - (if formula.SomeRef? then {formula.tr} else {})
  }

  lemma VisitStep(T: seq<Pterm>, start: seq<PTRef>, rest: seq<PTRef>, p: PTRef, processed: set<PTRef>, done: set<PTRef>,
                  formula: OptRef, work: seq<PTRef>)
    requires WfTerms(T) && InStore(T, start) && work == rest + [p] && Visiting(T, start, work, processed, done, formula)
    ensures p < |T| && HasSortBool(T, p)
    ensures p in processed ==> Visiting(T, start, rest, processed, done, formula)
    ensures p !in processed ==> p !in done
    ensures p !in processed ==>
              Visiting(T, start, rest + (if IsBooleanOperator(T[p].symb) then T[p].args else []),
                       if formula != SomeRef(p) then processed + {p} else processed, done + {p}, formula)
  {
    assert work[|rest|] == p;
    TopFirstStep(T, rest, p, done, formula);
    if p in processed {
      FrontierDrop(T, start, rest, p, done);
    } else {
      FrontierExpand(T, start, rest, p, done);
    }
  }

  lemma FrontierStart(T: seq<Pterm>, start: seq<PTRef>)
    requires WfTerms(T) && AllBool(T, start)
    ensures Frontier(T, start, start, {})
  {
    forall i | 0 <= i < |start| ensures ReachedFrom(T, start, start[i]) {
      assert BoolBelow(T, start[i], start[i]);
    }
  }

  lemma DefMeaningsSplit(T: seq<Pterm>, was: set<PTRef>, done: set<PTRef>, formula: OptRef)
    requires WfTerms(T) && was <= done
    ensures forall tau: Valuation ::
      DefMeanings(T, tau, done, formula) == (DefMeanings(T, tau, was, formula) && DefMeanings(T, tau, done - was, formula))
  {
  }

  lemma FrontierDrop(T: seq<Pterm>, start: seq<PTRef>, rest: seq<PTRef>, p: PTRef, done: set<PTRef>)
    requires WfTerms(T) && InStore(T, start) && Frontier(T, start, rest + [p], done) && p in done
    ensures Frontier(T, start, rest, done)
  {
    var work := rest + [p];
    assert forall i | 0 <= i < |rest| :: rest[i] == work[i];
    assert forall a :: a in work <==> a in rest || a == p;
  }

  lemma ReachedArg(T: seq<Pterm>, start: seq<PTRef>, p: PTRef, a: PTRef)
    requires WfTerms(T) && InStore(T, start) && p < |T| && ReachedFrom(T, start, p)
    requires IsBooleanOperator(T[p].symb) && a in T[p].args
    ensures ReachedFrom(T, start, a)
  {
    var i :| 0 <= i < |start| && BoolBelow(T, start[i], p);
    assert WfTerm(T, p) && BoolBelow(T, a, a) && BoolBelow(T, p, a);
    BoolBelowTrans(T, start[i], p, a);
  }

  lemma {:induction false} BoolBelowTrans(T: seq<Pterm>, r: PTRef, x: PTRef, y: PTRef)
    requires WfTerms(T) && r < |T| && x < |T| && BoolBelow(T, r, x) && BoolBelow(T, x, y)
    ensures BoolBelow(T, r, y)
    decreases r
  {
    assert WfTerm(T, r);
    if x != r {
      var a :| a in T[r].args && BoolBelow(T, a, x);
      BoolBelowTrans(T, a, x, y);
    }
  }

  lemma FrontierExpand(T: seq<Pterm>, start: seq<PTRef>, rest: seq<PTRef>, p: PTRef, done: set<PTRef>)
    requires WfTerms(T) && InStore(T, start) && Frontier(T, start, rest + [p], done)
    ensures p < |T|
    ensures Frontier(T, start, rest + if IsBooleanOperator(T[p].symb) then T[p].args else [], done + {p})
  {
    var work := rest + [p];
    assert work[|rest|] == p && forall i | 0 <= i < |rest| :: rest[i] == work[i];
    assert WfTerm(T, p);
    var args := if IsBooleanOperator(T[p].symb) then T[p].args else [];
    var work' := rest + args;
    forall i | 0 <= i < |work'|
      ensures work'[i] < |T| && HasSortBool(T, work'[i]) && ReachedFrom(T, start, work'[i])
    {
      if i >= |rest| {
        ReachedArg(T, start, p, work'[i]);
      }
    }
    assert forall a :: a in work <==> a in rest || a == p;
    assert forall a :: a in work' <==> a in rest || a in args;
  }

  lemma FrontierDone(T: seq<Pterm>, start: seq<PTRef>, done: set<PTRef>, formula: OptRef)
    requires WfTerms(T) && InStore(T, start) && Frontier(T, start, [], done)
    ensures forall tau: Valuation :: DefMeanings(T, tau, done, formula) == Declared(T, tau, start, formula)
  {
    forall x: PTRef | x < |T| && ReachedFrom(T, start, x) ensures x in done {
      var i :| 0 <= i < |start| && BoolBelow(T, start[i], x);
      ClosedUnderArgs(T, done, start[i], x);
    }
  }

  /** The definitional encoding is faithful in both directions.  The unit clause is the value
      of the whole formula; for a disjunction the clause over its arguments takes its place. */
  lemma EncodingIsFaithful(T: seq<Pterm>, f: PTRef)
    requires WfTerms(T) && f < |T| && HasSortBool(T, f)
    ensures forall tau: Valuation | ConstantsOk(tau) && Declared(T, tau, [f], SomeRef(f)) ::
      (T[f].symb.Or? || TermVal(T, tau, f)) ==> PropEval(T, tau, f)
    ensures forall tau: Valuation | ConstantsOk(tau) && AllConsistent(T, tau) && PropEval(T, tau, f) ::
      Declared(T, tau, [f], SomeRef(f)) && (T[f].symb.Or? || TermVal(T, tau, f))
  {
    assert WfTerm(T, f) && BoolBelow(T, f, f);
    forall tau: Valuation | ConstantsOk(tau) && Declared(T, tau, [f], SomeRef(f)) && (T[f].symb.Or? || TermVal(T, tau, f))
      ensures PropEval(T, tau, f)
    {
      FaithfulSound(T, tau, f);
    }
    forall tau: Valuation | ConstantsOk(tau) && AllConsistent(T, tau) && PropEval(T, tau, f)
      ensures Declared(T, tau, [f], SomeRef(f)) && (T[f].symb.Or? || TermVal(T, tau, f))
    {
      DefinitionsDetermine(T, tau, f);
      if T[f].symb.Or? {
        var a :| a in T[f].args && PropEval(T, tau, a);
        DefinitionsDetermine(T, tau, a);
      }
    }
  }

  lemma FaithfulSound(T: seq<Pterm>, tau: Valuation, f: PTRef)
    requires WfTerms(T) && f < |T| && HasSortBool(T, f) && ConstantsOk(tau)
    requires Declared(T, tau, [f], SomeRef(f)) && (T[f].symb.Or? || TermVal(T, tau, f))
    ensures PropEval(T, tau, f)
  {
    var start := [f];
    assert WfTerm(T, f) && BoolBelow(T, f, f) && start[0] == f;
    assert DefMeaning(T, tau, f, SomeRef(f));
    if T[f].symb.Or? {
      var a :| a in T[f].args && TermVal(T, tau, a);
      forall x: PTRef | x < |T| && BoolBelow(T, a, x) ensures Consistent(T, tau, x) {
        assert BoolBelow(T, start[0], x);
        BoolBelowIsOlder(T, a, x);
        assert DefMeaning(T, tau, x, SomeRef(f));
      }
      DefinitionsDetermine(T, tau, a);
    } else {
      forall x: PTRef | x < |T| && BoolBelow(T, f, x) ensures Consistent(T, tau, x) {
        assert BoolBelow(T, start[0], x);
        assert DefMeaning(T, tau, x, SomeRef(f));
      }
      DefinitionsDetermine(T, tau, f);
    }
  }

  lemma {:induction false} BoolBelowIsOlder(T: seq<Pterm>, r: PTRef, x: PTRef)
    requires WfTerms(T) && r < |T| && BoolBelow(T, r, x)
    ensures x <= r
    decreases r
  {
    assert WfTerm(T, r);
    if x != r {
      var a :| a in T[r].args && BoolBelow(T, a, x);
      BoolBelowIsOlder(T, a, x);
    }
  }

  function Signed(args: seq<PTRef>, sgn: bool): seq<PtAsgn> {
    seq(|args|, i requires 0 <= i < |args| => PtAsgn(args[i], sgn))
  }

  lemma SignedMeaning(T: seq<Pterm>, args: seq<PTRef>, sgn: bool)
    requires WfTerms(T) && InStore(T, args)
    ensures forall tau: Valuation ::
      SomeAsgnVal(T, tau, Signed(args, sgn)) == exists a | a in args :: TermVal(T, tau, a) == sgn
  {
    forall tau: Valuation
      ensures SomeAsgnVal(T, tau, Signed(args, sgn)) == exists a | a in args :: TermVal(T, tau, a) == sgn
    {
      if a :| a in args && TermVal(T, tau, a) == sgn {
        var i :| 0 <= i < |args| && args[i] == a;
        assert Signed(args, sgn)[i] == PtAsgn(a, sgn);
      }
      if SomeAsgnVal(T, tau, Signed(args, sgn)) {
        var i :| 0 <= i < |args| && TermVal(T, tau, Signed(args, sgn)[i].tr) == Signed(args, sgn)[i].sgn;
        assert args[i] in args;
      }
    }
  }

  lemma SomeAsgnValCons(T: seq<Pterm>, tau: Valuation, p: PtAsgn, c: seq<PtAsgn>)
    requires WfTerms(T) && p.tr < |T| && forall i | 0 <= i < |c| :: c[i].tr < |T|
    ensures SomeAsgnVal(T, tau, [p] + c) == (TermVal(T, tau, p.tr) == p.sgn || SomeAsgnVal(T, tau, c))
  {
    assert ([p] + c)[0] == p;
    assert forall i | 0 <= i < |c| :: ([p] + c)[i + 1] == c[i];
  }

  /** The two-literal clauses of a conjunction (def false) or of a disjunction (def true). */
  ghost predicate LittleClauses(T: seq<Pterm>, tau: Valuation, p: PTRef, args: seq<PTRef>, isOr: bool)
    requires WfTerms(T) && InStore(T, args)
  {
    (p in tau) == isOr || forall a | a in args :: TermVal(T, tau, a) != isOr
  }

  lemma LittleStep(T: seq<Pterm>, p: PTRef, args: seq<PTRef>, i: nat, isOr: bool)
    requires WfTerms(T) && InStore(T, args) && i < |args| && p < |T| && !T[p].symb.Not?
    ensures forall tau: Valuation ::
      LittleClauses(T, tau, p, args[..i + 1], isOr) == (LittleClauses(T, tau, p, args[..i], isOr) && SomeAsgnVal(T, tau, [PtAsgn(p, isOr), PtAsgn(args[i], !isOr)]))
    ensures Signed(args[..i + 1], isOr) == Signed(args[..i], isOr) + [PtAsgn(args[i], isOr)]
  {
    assert args[..i + 1] == args[..i] + [args[i]];
    var c := [PtAsgn(p, isOr), PtAsgn(args[i], !isOr)];
    forall tau: Valuation
      ensures LittleClauses(T, tau, p, args[..i + 1], isOr) == (LittleClauses(T, tau, p, args[..i], isOr) && SomeAsgnVal(T, tau, c))
    {
      assert c[0].tr == p && c[1].tr == args[i];
      assert TermVal(T, tau, p) == (p in tau);
      assert SomeAsgnVal(T, tau, c) == ((p in tau) == isOr || TermVal(T, tau, args[i]) != isOr);
    }
  }

  lemma AndDefinition(T: seq<Pterm>, p: PTRef)
    requires WfTerms(T) && p < |T| && T[p].symb.And?
    ensures InStore(T, T[p].args)
    ensures forall tau: Valuation ::
      Consistent(T, tau, p) == (LittleClauses(T, tau, p, T[p].args, false) && SomeAsgnVal(T, tau, [PtAsgn(p, true)] + Signed(T[p].args, false)))
  {
    assert WfTerm(T, p);
    SignedMeaning(T, T[p].args, false);
    forall tau: Valuation
      ensures Consistent(T, tau, p)
        == (LittleClauses(T, tau, p, T[p].args, false) && SomeAsgnVal(T, tau, [PtAsgn(p, true)] + Signed(T[p].args, false)))
    {
      SomeAsgnValCons(T, tau, PtAsgn(p, true), Signed(T[p].args, false));
    }
  }

  lemma OrDefinition(T: seq<Pterm>, p: PTRef)
    requires WfTerms(T) && p < |T| && T[p].symb.Or?
    ensures InStore(T, T[p].args)
    ensures forall tau: Valuation ::
      Consistent(T, tau, p) == (LittleClauses(T, tau, p, T[p].args, true) && SomeAsgnVal(T, tau, [PtAsgn(p, false)] + Signed(T[p].args, true)))
  {
    assert WfTerm(T, p);
    SignedMeaning(T, T[p].args, true);
    forall tau: Valuation
      ensures Consistent(T, tau, p)
        == (LittleClauses(T, tau, p, T[p].args, true) && SomeAsgnVal(T, tau, [PtAsgn(p, false)] + Signed(T[p].args, true)))
    {
      SomeAsgnValCons(T, tau, PtAsgn(p, false), Signed(T[p].args, true));
    }
  }

  /** The meaning of a clause over three terms, for all polarities. */
  lemma Ternary(T: seq<Pterm>, p: PTRef, a: PTRef, b: PTRef)
    requires WfTerms(T) && p < |T| && a < |T| && b < |T| && !T[p].symb.Not?
    ensures forall tau: Valuation, s: bool, t: bool, u: bool ::
      SomeAsgnVal(T, tau, [PtAsgn(p, s), PtAsgn(a, t), PtAsgn(b, u)])
        == ((p in tau) == s || TermVal(T, tau, a) == t || TermVal(T, tau, b) == u)
  {
    forall tau: Valuation, s: bool, t: bool, u: bool
      ensures SomeAsgnVal(T, tau, [PtAsgn(p, s), PtAsgn(a, t), PtAsgn(b, u)])
        == ((p in tau) == s || TermVal(T, tau, a) == t || TermVal(T, tau, b) == u)
    {
      var c := [PtAsgn(p, s), PtAsgn(a, t), PtAsgn(b, u)];
      assert c[0].tr == p && c[1].tr == a && c[2].tr == b;
      assert TermVal(T, tau, p) == (p in tau);
    }
  }

  lemma IteDefinition(T: seq<Pterm>, p: PTRef)
    requires WfTerms(T) && p < |T| && T[p].symb.Ite?
    ensures |T[p].args| == 3 && InStore(T, T[p].args)
    ensures var a0, a1, a2 := T[p].args[0], T[p].args[1], T[p].args[2];
      forall tau: Valuation :: Consistent(T, tau, p) ==
        (SomeAsgnVal(T, tau, [PtAsgn(p, false), PtAsgn(a0, false), PtAsgn(a1, true)])
         && SomeAsgnVal(T, tau, [PtAsgn(p, false), PtAsgn(a0, true), PtAsgn(a2, true)])
         && SomeAsgnVal(T, tau, [PtAsgn(p, true), PtAsgn(a0, false), PtAsgn(a1, false)])
         && SomeAsgnVal(T, tau, [PtAsgn(p, true), PtAsgn(a0, true), PtAsgn(a2, false)]))
  {
    assert WfTerm(T, p);
    Ternary(T, p, T[p].args[0], T[p].args[1]);
    Ternary(T, p, T[p].args[0], T[p].args[2]);
  }

  lemma Binary(T: seq<Pterm>, p: PTRef, a: PTRef)
    requires WfTerms(T) && p < |T| && a < |T| && !T[p].symb.Not?
    ensures forall tau: Valuation, s: bool, t: bool ::
      SomeAsgnVal(T, tau, [PtAsgn(p, s), PtAsgn(a, t)]) == ((p in tau) == s || TermVal(T, tau, a) == t)
  {
    forall tau: Valuation, s: bool, t: bool
      ensures SomeAsgnVal(T, tau, [PtAsgn(p, s), PtAsgn(a, t)]) == ((p in tau) == s || TermVal(T, tau, a) == t)
    {
      var c := [PtAsgn(p, s), PtAsgn(a, t)];
      assert c[0].tr == p && c[1].tr == a;
      assert TermVal(T, tau, p) == (p in tau);
    }
  }
}
