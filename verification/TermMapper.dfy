/** SAT literals for Boolean terms, and the SAT solver as an oracle. */
module TermMapping {
  import opened Terms

  datatype Lit = Lit(v: nat, sgn: bool)      // sgn: the literal is negated

  type Clause = seq<Lit>

  function Neg(l: Lit): Lit {
    Lit(l.v, !l.sgn)
  }

  /** The value of a literal when every variable v stands for the term vt[v]. */
  ghost predicate LitVal(vt: seq<PTRef>, tau: Valuation, l: Lit)
    requires l.v < |vt|
  {
    (vt[l.v] in tau) != l.sgn
  }

  predicate ClauseOk(vt: seq<PTRef>, c: Clause) {
    forall i | 0 <= i < |c| :: c[i].v < |vt|
  }

  ghost predicate ClauseTrue(vt: seq<PTRef>, tau: Valuation, c: Clause)
    requires ClauseOk(vt, c)
  {
    exists l | l in c :: LitVal(vt, tau, l)
  }

  predicate ClausesOk(vt: seq<PTRef>, cs: seq<Clause>) {
    forall i | 0 <= i < |cs| :: ClauseOk(vt, cs[i])
  }

  ghost predicate Models(vt: seq<PTRef>, tau: Valuation, cs: seq<Clause>)
    requires ClausesOk(vt, cs)
  {
    forall i | 0 <= i < |cs| :: ClauseTrue(vt, tau, cs[i])
  }

  lemma ClauseTruePrefix(vt: seq<PTRef>, vt': seq<PTRef>, tau: Valuation, c: Clause)
    requires vt <= vt' && ClauseOk(vt, c)
    ensures ClauseOk(vt', c) && ClauseTrue(vt', tau, c) == ClauseTrue(vt, tau, c)
  {
    forall l | l in c ensures LitVal(vt', tau, l) == LitVal(vt, tau, l) {
    }
  }

  lemma ClauseTrueAppend(vt: seq<PTRef>, tau: Valuation, c: Clause, l: Lit)
    requires ClauseOk(vt, c) && l.v < |vt|
    ensures ClauseOk(vt, c + [l])
    ensures ClauseTrue(vt, tau, c + [l]) == (ClauseTrue(vt, tau, c) || LitVal(vt, tau, l))
  {
    assert forall k :: k in c + [l] <==> k in c || k == l;
  }

  lemma ModelsPrefix(vt: seq<PTRef>, vt': seq<PTRef>, tau: Valuation, cs: seq<Clause>)
    requires vt <= vt' && ClausesOk(vt, cs)
    ensures ClausesOk(vt', cs) && Models(vt', tau, cs) == Models(vt, tau, cs)
  {
    forall i | 0 <= i < |cs|
      ensures ClauseOk(vt', cs[i]) && ClauseTrue(vt', tau, cs[i]) == ClauseTrue(vt, tau, cs[i])
    {
      ClauseTruePrefix(vt, vt', tau, cs[i]);
    }
  }

  // ----- assignments of the SAT solver itself -----

  ghost predicate SatClause(sigma: iset<nat>, c: Clause) {
    exists l | l in c :: (l.v in sigma) != l.sgn
  }

  ghost predicate Sat(sigma: iset<nat>, cs: seq<Clause>, assumps: seq<Lit>) {
    && (forall i | 0 <= i < |cs| :: SatClause(sigma, cs[i]))
    && (forall i | 0 <= i < |assumps| :: (assumps[i].v in sigma) != assumps[i].sgn)
  }

  ghost predicate Satisfiable(cs: seq<Clause>, assumps: seq<Lit>) {
    exists sigma: iset<nat> :: Sat(sigma, cs, assumps)
  }

  /** Strips the negations of a term; the flag says whether their number is odd. */
  function Purify(T: seq<Pterm>, r: PTRef): (PTRef, bool)
    requires WfTerms(T) && r < |T|
    decreases r
  {
    assert WfTerm(T, r);
    if T[r].symb.Not? then
      var (p, sgn) := Purify(T, T[r].args[0]);
      (p, !sgn)
    else (r, false)
  }

  /** The value of a term under an assignment of all non-negated terms. */
  ghost predicate TermVal(T: seq<Pterm>, tau: Valuation, r: PTRef)
    requires WfTerms(T) && r < |T|
    decreases r
  {
    assert WfTerm(T, r);
    if T[r].symb.Not? then !TermVal(T, tau, T[r].args[0]) else (r in tau)
  }

  lemma {:induction false} PurifyVal(T: seq<Pterm>, r: PTRef)
    requires WfTerms(T) && r < |T| && HasSortBool(T, r)
    ensures var (p, sgn) := Purify(T, r);
      && p <= r && HasSortBool(T, p) && !T[p].symb.Not?
      && forall tau: Valuation :: TermVal(T, tau, r) == ((p in tau) != sgn)
    decreases r
  {
    assert WfTerm(T, r);
    if T[r].symb.Not? {
      PurifyVal(T, T[r].args[0]);
    }
  }

  lemma {:induction false} TermValPrefix(T: seq<Pterm>, T': seq<Pterm>, tau: Valuation, r: PTRef)
    requires WfTerms(T) && WfTerms(T') && T <= T' && r < |T|
    ensures TermVal(T', tau, r) == TermVal(T, tau, r)
    decreases r
  {
    assert WfTerm(T, r) && T'[r] == T[r];
    if T[r].symb.Not? {
      TermValPrefix(T, T', tau, T[r].args[0]);
    }
  }

  /** Binds one SAT variable to every purified term that was given to the solver. */
  class TermMapper {
    var varToTerm: seq<PTRef>
    var termToVar: map<PTRef, nat>

    ghost predicate Valid(T: seq<Pterm>)
      reads this
    {
      && (forall v | 0 <= v < |varToTerm| :: varToTerm[v] in termToVar && termToVar[varToTerm[v]] == v)
      && (forall t | t in termToVar ::
            && t < |T| && HasSortBool(T, t) && !T[t].symb.Not?
            && termToVar[t] < |varToTerm| && varToTerm[termToVar[t]] == t)
    }

    constructor ()
      ensures varToTerm == [] && termToVar == map[]
    {
      varToTerm, termToVar := [], map[];
    }

    method GetTerm(T: seq<Pterm>, r: PTRef) returns (p: PTRef, sgn: bool)
      requires WfTerms(T) && r < |T|
      ensures (p, sgn) == Purify(T, r)
    {
      p, sgn := r, false;
      while T[p].symb.Not?
        invariant p < |T|
        invariant Purify(T, r) == (var (q, s) := Purify(T, p); (q, s != sgn))
        decreases p
      {
        assert WfTerm(T, p);
        p := T[p].args[0];
        sgn := !sgn;
      }
    }

    /** Creates the variable of a purified term unless it has one. */
    method AddBinding(ghost T: seq<Pterm>, t: PTRef) returns (v: nat)
      requires Valid(T) && t < |T| && HasSortBool(T, t) && !T[t].symb.Not?
      modifies this
      ensures Valid(T) && old(varToTerm) <= varToTerm
      ensures v < |varToTerm| && varToTerm[v] == t
      ensures t in old(termToVar) ==> varToTerm == old(varToTerm) && termToVar == old(termToVar)
    {
      if t in termToVar {
        v := termToVar[t];
      } else {
        v := |varToTerm|;
        termToVar := termToVar[t := v];
        varToTerm := varToTerm + [t];
      }
    }

    /** The literal of a term.  Its value is the value of the term, so that a term and its
        negation get complementary literals. */
    method GetOrCreateLit(T: seq<Pterm>, r: PTRef) returns (l: Lit)
      requires WfTerms(T) && Valid(T) && r < |T| && HasSortBool(T, r)
      modifies this
      ensures Valid(T) && old(varToTerm) <= varToTerm
      ensures l.v < |varToTerm| && Purify(T, r) == (varToTerm[l.v], l.sgn)
      ensures forall tau: Valuation :: LitVal(varToTerm, tau, l) == TermVal(T, tau, r)
    {
      PurifyVal(T, r);
      var p, sgn := GetTerm(T, r);
      var v := AddBinding(T, p);
      l := Lit(v, sgn);
    }
  }

  /** One-to-one: two terms have the same literal exactly when they are the same atom or
      definition under the same polarity, and complementary literals exactly when they are
      the same one under opposite polarities. */
  lemma LiteralsAreFaithful(m: TermMapper, T: seq<Pterm>, r: PTRef, s: PTRef, l: Lit, k: Lit)
    requires WfTerms(T) && m.Valid(T) && r < |T| && s < |T|
    requires l.v < |m.varToTerm| && k.v < |m.varToTerm|
    requires Purify(T, r) == (m.varToTerm[l.v], l.sgn) && Purify(T, s) == (m.varToTerm[k.v], k.sgn)
    ensures l == k <==> Purify(T, r) == Purify(T, s)
    ensures l == Neg(k) <==> Purify(T, r) == (Purify(T, s).0, !Purify(T, s).1)
  {
    assert m.termToVar[m.varToTerm[l.v]] == l.v;
    assert m.termToVar[m.varToTerm[k.v]] == k.v;
  }

  /** The SAT solver.  Conflict detection while clauses are added and the final search are
      oracles: the first is sound, the second exact. */
  class SimpSMTSolver {
    var clauses: seq<Clause>
    var ok: bool
    const detectsConflict: seq<Clause> -> bool
    const search: (seq<Clause>, seq<Lit>) -> bool

    ghost predicate Valid()
      reads this
    {
      && (forall cs :: detectsConflict(cs) ==> !Satisfiable(cs, []))
      && (forall cs, assumps :: search(cs, assumps) <==> Satisfiable(cs, assumps))
      && (!ok ==> !Satisfiable(clauses, []))
    }

    constructor (detectsConflict: seq<Clause> -> bool, search: (seq<Clause>, seq<Lit>) -> bool)
      requires forall cs :: detectsConflict(cs) ==> !Satisfiable(cs, [])
      requires forall cs, assumps :: search(cs, assumps) <==> Satisfiable(cs, assumps)
      ensures Valid() && clauses == [] && ok
    {
      this.detectsConflict, this.search := detectsConflict, search;
      clauses, ok := [], true;
    }

    /** Once a conflict at decision level 0 is known, further clauses are refused. */
    method AddOriginalSMTClause(c: Clause) returns (res: bool)
      requires Valid()
      modifies this
      ensures Valid() && res == ok && (ok ==> old(ok))
      ensures clauses == if old(ok) then old(clauses) + [c] else old(clauses)
    {
      if !ok {
        return false;
      }
      clauses := clauses + [c];
      if detectsConflict(clauses) {
        ok := false;
      }
      res := ok;
    }

    method Solve(assumps: seq<Lit>) returns (sat: bool)
      requires Valid()
      ensures sat <==> Satisfiable(clauses, assumps)
    {
      sat := search(clauses, assumps);
    }
  }

  /** Assignments of variables and assignments of the terms they stand for are the same thing. */
  lemma {:induction false} TermAssignmentIsSat(vt: seq<PTRef>, tau: Valuation, cs: seq<Clause>, assumps: seq<Lit>)
    requires ClausesOk(vt, cs) && ClauseOk(vt, assumps)
    requires Models(vt, tau, cs) && forall i | 0 <= i < |assumps| :: LitVal(vt, tau, assumps[i])
    ensures Satisfiable(cs, assumps)
  {
    var sigma := iset v: nat | v < |vt| && vt[v] in tau;
    forall i | 0 <= i < |cs| ensures SatClause(sigma, cs[i]) {
      assert ClauseTrue(vt, tau, cs[i]);
      var l :| l in cs[i] && LitVal(vt, tau, l);
    }
    assert Sat(sigma, cs, assumps);
  }

  lemma {:induction false} SatIsTermAssignment(m: TermMapper, T: seq<Pterm>, cs: seq<Clause>, assumps: seq<Lit>)
    returns (tau: Valuation)
    requires m.Valid(T) && ClausesOk(m.varToTerm, cs) && ClauseOk(m.varToTerm, assumps)
    requires Satisfiable(cs, assumps)
    ensures Models(m.varToTerm, tau, cs)
    ensures forall i | 0 <= i < |assumps| :: LitVal(m.varToTerm, tau, assumps[i])
  {
    var sigma: iset<nat> :| Sat(sigma, cs, assumps);
    var toVar := m.termToVar;
    tau := iset t: PTRef | t in toVar && toVar[t] in sigma;
    forall i | 0 <= i < |cs| ensures ClauseTrue(m.varToTerm, tau, cs[i]) {
      assert SatClause(sigma, cs[i]);
      var l :| l in cs[i] && (l.v in sigma) != l.sgn;
      assert LitVal(m.varToTerm, tau, l);
    }
  }
}
