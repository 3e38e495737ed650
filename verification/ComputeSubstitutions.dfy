/** Simplifying a formula by the substitutions that its own top level states. */
module ComputingSubstitutions {
  import opened Terms
  import opened Semantics
  import opened LogicStore
  import opened SubstLoops
  import opened Substitution
  import opened SubstitutionClosure
  import opened TopLevelFacts
  import opened SubstitutionRetrieval
  import opened SolvedModels
  import opened SubstitutionRounds

  /** The root has the value of f wherever the substitutions found so far are solved, and the models of f solve them. */
  ghost predicate Simplified(T0: seq<Pterm>, f: PTRef, T: seq<Pterm>, root: PTRef, found: seq<Substs>)
    requires WfTerms(T0) && f < |T0| && WfTerms(T)
  {
    && T0 <= T && root < |T| && HasSortBool(T, root) && (forall i | 0 <= i < |found| :: SubstsOk(T, found[i]))
    && (forall M: Interp | AllSolved(T, M, found) :: Eval(T, M, root) == Eval(T0, M, f))
    && (forall M: Interp | Eval(T0, M, f) == TT :: AllSolved(T, M, found))
  }

  ghost predicate HasModel(T: seq<Pterm>, r: PTRef)
    requires WfTerms(T) && r < |T|
  {
    exists M: Interp :: Eval(T, M, r) == TT
  }

  ghost predicate Implied(T0: seq<Pterm>, f: PTRef, T: seq<Pterm>, p: PtAsgn)
    requires WfTerms(T0) && f < |T0| && WfTerms(T)
  {
    UnitOk(T, p) && forall M: Interp | Eval(T0, M, f) == TT :: AsgnHolds(T, M, p)
  }

  ghost predicate AllImplied(T0: seq<Pterm>, f: PTRef, T: seq<Pterm>, ps: seq<PtAsgn>)
    requires WfTerms(T0) && f < |T0| && WfTerms(T)
  {
    forall i | 0 <= i < |ps| :: Implied(T0, f, T, ps[i])
  }

  ghost predicate UnitsImplied(T0: seq<Pterm>, f: PTRef, T: seq<Pterm>, units: Units)
    requires WfTerms(T0) && f < |T0| && WfTerms(T)
  {
    forall t | t in units :: Implied(T0, f, T, PtAsgn(t, units[t]))
  }

  /** Every remembered entry is the entry of some round, and every key of a round is remembered. */
  ghost predicate Remembers(found: seq<Substs>, all: Substs) {
    && (forall k | k in all :: exists i | 0 <= i < |found| :: k in found[i] && found[i][k] == all[k])
    && (forall i, k | 0 <= i < |found| && k in found[i] :: k in all)
  }

  ghost function Vars(T: seq<Pterm>, r: PTRef): set<PTRef>
    requires WfTerms(T) && r < |T|
  {
    set v: PTRef | v < |T| && Occurs(T, r, v)
  }

  // ----- what the store keeps while it grows -----

  lemma ImpliedGrows(T0: seq<Pterm>, f: PTRef, T: seq<Pterm>, T': seq<Pterm>, p: PtAsgn)
    requires WfTerms(T0) && f < |T0| && WfTerms(T) && WfTerms(T') && T <= T' && Implied(T0, f, T, p)
    ensures Implied(T0, f, T', p)
  {
    forall M: Interp | Eval(T0, M, f) == TT ensures AsgnHolds(T', M, p) {
      EvalPrefix(T, T', M, p.tr);
    }
  }

  lemma AllImpliedGrow(T0: seq<Pterm>, f: PTRef, T: seq<Pterm>, T': seq<Pterm>, ps: seq<PtAsgn>, units: Units)
    requires WfTerms(T0) && f < |T0| && WfTerms(T) && WfTerms(T') && T <= T'
    ensures AllImplied(T0, f, T, ps) ==> AllImplied(T0, f, T', ps)
    ensures UnitsImplied(T0, f, T, units) ==> UnitsImplied(T0, f, T', units)
  {
    hide Implied;
    if AllImplied(T0, f, T, ps) {
      forall i | 0 <= i < |ps| ensures Implied(T0, f, T', ps[i]) {
        ImpliedGrows(T0, f, T, T', ps[i]);
      }
    }
    if UnitsImplied(T0, f, T, units) {
      forall t | t in units ensures Implied(T0, f, T', PtAsgn(t, units[t])) {
        ImpliedGrows(T0, f, T, T', PtAsgn(t, units[t]));
      }
    }
  }

  lemma SimplifiedGrows(T0: seq<Pterm>, f: PTRef, T: seq<Pterm>, T': seq<Pterm>, root: PTRef, found: seq<Substs>)
    requires WfTerms(T0) && f < |T0| && WfTerms(T) && WfTerms(T') && T <= T' && Simplified(T0, f, T, root, found)
    ensures Simplified(T0, f, T', root, found) && Vars(T', root) == Vars(T, root)
  {
    hide Solves, SubstsOk, Occurs;
    forall i | 0 <= i < |found| ensures SubstsOk(T', found[i]) && forall M: Interp :: Solves(T', M, found[i]) == Solves(T, M, found[i]) {
      StoreGrows(T, T', found[i]);
    }
    forall M: Interp ensures AllSolved(T', M, found) == AllSolved(T, M, found) && Eval(T', M, root) == Eval(T, M, root) {
      EvalPrefix(T, T', M, root);
    }
    forall v: PTRef ensures Occurs(T', root, v) == Occurs(T, root, v) {
      OccursPrefix(T, T', root, v);
    }
    forall v: PTRef | Occurs(T, root, v) ensures v < |T| {
      BelowIsOlder(T, root, v) by { assert Below(T, root, v) by { OccursBelow(T, root, v); } }
    }
  }

  lemma OccursBelow(T: seq<Pterm>, r: PTRef, v: PTRef)
    requires WfTerms(T) && r < |T| && Occurs(T, r, v)
    ensures Below(T, r, v) && v < |T|
  {
  }

  // ----- one round -----

  /** Facts of the root are implied by f. */
  lemma RootFacts(T0: seq<Pterm>, f: PTRef, T: seq<Pterm>, root: PTRef, found: seq<Substs>, T': seq<Pterm>, facts: Units)
    requires WfTerms(T0) && f < |T0| && WfTerms(T) && WfTerms(T') && Simplified(T0, f, T, root, found)
    requires UnitsOk(T', facts) && forall t | t in facts :: FactOf(T, root, T', PtAsgn(t, facts[t]))
    ensures UnitsImplied(T0, f, T', facts)
  {
    forall t | t in facts ensures Implied(T0, f, T', PtAsgn(t, facts[t])) {
      assert FactOf(T, root, T', PtAsgn(t, facts[t]));
      forall M: Interp | Eval(T0, M, f) == TT ensures Eval(T, M, root) == TT {
        assert AllSolved(T, M, found);
      }
    }
  }

  /** Substituting what f implies keeps the value of the root. */
  lemma RoundKeeps(T0: seq<Pterm>, f: PTRef, T: seq<Pterm>, root: PTRef, found: seq<Substs>, S: Substs, T': seq<Pterm>, newRoot: PTRef)
    requires WfTerms(T0) && f < |T0| && WfTerms(T) && WfTerms(T') && T <= T' && Simplified(T0, f, T, root, found)
    requires SubstsOk(T, S) && SortsOk(T, S) && forall M: Interp | Eval(T0, M, f) == TT :: Solves(T, M, S)
    requires Rewritten(T, S, T', root, newRoot)
    ensures Simplified(T0, f, T', newRoot, found + [S])
  {
    SimplifiedGrows(T0, f, T, T', root, found);
    SubstitutedMeaning(T, S, T', root, newRoot);
    StoreGrows(T, T', S);
    var found' := found + [S];
    assert HasSortBool(T', newRoot) by { RewrittenSort(T, S, T', root, newRoot); }
    hide Solves, SubstsOk, Rewritten;
    forall i | 0 <= i < |found'| ensures SubstsOk(T', found'[i]) {
      assert i < |found| ==> found'[i] == found[i];
    }
    forall M: Interp ensures AllSolved(T', M, found') <==> AllSolved(T', M, found) && Solves(T', M, S) {
      AllSolvedMore(T', M, found, S);
    }
    forall M: Interp | AllSolved(T', M, found') ensures Eval(T', M, newRoot) == Eval(T0, M, f) {
      assert Solves(T', M, S);
      EvalPrefix(T, T', M, root);
    }
    forall M: Interp | Eval(T0, M, f) == TT ensures AllSolved(T', M, found') {
      assert Solves(T, M, S);
    }
  }

  lemma RewrittenSort(T: seq<Pterm>, S: Substs, T': seq<Pterm>, x: PTRef, r: PTRef)
    requires WfTerms(T) && SubstsOk(T, S) && SortsOk(T, S) && WfTerms(T') && T <= T' && x < |T| && Rewritten(T, S, T', x, r)
    ensures r < |T'| && HasSortBool(T', r) == HasSortBool(T, x)
  {
  }

  lemma AllSolvedMore(T: seq<Pterm>, M: Interp, found: seq<Substs>, S: Substs)
    requires WfTerms(T) && SubstsOk(T, S) && forall i | 0 <= i < |found| :: SubstsOk(T, found[i])
    ensures forall i | 0 <= i < |found + [S]| :: SubstsOk(T, (found + [S])[i])
    ensures AllSolved(T, M, found + [S]) <==> AllSolved(T, M, found) && Solves(T, M, S)
  {
    hide Solves;
    var found' := found + [S];
    assert found'[|found|] == S;
    forall i | 0 <= i < |found| ensures found'[i] == found[i] {
    }
    if AllSolved(T, M, found') {
      assert Solves(T, M, found'[|found|]);
      forall i | 0 <= i < |found| ensures Solves(T, M, found[i]) {
        assert Solves(T, M, found'[i]);
      }
    }
  }

  /** A round that changes the root removes a variable, when the variables of the substitutions are those of the root. */
  lemma RoundRemovesVariable(T: seq<Pterm>, S: Substs, T': seq<Pterm>, root: PTRef, newRoot: PTRef)
    requires WfTerms(T) && SubstsOk(T, S) && SortsOk(T, S) && WfTerms(T') && T <= T' && root < |T|
    requires Rewritten(T, S, T', root, newRoot) && Touched(T, S, root) && Idempotent(T, S)
    requires forall k: PTRef, v: PTRef | DependsOn(T, S, k, v) :: Occurs(T, root, v)
    ensures Vars(T', newRoot) < Vars(T, root)
  {
    SubstitutedMeaning(T, S, T', root, newRoot);
    forall v | v in Vars(T', newRoot) ensures v in Vars(T, root) {
      assert VarAfter(T, S, root, v);
    }
    var k: PTRef :| Occurs(T, root, k) && Moves(S, k);
    assert k in Enabled(S) && k in Vars(T, root) && k !in Vars(T', newRoot);
  }

  // ----- the lists of facts -----

  /** The entries of the map in some order. */
  method UnitList(units: Units) returns (ps: seq<PtAsgn>)
    ensures forall p :: p in ps <==> p.tr in units && units[p.tr] == p.sgn
  {
    ps := [];
    var left := units.Keys;
    while left != {}
      invariant left <= units.Keys && forall p :: p in ps <==> p.tr in units && p.tr !in left && units[p.tr] == p.sgn
    {
      var k :| k in left;
      left := left - {k};
      ps := ps + [PtAsgn(k, units[k])];
    }
  }

  /** The entries of all maps. */
  method UnitLists(prev: seq<Units>) returns (ps: seq<PtAsgn>)
    ensures forall p :: p in ps <==> exists j | 0 <= j < |prev| :: p.tr in prev[j] && prev[j][p.tr] == p.sgn
  {
    ps := [];
    for i := 0 to |prev|
      invariant forall p :: p in ps <==> exists j | 0 <= j < i :: p.tr in prev[j] && prev[j][p.tr] == p.sgn
    {
      var tmp := UnitList(prev[i]);
      ps := ps + tmp;
    }
  }

  /** Adds the units that the frame does not have. */
  method AddUnits(newUnits: Units, units: Units, current: seq<PtAsgn>) returns (units': Units, current': seq<PtAsgn>)
    ensures units' == newUnits + units
    ensures forall p :: p in current' <==> p in current || (p.tr in newUnits && p.tr !in units && newUnits[p.tr] == p.sgn)
  {
    var ps := UnitList(newUnits);
    units', current' := units, current;
    for i := 0 to |ps|
      invariant units.Keys <= units'.Keys <= units.Keys + newUnits.Keys
      invariant forall t | t in units' :: units'[t] == if t in units then units[t] else newUnits[t]
      invariant forall j | 0 <= j < i :: ps[j].tr in units'
      invariant forall p :: p in current' <==> p in current || (p.tr in newUnits && p.tr !in units && newUnits[p.tr] == p.sgn && p.tr in units')
    {
      if ps[i].tr !in units' {
        units' := units'[ps[i].tr := ps[i].sgn];
        current' := current' + [ps[i]];
      }
    }
    forall t | t in newUnits ensures t in units' {
      assert PtAsgn(t, newUnits[t]) in ps;
    }
  }

  predicate PrevConsistent(prev: seq<Units>) {
    forall i, j, t | 0 <= i < |prev| && 0 <= j < |prev| && t in prev[i] && t in prev[j] :: prev[i][t] == prev[j][t]
  }

  /** What a fact list holds: entries of the previous frames, and entries of one more map. */
  predicate Lists(current: seq<PtAsgn>, prev: seq<Units>, facts: Units) {
    forall p | p in current ::
      || (p.tr in facts && facts[p.tr] == p.sgn)
      || (exists j | 0 <= j < |prev| :: p.tr in prev[j] && prev[j][p.tr] == p.sgn)
  }

  lemma ListConsistent(current: seq<PtAsgn>, prev: seq<Units>, facts: Units)
    requires Lists(current, prev, facts) && PrevConsistent(prev) && Agree(prev, facts)
    ensures !Contradictory(current)
  {
    forall i, j | 0 <= i < |current| && 0 <= j < |current| && current[i].tr == current[j].tr ensures current[i].sgn == current[j].sgn {
      assert current[i] in current && current[j] in current;
    }
  }

  lemma ListImplied(T0: seq<Pterm>, f: PTRef, T: seq<Pterm>, current: seq<PtAsgn>, facts: Units, current': seq<PtAsgn>)
    requires WfTerms(T0) && f < |T0| && WfTerms(T) && AllImplied(T0, f, T, current) && UnitsImplied(T0, f, T, facts)
    requires forall p | p in current' :: p in current || (p.tr in facts && facts[p.tr] == p.sgn)
    ensures AllImplied(T0, f, T, current') && FactListOk(T, current')
    ensures forall M: Interp | Eval(T0, M, f) == TT :: AllHold(T, M, current')
  {
    forall i | 0 <= i < |current'| ensures Implied(T0, f, T, current'[i]) {
      var p := current'[i];
      assert p in current';
      if p in current {
        var k :| 0 <= k < |current| && current[k] == p;
      } else {
        assert p == PtAsgn(p.tr, facts[p.tr]);
      }
    }
  }

  /** In later rounds all variables of the substitutions are variables of the root. */
  lemma VarsFromRoot(T: seq<Pterm>, root: PTRef, T': seq<Pterm>, facts: Units, current: seq<PtAsgn>, v: PTRef)
    requires WfTerms(T) && root < |T| && WfTerms(T') && FactListOk(T', current)
    requires forall t | t in facts :: FactOf(T, root, T', PtAsgn(t, facts[t]))
    requires Lists(current, [], facts) && FromFact(T', current, v)
    ensures Occurs(T, root, v)
  {
    hide Occurs;
    var i :| 0 <= i < |current| && Occurs(T', current[i].tr, v);
    assert current[i] in current;
    assert FactOf(T, root, T', PtAsgn(current[i].tr, facts[current[i].tr]));
  }

  lemma RememberMore(found: seq<Substs>, all: Substs, S: Substs)
    requires Remembers(found, all)
    ensures Remembers(found + [S], S + all)
  {
    var found' := found + [S];
    assert found'[|found|] == S && forall i | 0 <= i < |found| :: found'[i] == found[i];
    forall k | k in S + all ensures exists i | 0 <= i < |found'| :: k in found'[i] && found'[i][k] == (S + all)[k] {
      if k in all {
        var i :| 0 <= i < |found| && k in found[i] && found[i][k] == all[k];
        assert k in found'[i] && found'[i][k] == (S + all)[k];
      } else {
        assert k in found'[|found|];
      }
    }
  }

  // ----- the loop -----

  /** What the loop needs of the previous frames: units that f implies and that do not contradict each other. */
  ghost predicate PrevOk(T: seq<Pterm>, f: PTRef, prev: seq<Units>)
    requires WfTerms(T) && f < |T|
  {
    PrevConsistent(prev) && forall j | 0 <= j < |prev| :: UnitsImplied(T, f, T, prev[j])
  }

  /** The substitutions of a round: closed, implied by f, and over variables of the root in later rounds. */
  ghost predicate RoundSubsts(T0: seq<Pterm>, f: PTRef, T: seq<Pterm>, root: PTRef, S: Substs, later: bool)
    requires WfTerms(T0) && f < |T0| && WfTerms(T) && root < |T|
  {
    && SubstsOk(T, S) && SortsOk(T, S) && Idempotent(T, S)
    && (forall M: Interp | Eval(T0, M, f) == TT :: Solves(T, M, S))
    && (later ==> forall k | k in S :: Occurs(T, root, k))
    && (later ==> forall k: PTRef, v: PTRef | DependsOn(T, S, k, v) :: Occurs(T, root, v))
  }

  lemma RoundSubstsOk(T0: seq<Pterm>, f: PTRef, root: PTRef, T: seq<Pterm>, T1: seq<Pterm>, facts: Units, current: seq<PtAsgn>,
                      S1: Substs, T2: seq<Pterm>, S: Substs, later: bool)
    requires WfTerms(T0) && f < |T0| && WfTerms(T) && root < |T| && WfTerms(T1) && WfTerms(T2) && T <= T1 <= T2
    requires forall t | t in facts :: FactOf(T, root, T1, PtAsgn(t, facts[t]))
    requires FactListOk(T1, current) && (later ==> Lists(current, [], facts))
    requires forall M: Interp | Eval(T0, M, f) == TT :: AllHold(T1, M, current)
    requires SubstsOk(T1, S1) && forall M: Interp | AllHold(T1, M, current) :: Solves(T1, M, S1)
    requires forall k: PTRef, v: PTRef | DependsOn(T1, S1, k, v) :: FromFact(T1, current, v)
    requires S.Keys == S1.Keys && forall k | k in S1 :: FromFact(T1, current, k)
    requires SubstsOk(T2, S) && SortsOk(T2, S) && Idempotent(T2, S)
    requires forall M: Interp :: Solves(T2, M, S) == Solves(T1, M, S1)
    requires forall k: PTRef, v: PTRef | DependsOn(T2, S, k, v) :: InSomeTarget(T1, S1, v)
    ensures RoundSubsts(T0, f, T2, root, S, later)
  {
    hide Solves, AllHold, FactOf, FromFact, DependsOn, Occurs;
    if later {
      forall k: PTRef, v: PTRef | DependsOn(T2, S, k, v) ensures Occurs(T2, root, v) {
        var k1: PTRef :| DependsOn(T1, S1, k1, v);
        VarsFromRoot(T, root, T1, facts, current, v);
        OccursPrefix(T, T2, root, v);
      }
      forall k | k in S ensures Occurs(T2, root, k) {
        VarsFromRoot(T, root, T1, facts, current, k);
        OccursPrefix(T, T2, root, k);
      }
    }
  }

  /** What the new units are, for the round. */
  lemma UnitsOfRound(prev: seq<Units>, newUnits: Units, r: Round)
    requires Stores(r) && r.known == newUnits + r.units
    requires forall t: PTRef | t < |r.before| :: Known(prev, newUnits, t) <==> Found(r.before, prev, Visited(r.before, r.root, prev), t)
    requires XorsKept(r.mid, prev, newUnits, Visited(r.before, r.root, prev))
    requires FromVisited(r.before, r.mid, prev, newUnits, Visited(r.before, r.root, prev))
    ensures FactsKnown(prev, r, r.known) && OnlyFacts(prev, r)
  {
    hide Lookup, Found, Visited, GivenByVisited, XorsKept;
    assert FactsKnown(prev, r, newUnits);
    FactsStayKnown(prev, r, newUnits, r.known);
  }

  /** Substitutions from the facts, loops broken and closed under themselves. */
  method RetrieveClosed(logic: Logic, facts: seq<PtAsgn>) returns (conflict: bool, S: Substs, ghost retrieved: Substs)
    requires logic.Valid() && Plain(logic.terms) && FactListOk(logic.terms, facts) && !Contradictory(facts)
    modifies logic
    ensures logic.Valid() && Plain(logic.terms) && old(logic.terms) <= logic.terms && !conflict
    ensures RetrievedLoopless(old(logic.terms), facts, retrieved)
    ensures SubstsOk(old(logic.terms), retrieved) && SubstsOk(logic.terms, S) && SortsOk(logic.terms, S) && Idempotent(logic.terms, S)
    ensures S.Keys == retrieved.Keys && Enabled(S) == Enabled(retrieved)
    ensures forall k | k in S && !S[k].sgn :: S[k] == retrieved[k]
    ensures forall M: Interp :: Solves(logic.terms, M, S) == Solves(old(logic.terms), M, retrieved)
    ensures forall M: Interp | AllHold(old(logic.terms), M, facts) :: Solves(old(logic.terms), M, retrieved)
    ensures forall k | k in retrieved :: FromFact(old(logic.terms), facts, k)
    ensures forall k: PTRef, v: PTRef | DependsOn(old(logic.terms), retrieved, k, v) :: FromFact(old(logic.terms), facts, v)
    ensures forall k: PTRef, v: PTRef | DependsOn(logic.terms, S, k, v) :: InSomeTarget(old(logic.terms), retrieved, v)
  {
    hide Plain, WfTerms, ProperTerm, IteFree, SubstsOk, SortsOk, FactListOk, AllHold, FromFact, Contradictory, Idempotent, AcyclicSubsts,
      DependsOn, InSomeTarget, Used, RetrievedLoopless, Solves, Enabled, EnableAll;
    var S1;
    conflict, S1 := RetrieveSubstitutions(logic, facts);
    retrieved := S1;
    PlainIteFree(logic.terms);
    S := SubstitutionsTransitiveClosure(logic, S1);
  }

  /** The facts of the root, the units they add, and their substitutions, loops broken and closed. */
  method FindSubstitutions(logic: Logic, root: PTRef, prev: seq<Units>, units: Units, current: seq<PtAsgn>,
                           ghost T0: seq<Pterm>, ghost f: PTRef, ghost found: seq<Substs>)
    returns (units': Units, conflict: bool, S: Substs, ghost r: Round)
    requires logic.Valid() && Plain(logic.terms) && WfTerms(T0) && T0 <= logic.terms && f < |T0| && root < |logic.terms|
    requires Simplified(T0, f, logic.terms, root, found) && PrevOk(T0, f, prev)
    requires UnitsImplied(T0, f, logic.terms, units) && AllImplied(T0, f, logic.terms, current) && Lists(current, prev, map[])
    modifies logic
    ensures logic.Valid() && Plain(logic.terms) && old(logic.terms) <= logic.terms
    ensures Simplified(T0, f, logic.terms, root, found) && UnitsImplied(T0, f, logic.terms, units')
    ensures Vars(logic.terms, root) == Vars(old(logic.terms), root)
    ensures !conflict && RoundSubsts(T0, f, logic.terms, root, S, current == [])
    ensures RoundOk(prev, r) && r.before == old(logic.terms) && r.root == root && r.units == units && r.given == current
    ensures r.after == logic.terms && r.substs == S && r.known == units'
  {
    hide Plain, WfTerms, ProperTerm, IteFree, Simplified, UnitsImplied, AllImplied, FactOf, UnitsOk, Agree, FactListOk, SubstsOk, SortsOk;
    hide Solves, AllHold, FromFact, Contradictory, Idempotent, AcyclicSubsts, DependsOn, InSomeTarget, RoundSubsts, Used, Exhausted, AllReached,
      Known, Found, Visited, XorsKept, FromVisited, FactsKnown, OnlyFacts, RetrievedLoopless, Enabled;
    hide Vars;
    ghost var T := logic.terms;
    PrevUnitsOk(T0, f, T, prev);
    RootSort(T0, f, T, root, found);
    var newUnits := GetNewFacts(logic, root, prev);
    ghost var T1 := logic.terms;
    RootFacts(T0, f, T, root, found, T1, newUnits);
    var current1;
    units', current1 := AddUnits(newUnits, units, current);
    AllImpliedGrow(T0, f, T, T1, current, units);
    ListImplied(T0, f, T1, current, newUnits, current1);
    ListConsistent(current1, prev, newUnits);
    UnitsUnion(T0, f, T1, newUnits, units);
    ghost var retrieved;
    conflict, S, retrieved := RetrieveClosed(logic, current1);
    r := Round(T, root, units, current, T1, current1, retrieved, logic.terms, S, units');
    UnitsOfRound(prev, newUnits, r);
    SimplifiedGrows(T0, f, T, logic.terms, root, found);
    AllImpliedGrow(T0, f, T1, logic.terms, current1, units');
    RoundSubstsOk(T0, f, root, T, T1, newUnits, current1, retrieved, logic.terms, S, current == []);
  }

  lemma PlainIteFree(T: seq<Pterm>)
    requires Plain(T)
    ensures IteFree(T)
  {
  }

  lemma RootSort(T0: seq<Pterm>, f: PTRef, T: seq<Pterm>, root: PTRef, found: seq<Substs>)
    requires WfTerms(T0) && f < |T0| && WfTerms(T) && Simplified(T0, f, T, root, found)
    ensures root < |T| && HasSortBool(T, root)
  {
  }

  lemma PrevUnitsOk(T0: seq<Pterm>, f: PTRef, T: seq<Pterm>, prev: seq<Units>)
    requires WfTerms(T0) && f < |T0| && T0 <= T && PrevOk(T0, f, prev)
    ensures forall j | 0 <= j < |prev| :: UnitsOk(T, prev[j])
  {
    forall j | 0 <= j < |prev| ensures UnitsOk(T, prev[j]) {
      forall t | t in prev[j] ensures UnitOk(T, PtAsgn(t, prev[j][t])) {
        assert Implied(T0, f, T0, PtAsgn(t, prev[j][t]));
      }
    }
  }

  lemma UnitsUnion(T0: seq<Pterm>, f: PTRef, T: seq<Pterm>, newUnits: Units, units: Units)
    requires WfTerms(T0) && f < |T0| && WfTerms(T) && UnitsImplied(T0, f, T, newUnits) && UnitsImplied(T0, f, T, units)
    ensures UnitsImplied(T0, f, T, newUnits + units)
  {
    hide Implied;
  }

  lemma Starts(T: seq<Pterm>, f: PTRef, prev: seq<Units>, current: seq<PtAsgn>)
    requires WfTerms(T) && f < |T| && HasSortBool(T, f) && PrevOk(T, f, prev)
    requires forall p :: p in current <==> exists j | 0 <= j < |prev| :: p.tr in prev[j] && prev[j][p.tr] == p.sgn
    ensures Simplified(T, f, T, f, []) && UnitsImplied(T, f, T, map[]) && AllImplied(T, f, T, current) && Lists(current, prev, map[])
    ensures Remembers([], map[]) && Eliminated(T, f, []) && FoundBy([], []) && Leads(T, f, prev, [], T, f, map[], current)
  {
    forall i | 0 <= i < |current| ensures Implied(T, f, T, current[i]) {
      assert current[i] in current;
      var j :| 0 <= j < |prev| && current[i].tr in prev[j] && prev[j][current[i].tr] == current[i].sgn;
      assert Implied(T, f, T, PtAsgn(current[i].tr, prev[j][current[i].tr]));
    }
  }

  lemma RoundSubstsFacts(T0: seq<Pterm>, f: PTRef, T: seq<Pterm>, root: PTRef, S: Substs, later: bool)
    requires WfTerms(T0) && f < |T0| && WfTerms(T) && root < |T| && RoundSubsts(T0, f, T, root, S, later)
    ensures SubstsOk(T, S) && SortsOk(T, S) && Idempotent(T, S)
    ensures forall M: Interp | Eval(T0, M, f) == TT :: Solves(T, M, S)
    ensures later ==> forall k | k in S :: Occurs(T, root, k)
    ensures later ==> forall k: PTRef, v: PTRef | DependsOn(T, S, k, v) :: Occurs(T, root, v)
  {
  }

  lemma RoundShrinks(T0: seq<Pterm>, f: PTRef, T: seq<Pterm>, S: Substs, T': seq<Pterm>, root: PTRef, newRoot: PTRef)
    requires WfTerms(T0) && f < |T0| && WfTerms(T) && WfTerms(T') && T <= T' && root < |T| && RoundSubsts(T0, f, T, root, S, true)
    requires SubstsOk(T, S) && SortsOk(T, S) && Rewritten(T, S, T', root, newRoot) && Touched(T, S, root)
    ensures newRoot < |T'| && Vars(T', newRoot) < Vars(T, root)
  {
    RoundRemovesVariable(T, S, T', root, newRoot);
  }

  /** What is known between two rounds. */
  ghost predicate Between(T0: seq<Pterm>, f: PTRef, prev: seq<Units>, T: seq<Pterm>, root: PTRef, units: Units, allsubsts: Substs,
                          found: seq<Substs>, rounds: seq<Round>, current: seq<PtAsgn>)
    requires WfTerms(T0) && f < |T0| && WfTerms(T)
  {
    && Simplified(T0, f, T, root, found) && root < |T| && Eliminated(T, root, found)
    && UnitsImplied(T0, f, T, units) && AllImplied(T0, f, T, current) && Lists(current, prev, map[])
    && Remembers(found, allsubsts) && FoundBy(rounds, found) && Leads(T0, f, prev, rounds, T, root, units, current)
    && (found == [] || current == [])
  }

  /** One round: facts, their substitutions, and the root rewritten by them. */
  method OneRound(logic: Logic, root: PTRef, prev: seq<Units>, units: Units, current: seq<PtAsgn>, allsubsts: Substs,
                  ghost T0: seq<Pterm>, ghost f: PTRef, ghost found: seq<Substs>, ghost rounds: seq<Round>)
    returns (newRoot: PTRef, units': Units, allsubsts': Substs, cont: bool, ghost round: Round)
    requires logic.Valid() && Plain(logic.terms) && WfTerms(T0) && T0 <= logic.terms && f < |T0| && PrevOk(T0, f, prev)
    requires Between(T0, f, prev, logic.terms, root, units, allsubsts, found, rounds, current)
    modifies logic
    ensures logic.Valid() && Plain(logic.terms) && old(logic.terms) <= logic.terms
    ensures Between(T0, f, prev, logic.terms, newRoot, units', allsubsts', found + [round.substs], rounds + [round], [])
    ensures RoundOk(prev, round) && (cont <==> ChangesRoot(round)) && (!cont ==> newRoot == round.root)
    ensures root < |old(logic.terms)| && newRoot < |logic.terms|
    ensures cont && current == [] ==> Vars(logic.terms, newRoot) < Vars(old(logic.terms), root)
  {
    hide Plain, WfTerms, ProperTerm, IteFree, Simplified, UnitsImplied, AllImplied, SubstsOk, SortsOk, RoundSubsts, Touched, Rewritten, Vars;
    hide PrevOk, Remembers, Solves, Eliminated, HashConsed, DependsOn, Occurs, Idempotent, RoundOk, Leads, ChangesRoot, FoundBy;
    ghost var T1, later := logic.terms, current == [];
    var conflict, newsubsts;
    units', conflict, newsubsts, round := FindSubstitutions(logic, root, prev, units, current, T0, f, found);
    ghost var T := logic.terms;
    RoundSubstsFacts(T0, f, T, root, newsubsts, later);
    PlainIteFree(T);
    EliminatedGrows(T1, T, root, found);
    newRoot, cont := VarSubstitute(logic, if conflict then TERM_FALSE else root, newsubsts);
    RoundKeeps(T0, f, T, root, found, newsubsts, logic.terms, newRoot);
    RootSort(T0, f, logic.terms, newRoot, found + [newsubsts]);
    AllImpliedGrow(T0, f, T, logic.terms, [], units');
    EliminatedMore(T, root, found, newsubsts, logic.terms, newRoot);
    RememberMore(found, allsubsts, newsubsts);
    RoundMade(T0, f, prev, rounds, found, round, logic.terms, newRoot, cont);
    allsubsts' := newsubsts + allsubsts;
    if cont && later {
      RoundShrinks(T0, f, T, newsubsts, logic.terms, root, newRoot);
    }
    NothingListed(T0, f, logic.terms, prev);
  }

  /** Looks for facts of the root and substitutes them into the root until nothing changes.  The root
      has the value of the formula in every interpretation that solves the substitutions found, and
      every model of the formula solves them: so the two have the same models up to the values of the
      variables substituted away. */
  method ComputeSubstitutions(logic: Logic, collF: PTRef, prev: seq<Units>)
    returns (root: PTRef, units: Units, allsubsts: Substs, ghost found: seq<Substs>, ghost rounds: seq<Round>)
    requires logic.Valid() && Plain(logic.terms) && collF < |logic.terms| && HasSortBool(logic.terms, collF)
    requires PrevOk(logic.terms, collF, prev)
    modifies logic
    ensures logic.Valid() && Plain(logic.terms) && old(logic.terms) <= logic.terms
    ensures Simplified(old(logic.terms), collF, logic.terms, root, found)
    ensures UnitsImplied(old(logic.terms), collF, logic.terms, units)
    ensures Remembers(found, allsubsts)
    ensures Eliminated(logic.terms, root, found)
    ensures HasModel(logic.terms, root) <==> HasModel(old(logic.terms), collF)
    ensures Leads(old(logic.terms), collF, prev, rounds, logic.terms, root, units, []) && FoundBy(rounds, found)
    ensures rounds != [] && (var last := rounds[|rounds| - 1]; RoundOk(prev, last) && last.root == root && !ChangesRoot(last))
    ensures forall i | 0 <= i < |rounds| - 1 :: ChangesRoot(rounds[i])
    ensures forall i | 0 <= i < |rounds| :: Stores(rounds[i]) && FactsKnown(prev, rounds[i], units)
  {
    hide RoundOk, Leads, Stores, FactsKnown, ChangesRoot, ListsAll, FoundBy;
    hide Plain, WfTerms, ProperTerm, Simplified, UnitsImplied, AllImplied, Vars, PrevOk, Remembers, Eliminated, HashConsed;
    ghost var T0 := logic.terms;
    root, units, allsubsts, found, rounds := collF, map[], map[], [], [];
    var current := UnitLists(prev);
    Starts(T0, collF, prev, current);
    while true
      invariant logic.Valid() && Plain(logic.terms) && T0 <= logic.terms && root < |logic.terms|
      invariant Between(T0, collF, prev, logic.terms, root, units, allsubsts, found, rounds, current)
      invariant forall i | 0 <= i < |rounds| :: ChangesRoot(rounds[i])
      decreases found == [], Vars(logic.terms, root)
    {
      var cont;
      ghost var round;
      root, units, allsubsts, cont, round := OneRound(logic, root, prev, units, current, allsubsts, T0, collF, found, rounds);
      current := [];
      found, rounds := found + [round.substs], rounds + [round];
      if !cont {
        break;
      }
    }
    AllFactsKnown(T0, collF, prev, rounds, logic.terms, root, units, []);
    Consed(logic.terms, logic.table);
    SameSatisfiability(T0, collF, logic.terms, root, found);
  }

  /** The substitutions found are those of the rounds. */
  ghost predicate FoundBy(rounds: seq<Round>, found: seq<Substs>) {
    |found| == |rounds| && forall i | 0 <= i < |rounds| :: found[i] == rounds[i].substs
  }

  /** A round is over: the root has been rewritten, or nothing in it was to be replaced. */
  lemma RoundMade(T0: seq<Pterm>, f: PTRef, prev: seq<Units>, rounds: seq<Round>, found: seq<Substs>, r: Round,
                  T: seq<Pterm>, newRoot: PTRef, cont: bool)
    requires Leads(T0, f, prev, rounds, r.before, r.root, r.units, r.given) && RoundOk(prev, r) && FoundBy(rounds, found)
    requires WfTerms(T) && r.after <= T && SortsOk(r.after, r.substs) && Rewritten(r.after, r.substs, T, r.root, newRoot)
    requires cont <==> Touched(r.after, r.substs, r.root)
    ensures Leads(T0, f, prev, rounds + [r], T, newRoot, r.known, []) && FoundBy(rounds + [r], found + [r.substs])
    ensures cont <==> ChangesRoot(r)
    ensures !cont ==> newRoot == r.root
  {
    hide Touched, FactsKnown, OnlyFacts, Handed, SubstsFound, WfTerms;
    LeadsMore(T0, f, prev, rounds, r, T, newRoot);
  }

  lemma NothingListed(T0: seq<Pterm>, f: PTRef, T: seq<Pterm>, prev: seq<Units>)
    requires WfTerms(T0) && f < |T0| && WfTerms(T)
    ensures AllImplied(T0, f, T, []) && Lists([], prev, map[])
  {
  }

  lemma Consed(T: seq<Pterm>, table: map<Pterm, PTRef>)
    requires forall r: PTRef | r < |T| :: T[r] in table && table[T[r]] == r
    ensures HashConsed(T)
  {
  }

  /** The final root is satisfiable exactly when the formula is. */
  lemma SameSatisfiability(T0: seq<Pterm>, f: PTRef, T: seq<Pterm>, root: PTRef, found: seq<Substs>)
    requires WfTerms(T0) && f < |T0| && WfTerms(T) && HashConsed(T)
    requires Simplified(T0, f, T, root, found) && Eliminated(T, root, found)
    ensures HasModel(T, root) <==> HasModel(T0, f)
  {
    hide Solves, Eliminated, SubstsOk;
    if HasModel(T, root) {
      var M: Interp :| Eval(T, M, root) == TT;
      var M' := Complete(T, root, found, M, |found|);
      assert AllSolved(T, M', found);
      assert Eval(T0, M', f) == TT;
    }
    if HasModel(T0, f) {
      var M: Interp :| Eval(T0, M, f) == TT;
      assert AllSolved(T, M, found);
      assert Eval(T, M, root) == TT;
    }
  }
}
