/** Substitutions from facts. */
module SubstitutionRetrieval {
  import opened Terms
  import opened Semantics
  import opened LogicStore
  import opened Graphs
  import opened SubstLoops
  import opened Substitution
  import opened SubstitutionClosure
  import opened TopLevelFacts

  predicate FactListOk(T: seq<Pterm>, facts: seq<PtAsgn>) {
    forall i | 0 <= i < |facts| :: UnitOk(T, facts[i])
  }

  ghost predicate AllHold(T: seq<Pterm>, M: Interp, facts: seq<PtAsgn>)
    requires WfTerms(T) && FactListOk(T, facts)
  {
    forall i | 0 <= i < |facts| :: AsgnHolds(T, M, facts[i])
  }

  /** The same term is stated to be true and to be false. */
  predicate Contradictory(facts: seq<PtAsgn>) {
    exists i, j | 0 <= i < |facts| && 0 <= j < |facts| :: facts[i].tr == facts[j].tr && facts[i].sgn != facts[j].sgn
  }

  ghost predicate FromFact(T: seq<Pterm>, facts: seq<PtAsgn>, v: PTRef)
    requires WfTerms(T) && FactListOk(T, facts)
  {
    exists i | 0 <= i < |facts| :: Occurs(T, facts[i].tr, v)
  }

  /** The fact determines a variable: it states its truth value, or equates it to a term without it. */
  ghost predicate Determines(T: seq<Pterm>, p: PtAsgn, x: PTRef, y: PTRef)
    requires WfTerms(T) && UnitOk(T, p)
  {
    && x < |T| && y < |T| && IsVarSym(T[x].symb) && !Below(T, y, x)
    && ((p.tr == x && y == if p.sgn then TERM_TRUE else TERM_FALSE)
        || (IsEquality(T[p.tr].symb) && p.sgn && (T[p.tr].args == [x, y] || T[p.tr].args == [y, x])))
  }

  /** A determined variable is a key, unless it was used to determine another variable. */
  ghost predicate Used(T: seq<Pterm>, S: Substs, p: PtAsgn)
    requires WfTerms(T) && UnitOk(T, p)
  {
    forall x, y | Determines(T, p, x, y) :: x in S || y in S
  }

  /** The entry replaces a variable by what some fact determines. */
  ghost predicate EntryOk(T: seq<Pterm>, facts: seq<PtAsgn>, k: PTRef, e: PtAsgn)
    requires WfTerms(T) && FactListOk(T, facts)
  {
    e.sgn && exists i | 0 <= i < |facts| :: Determines(T, facts[i], k, e.tr)
  }

  ghost predicate Retrieved(T: seq<Pterm>, facts: seq<PtAsgn>, S: Substs)
    requires WfTerms(T) && FactListOk(T, facts)
  {
    && (forall k | k in S :: EntryOk(T, facts, k, S[k]))
    && (forall i | 0 <= i < |facts| :: Used(T, S, facts[i]))
  }

  /** The map with every entry enabled: the entries as they were before loops were broken. */
  function EnableAll(S: Substs): (R: Substs)
    ensures R.Keys == S.Keys && forall k | k in S :: R[k] == PtAsgn(S[k].tr, true)
  {
    map k | k in S :: PtAsgn(S[k].tr, true)
  }

  /** The entries are those that the facts determine, and of the loops among them each is broken by
      disabling one entry. */
  ghost predicate RetrievedLoopless(T: seq<Pterm>, facts: seq<PtAsgn>, S: Substs)
    requires WfTerms(T) && FactListOk(T, facts)
  {
    SubstsOk(T, S) && SubstsOk(T, EnableAll(S)) && Retrieved(T, facts, EnableAll(S)) && LoopsBroken(T, EnableAll(S), S)
  }

  /** The variable occurs in the term. */
  method Contains(logic: Logic, term: PTRef, v: PTRef) returns (found: bool)
    requires WfTerms(logic.terms) && term < |logic.terms|
    ensures found <==> Below(logic.terms, term, v)
  {
    hide Below, WfTerms;
    ghost var T := logic.terms;
    assert Below(T, term, term) by { BelowSelf(T, term); }
    var proc: set<PTRef> := {};
    var queue: seq<PTRef> := [term];
    while queue != []
      invariant forall i | 0 <= i < |queue| :: queue[i] < |T| && Below(T, term, queue[i])
      invariant ArgsInside(T, proc) && v !in proc
      invariant term in proc || term in queue
      decreases Refs(|T|) - proc, Phase(queue, proc), Depth(queue, proc)
    {
      var tr := queue[|queue| - 1];
      if tr == v {
        return true;
      }
      if tr in proc {
        queue := queue[..|queue| - 1];
        continue;
      }
      var unprocessed;
      unprocessed, queue := PushUnprocessed(logic, tr, term, queue, proc);
      if unprocessed {
        continue;
      }
      queue := queue[..|queue| - 1];
      ghost var open := Refs(|T|) - proc;
      assert tr in open;
      proc := proc + {tr};
      assert tr !in Refs(|T|) - proc;
    }
    if Below(T, term, v) {
      InsideCovers(T, proc, term, v);
    }
    found := false;
  }

  method PushUnprocessed(logic: Logic, tr: PTRef, ghost term: PTRef, queue: seq<PTRef>, proc: set<PTRef>)
    returns (unprocessed: bool, queue': seq<PTRef>)
    requires WfTerms(logic.terms) && term < |logic.terms| && tr < |logic.terms| && Below(logic.terms, term, tr)
    requires forall i | 0 <= i < |queue| :: queue[i] < |logic.terms| && Below(logic.terms, term, queue[i])
    ensures queue <= queue' && forall i | 0 <= i < |queue'| :: queue'[i] < |logic.terms| && Below(logic.terms, term, queue'[i])
    ensures if unprocessed then |queue'| > |queue| && queue'[|queue'| - 1] < tr && queue'[|queue'| - 1] !in proc
            else queue' == queue && forall i | 0 <= i < |logic.terms[tr].args| :: logic.terms[tr].args[i] in proc
  {
    unprocessed, queue' := false, queue;
    var args := logic.terms[tr].args;
    assert WfTerm(logic.terms, tr);
    for i := 0 to |args|
      invariant queue <= queue' && forall k | 0 <= k < |queue'| :: queue'[k] < |logic.terms| && Below(logic.terms, term, queue'[k])
      invariant if unprocessed then |queue'| > |queue| && queue'[|queue'| - 1] < tr && queue'[|queue'| - 1] !in proc
                else queue' == queue && forall k | 0 <= k < i :: args[k] in proc
    {
      if args[i] !in proc {
        assert Below(logic.terms, args[i], args[i]);
        assert Below(logic.terms, tr, args[i]);
        BelowTrans(logic.terms, term, tr, args[i]);
        queue', unprocessed := queue' + [args[i]], true;
      }
    }
  }

  // ----- what the entries mean -----

  lemma DeterminedSorts(T: seq<Pterm>, p: PtAsgn, x: PTRef, y: PTRef)
    requires WfTerms(T) && UnitOk(T, p) && Determines(T, p, x, y)
    ensures HasSortBool(T, x) == HasSortBool(T, y)
  {
    assert WfTerm(T, p.tr) && T[0].symb.True? && T[1].symb.False?;
    var args := T[p.tr].args;
    if p.tr != x {
      assert HasSortBool(T, args[0]) == HasSortBool(T, args[1]);
    }
  }

  lemma DeterminedValue(T: seq<Pterm>, M: Interp, p: PtAsgn, x: PTRef, y: PTRef)
    requires WfTerms(T) && UnitOk(T, p) && Determines(T, p, x, y) && AsgnHolds(T, M, p)
    ensures Eval(T, M, x) == Eval(T, M, y)
  {
    EvalConsts(T);
    assert WfTerm(T, p.tr);
    if p.tr != x {
      EvalDef(T, M, p.tr);
      var args := T[p.tr].args;
      assert EvalSeq(T, M, args)[0] == Eval(T, M, args[0]) && EvalSeq(T, M, args)[1] == Eval(T, M, args[1]);
    }
  }

  lemma DeterminedVars(T: seq<Pterm>, p: PtAsgn, x: PTRef, y: PTRef, v: PTRef)
    requires WfTerms(T) && UnitOk(T, p) && Determines(T, p, x, y)
    ensures v == x || Occurs(T, y, v) ==> Occurs(T, p.tr, v)
  {
    assert WfTerm(T, p.tr) && T[0].symb.True? && T[1].symb.False?;
    BelowSelf(T, x);
    assert WfTerm(T, y);
    if p.tr != x {
      assert x in T[p.tr].args && y in T[p.tr].args;
    }
  }

  lemma RetrievedMeaning(T: seq<Pterm>, facts: seq<PtAsgn>, S: Substs)
    requires WfTerms(T) && FactListOk(T, facts) && Retrieved(T, facts, S)
    ensures SubstsOk(T, S) && SortsOk(T, S)
    ensures forall k | k in S && S[k].sgn :: !DependsOn(T, S, k, k)
    ensures forall M: Interp | AllHold(T, M, facts) :: Solves(T, M, S)
    ensures forall k | k in S :: FromFact(T, facts, k)
    ensures forall k: PTRef, v: PTRef | DependsOn(T, S, k, v) :: FromFact(T, facts, v)
  {
    hide Determines, Occurs;
    forall k | k in S ensures k < |T| && IsVarSym(T[k].symb) && S[k].tr < |T| && HasSortBool(T, k) == HasSortBool(T, S[k].tr) && !Occurs(T, S[k].tr, k) {
      assert EntryOk(T, facts, k, S[k]);
      var i :| 0 <= i < |facts| && Determines(T, facts[i], k, S[k].tr);
      DeterminedIsVar(T, facts[i], k, S[k].tr);
      DeterminedSorts(T, facts[i], k, S[k].tr);
    }
    forall M: Interp | AllHold(T, M, facts) ensures Solves(T, M, S) {
      forall k | k in S ensures Eval(T, M, k) == Eval(T, M, S[k].tr) {
        assert EntryOk(T, facts, k, S[k]);
        var i :| 0 <= i < |facts| && Determines(T, facts[i], k, S[k].tr);
        DeterminedValue(T, M, facts[i], k, S[k].tr);
      }
    }
    forall k, v: PTRef | k in S && (v == k || Occurs(T, S[k].tr, v)) ensures FromFact(T, facts, v) {
      assert EntryOk(T, facts, k, S[k]);
      var i :| 0 <= i < |facts| && Determines(T, facts[i], k, S[k].tr);
      DeterminedVars(T, facts[i], k, S[k].tr, v);
    }
  }

  lemma DeterminedIsVar(T: seq<Pterm>, p: PtAsgn, x: PTRef, y: PTRef)
    requires WfTerms(T) && UnitOk(T, p) && Determines(T, p, x, y)
    ensures x < |T| && y < |T| && IsVarSym(T[x].symb) && !Occurs(T, y, x)
  {
  }

  // ----- the loop over the facts -----

  /** Keeps what is known about the first facts when a next fact is looked at. */
  lemma Extend(T: seq<Pterm>, facts: seq<PtAsgn>, n: nat, S: Substs, S': Substs)
    requires WfTerms(T) && FactListOk(T, facts) && n < |facts| && Retrieved(T, facts[..n], S)
    requires S.Keys <= S'.Keys && (forall k | k in S :: S'[k] == S[k])
    requires forall k | k in S' && k !in S :: S'[k].sgn && Determines(T, facts[n], k, S'[k].tr)
    requires Used(T, S', facts[n])
    ensures Retrieved(T, facts[..n + 1], S')
  {
    hide Determines;
    forall k | k in S' ensures EntryOk(T, facts[..n + 1], k, S'[k]) {
      if k in S {
        assert EntryOk(T, facts[..n], k, S[k]);
        var i :| 0 <= i < n && Determines(T, facts[..n][i], k, S[k].tr);
        assert facts[..n + 1][i] == facts[..n][i];
      } else {
        assert facts[..n + 1][n] == facts[n];
      }
    }
    var seen := facts[..n + 1];
    forall i | 0 <= i < |seen| ensures Used(T, S', seen[i]) {
      if i < n {
        assert Used(T, S, facts[..n][i]);
      }
    }
  }

  /** A value already given to a Boolean variable was stated by a fact. */
  lemma GivenByFact(T: seq<Pterm>, facts: seq<PtAsgn>, n: nat, S: Substs, k: PTRef)
    requires WfTerms(T) && (forall r: PTRef | r < |T| :: ProperTerm(T, T[r])) && FactListOk(T, facts) && n < |facts| && Retrieved(T, facts[..n], S) && k in S
    requires k < |T| && HasSortBool(T, k) && S[k].tr <= TERM_FALSE
    requires facts[n].tr == k && facts[n].sgn != (S[k].tr == TERM_TRUE)
    ensures Contradictory(facts)
  {
    assert EntryOk(T, facts[..n], k, S[k]);
    var i :| 0 <= i < n && Determines(T, facts[..n][i], k, S[k].tr);
    var t := facts[i].tr;
    assert T[0].symb.True? && T[1].symb.False?;
    assert ProperTerm(T, T[t]);
    assert WfTerm(T, t);
    assert facts[i].tr == k;
    assert facts[i].tr == facts[n].tr && facts[i].sgn != facts[n].sgn;
  }

  lemma PlainEquality(T: seq<Pterm>, t: PTRef)
    requires WfTerms(T) && Plain(T) && t < |T| && IsEquality(T[t].symb) && forall r: PTRef | r < |T| :: ProperTerm(T, T[r])
    ensures var args := T[t].args;
      && |args| == 2 && InStore(T, args)
      && (forall i | 0 <= i < 2 :: T[args[i]].args == [] <==> IsVarSym(T[args[i]].symb) || IsConstSym(T[args[i]].symb))
      && (IsConstSym(T[args[0]].symb) ==> IsVarSym(T[args[1]].symb))
      && (IsConstSym(T[args[1]].symb) ==> IsVarSym(T[args[0]].symb))
  {
    assert WfTerm(T, t) && ProperTerm(T, T[t]);
    var args := T[t].args;
    forall i | 0 <= i < 2 ensures T[args[i]].args == [] <==> IsVarSym(T[args[i]].symb) || IsConstSym(T[args[i]].symb) {
      assert WfTerm(T, args[i]) && ProperTerm(T, T[args[i]]);
    }
    if T[t].symb.Iff? {
      ProperNotConst(T, args);
    }
  }

  lemma NotContained(T: seq<Pterm>, x: PTRef, y: PTRef)
    requires WfTerms(T) && x < |T| && y < |T| && (IsVarSym(T[x].symb) || IsConstSym(T[x].symb))
    ensures !Below(T, x, y) <==> x != y
  {
    assert WfTerm(T, x);
  }

  /** An equality with a side that is a variable or a constant becomes an entry unless one side contains the other. */
  method JoinEquality(logic: Logic, p: PtAsgn, S: Substs) returns (S': Substs)
    requires logic.Valid() && Plain(logic.terms) && UnitOk(logic.terms, p) && IsEquality(logic.terms[p.tr].symb) && p.sgn
    ensures S.Keys <= S'.Keys && (forall k | k in S :: S'[k] == S[k])
    ensures forall k | k in S' && k !in S :: S'[k].sgn && Determines(logic.terms, p, k, S'[k].tr)
    ensures Used(logic.terms, S', p)
  {
    hide Plain, Below, WfTerms;
    ghost var T := logic.terms;
    var args := logic.terms[p.tr].args;
    PlainEquality(T, p.tr);
    S' := S;
    if logic.terms[args[0]].args == [] || logic.terms[args[1]].args == [] {
      var v := if logic.terms[args[0]].args == [] then args[0] else args[1];
      var trm := if logic.terms[args[0]].args == [] then args[1] else args[0];
      var inside := Contains(logic, trm, v);
      NotContained(T, v, trm);
      if inside {
        ContainedUsed(T, S, p, v, trm);
        return;
      }
      if IsConstSym(logic.terms[v].symb) {
        v, trm := trm, v;
      }
      assert v != trm by { BelowSelf(T, trm); }
      EqualityDetermines(T, p, v, trm);
      if v !in S {
        S' := S[v := PtAsgn(trm, true)];
      }
    } else {
      NothingDetermined(T, S, p);
    }
  }

  lemma ContainedUsed(T: seq<Pterm>, S: Substs, p: PtAsgn, v: PTRef, trm: PTRef)
    requires WfTerms(T) && UnitOk(T, p) && IsEquality(T[p.tr].symb) && v < |T| && trm < |T| && Below(T, trm, v)
    requires T[p.tr].args == [v, trm] || T[p.tr].args == [trm, v]
    requires IsVarSym(T[v].symb) || IsConstSym(T[v].symb)
    ensures Used(T, S, p)
  {
    if IsVarSym(T[trm].symb) {
      NotContained(T, trm, v);
    }
    BelowSelf(T, trm);
    assert !IsVarSym(T[p.tr].symb);
  }

  lemma NothingDetermined(T: seq<Pterm>, S: Substs, p: PtAsgn)
    requires WfTerms(T) && UnitOk(T, p) && IsEquality(T[p.tr].symb) && InStore(T, T[p.tr].args)
    requires forall i | 0 <= i < |T[p.tr].args| :: T[T[p.tr].args[i]].args != []
    ensures Used(T, S, p)
  {
    forall i | 0 <= i < |T[p.tr].args| ensures !IsVarSym(T[T[p.tr].args[i]].symb) {
      assert WfTerm(T, T[p.tr].args[i]);
    }
    forall x: PTRef, y: PTRef ensures !Determines(T, p, x, y) {
      assert x in [x, y] && x in [y, x];
      assert x < |T| && IsVarSym(T[x].symb) ==> x !in T[p.tr].args;
    }
  }

  lemma EqualityDetermines(T: seq<Pterm>, p: PtAsgn, x: PTRef, y: PTRef)
    requires WfTerms(T) && UnitOk(T, p) && IsEquality(T[p.tr].symb) && p.sgn
    requires x < |T| && y < |T| && IsVarSym(T[x].symb) && x != y
    requires (!Below(T, y, x) || IsConstSym(T[y].symb))
    requires T[p.tr].args == [x, y] || T[p.tr].args == [y, x]
    ensures Determines(T, p, x, y)
    ensures forall S: Substs | x in S :: Used(T, S, p)
  {
    assert WfTerm(T, y) && WfTerm(T, p.tr);
    forall S: Substs | x in S ensures Used(T, S, p) {
      forall a, b | Determines(T, p, a, b) ensures a in S || b in S {
        assert a != p.tr;
      }
    }
  }

  /** A Boolean variable gets its value; the second result reports that it had the other value. */
  method JoinAtom(logic: Logic, p: PtAsgn, S: Substs) returns (S': Substs, conflict: bool)
    requires logic.Valid() && UnitOk(logic.terms, p) && IsBoolAtom(logic.terms, p.tr)
    ensures conflict <==> p.tr in S && S[p.tr].tr <= TERM_FALSE && p.sgn != (S[p.tr].tr == TERM_TRUE)
    ensures !conflict ==> S.Keys <= S'.Keys && (forall k | k in S :: S'[k] == S[k])
    ensures !conflict ==> forall k | k in S' && k !in S :: S'[k].sgn && Determines(logic.terms, p, k, S'[k].tr)
    ensures !conflict ==> Used(logic.terms, S', p)
  {
    S', conflict := S, false;
    var term := if p.sgn then TERM_TRUE else TERM_FALSE;
    assert logic.terms[0].symb.True? && logic.terms[1].symb.False?;
    assert WfTerm(logic.terms, term) && WfTerm(logic.terms, p.tr);
    if p.tr in S {
      if S[p.tr].tr == TERM_TRUE || S[p.tr].tr == TERM_FALSE {
        conflict := term != S[p.tr].tr;
      }
    } else {
      S' := S[p.tr := PtAsgn(term, true)];
    }
  }

  /** Turns facts into substitutions and breaks the loops among them. */
  method RetrieveSubstitutions(logic: Logic, facts: seq<PtAsgn>) returns (conflict: bool, S: Substs)
    requires logic.Valid() && Plain(logic.terms) && FactListOk(logic.terms, facts)
    ensures conflict ==> Contradictory(facts)
    ensures !conflict ==> SubstsOk(logic.terms, S) && SortsOk(logic.terms, S) && AcyclicSubsts(logic.terms, S)
    ensures !conflict ==> forall M: Interp | AllHold(logic.terms, M, facts) :: Solves(logic.terms, M, S)
    ensures !conflict ==> forall k | k in S :: FromFact(logic.terms, facts, k)
    ensures !conflict ==> forall k: PTRef, v: PTRef | DependsOn(logic.terms, S, k, v) :: FromFact(logic.terms, facts, v)
    ensures !conflict ==> forall i | 0 <= i < |facts| :: Used(logic.terms, S, facts[i])
    ensures !conflict ==> RetrievedLoopless(logic.terms, facts, S)
    ensures !conflict ==> forall k | k in S && !S[k].sgn :: OnLoop(DependsGraph(logic.terms, EnableAll(S)), k)
    ensures !conflict && AcyclicSubsts(logic.terms, EnableAll(S)) ==> forall k | k in S :: S[k].sgn
  {
    hide LoopsBroken, OnLoop, DependsGraph;
    hide Plain, WfTerms, ProperTerm, Retrieved, Used, Determines, AcyclicSubsts, DependsOn, Occurs;
    ghost var T := logic.terms;
    S := map[];
    assert Retrieved(T, facts[..0], S) by { RetrievedNone(T); }
    for i := 0 to |facts|
      invariant Retrieved(T, facts[..i], S)
    {
      ghost var S0 := S;
      if IsEquality(logic.terms[facts[i].tr].symb) && facts[i].sgn {
        S := JoinEquality(logic, facts[i], S);
        Extend(T, facts, i, S0, S);
      } else if IsBoolAtom(logic.terms, facts[i].tr) {
        S, conflict := JoinAtom(logic, facts[i], S);
        if conflict {
          GivenByFact(T, facts, i, S0, facts[i].tr);
          return;
        }
        Extend(T, facts, i, S0, S);
      } else {
        NoVariable(T, S, facts[i]);
        Extend(T, facts, i, S0, S);
      }
    }
    assert facts[..|facts|] == facts;
    RetrievedMeaning(T, facts, S);
    ghost var S0 := S;
    var slb := new SubstLoopBreaker(logic);
    S := slb.Apply(S);
    conflict := false;
    LooplessMeaning(T, facts, S0, S);
    EnabledAgain(T, facts, S0, S);
  }

  lemma EnabledAgain(T: seq<Pterm>, facts: seq<PtAsgn>, S: Substs, R: Substs)
    requires WfTerms(T) && FactListOk(T, facts) && Retrieved(T, facts, S) && R.Keys == S.Keys && forall k | k in S :: R[k].tr == S[k].tr
    ensures EnableAll(R) == S && forall k | k in S :: S[k].sgn
  {
    hide Used, Determines;
    forall k | k in S ensures S[k] == PtAsgn(R[k].tr, true) {
      assert EntryOk(T, facts, k, S[k]);
    }
  }

  lemma RetrievedNone(T: seq<Pterm>)
    requires WfTerms(T)
    ensures forall facts: seq<PtAsgn> :: facts[..0] == [] && Retrieved(T, facts[..0], map[])
  {
  }

  lemma NoVariable(T: seq<Pterm>, S: Substs, p: PtAsgn)
    requires WfTerms(T) && UnitOk(T, p) && !(IsEquality(T[p.tr].symb) && p.sgn) && !IsBoolAtom(T, p.tr)
    ensures Used(T, S, p)
  {
  }

  lemma LooplessMeaning(T: seq<Pterm>, facts: seq<PtAsgn>, S: Substs, R: Substs)
    requires WfTerms(T) && FactListOk(T, facts) && Retrieved(T, facts, S) && SubstsOk(T, S) && SortsOk(T, S) && SubstsOk(T, R)
    requires R.Keys == S.Keys && forall k | k in S :: R[k].tr == S[k].tr && (R[k].sgn ==> S[k].sgn)
    requires forall k | k in S && S[k].sgn :: !DependsOn(T, S, k, k)
    requires forall k | k in S :: FromFact(T, facts, k)
    requires forall k: PTRef, v: PTRef | DependsOn(T, S, k, v) :: FromFact(T, facts, v)
    requires forall M: Interp | AllHold(T, M, facts) :: Solves(T, M, S)
    ensures SortsOk(T, R) && forall k | k in R && R[k].sgn :: !DependsOn(T, R, k, k)
    ensures forall M: Interp | AllHold(T, M, facts) :: Solves(T, M, R)
    ensures forall k | k in R :: FromFact(T, facts, k)
    ensures forall k: PTRef, v: PTRef | DependsOn(T, R, k, v) :: FromFact(T, facts, v)
    ensures forall i | 0 <= i < |facts| :: Used(T, R, facts[i])
  {
    hide Occurs, Determines;
    forall k: PTRef, v: PTRef | DependsOn(T, R, k, v) ensures DependsOn(T, S, k, v) {
    }
    forall i | 0 <= i < |facts| ensures Used(T, R, facts[i]) {
      assert Used(T, S, facts[i]);
    }
  }
}
