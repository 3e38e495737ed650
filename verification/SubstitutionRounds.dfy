/** The rounds in which substitutions are computed, and what is left to do after the last. */
module SubstitutionRounds {
  import opened Terms
  import opened Semantics
  import opened LogicStore
  import opened SubstLoops
  import opened Substitution
  import opened SubstitutionClosure
  import opened StatedLiterals
  import opened TopLevelFacts
  import opened SubstitutionRetrieval

  /** One round on a root: the units and facts at its start, the facts handed to the retrieval, what was
      retrieved from them, the closed substitutions, and the units known afterwards. */
  datatype Round = Round(before: seq<Pterm>, root: PTRef, units: Units, given: seq<PtAsgn>,
                         mid: seq<Pterm>, facts: seq<PtAsgn>, retrieved: Substs,
                         after: seq<Pterm>, substs: Substs, known: Units)

  ghost predicate Stores(r: Round) {
    && WfTerms(r.before) && WfTerms(r.mid) && WfTerms(r.after) && r.before <= r.mid <= r.after && r.root < |r.before|
    && FactListOk(r.mid, r.facts) && SubstsOk(r.mid, r.retrieved) && SubstsOk(r.after, r.substs)
  }

  /** Every literal that the root visits has its fact among the units: its term, or the equality of a
      true exclusive or. */
  ghost predicate FactsKnown(prev: seq<Units>, r: Round, units: Units)
    requires Stores(r)
  {
    var visited := Visited(r.before, r.root, prev);
    && (forall t: PTRef | t < |r.before| && Found(r.before, prev, visited, t) :: Known(prev, units, t))
    && XorsKept(r.mid, prev, units, visited)
  }

  /** Units stay, and each new one is the fact of a literal visited. */
  ghost predicate OnlyFacts(prev: seq<Units>, r: Round)
    requires Stores(r)
  {
    && (forall t | t in r.units :: t in r.known && r.known[t] == r.units[t])
    && (forall t | t in r.known && t !in r.units ::
          GivenByVisited(r.before, r.mid, prev, Visited(r.before, r.root, prev), t))
  }

  /** The retrieval is handed the facts given at the start and the new units. */
  ghost predicate Handed(r: Round) {
    forall p :: p in r.facts <==> p in r.given || (p.tr in r.known && p.tr !in r.units && r.known[p.tr] == p.sgn)
  }

  /** The substitutions are those of these facts, with loops broken, closed under themselves. */
  ghost predicate SubstsFound(r: Round)
    requires Stores(r)
  {
    && RetrievedLoopless(r.mid, r.facts, r.retrieved)
    && r.substs.Keys == r.retrieved.Keys && Enabled(r.substs) == Enabled(r.retrieved)
    && (forall k | k in r.substs && !r.substs[k].sgn :: r.substs[k] == r.retrieved[k])
    && Idempotent(r.after, r.substs)
    && (forall M: Interp :: Solves(r.after, M, r.substs) == Solves(r.mid, M, r.retrieved))
  }

  ghost predicate RoundOk(prev: seq<Units>, r: Round) {
    Stores(r) && FactsKnown(prev, r, r.known) && OnlyFacts(prev, r) && Handed(r) && SubstsFound(r)
  }

  /** Some variable of the root is replaced. */
  ghost predicate ChangesRoot(r: Round) {
    Stores(r) && Touched(r.after, r.substs, r.root)
  }

  ghost predicate ListsAll(prev: seq<Units>, ps: seq<PtAsgn>) {
    forall p :: p in ps <==> exists j | 0 <= j < |prev| :: p.tr in prev[j] && prev[j][p.tr] == p.sgn
  }

  /** The rounds lead from the formula f to the store, root, units and facts to hand on: the first round
      looks at f without units and with the facts of the previous frames, each later one at the root
      rewritten by the round before, with its units and no facts handed on. */
  ghost predicate Leads(T0: seq<Pterm>, f: PTRef, prev: seq<Units>, rounds: seq<Round>,
                        T: seq<Pterm>, root: PTRef, units: Units, given: seq<PtAsgn>)
    decreases |rounds|
  {
    if rounds == [] then T == T0 && root == f && units == map[] && ListsAll(prev, given)
    else
      var earlier, r := rounds[..|rounds| - 1], rounds[|rounds| - 1];
      && RoundOk(prev, r) && Leads(T0, f, prev, earlier, r.before, r.root, r.units, r.given)
      && WfTerms(T) && r.after <= T && SortsOk(r.after, r.substs) && Rewritten(r.after, r.substs, T, r.root, root)
      && units == r.known && given == []
  }

  lemma LeadsMore(T0: seq<Pterm>, f: PTRef, prev: seq<Units>, rounds: seq<Round>, r: Round, T: seq<Pterm>, root: PTRef)
    requires Leads(T0, f, prev, rounds, r.before, r.root, r.units, r.given) && RoundOk(prev, r)
    requires WfTerms(T) && r.after <= T && SortsOk(r.after, r.substs) && Rewritten(r.after, r.substs, T, r.root, root)
    ensures Leads(T0, f, prev, rounds + [r], T, root, r.known, [])
  {
    hide RoundOk, WfTerms, SortsOk, Rewritten, ListsAll;
    assert (rounds + [r])[..|rounds|] == rounds;
  }

  /** What a round has found stays known. */
  lemma FactsStayKnown(prev: seq<Units>, r: Round, units: Units, units': Units)
    requires Stores(r) && FactsKnown(prev, r, units) && units.Keys <= units'.Keys
    ensures FactsKnown(prev, r, units')
  {
    hide Lookup, Found, Visited, IsXorEquality, IsTrueXor;
    var visited := Visited(r.before, r.root, prev);
    forall j | 0 <= j < |visited| && IsTrueXor(r.mid, visited[j]) && Lookup(prev, visited[j].tr) == LUndef
      ensures exists e: PTRef :: e in units' && IsXorEquality(r.mid, visited[j].tr, e)
    {
      var e: PTRef :| e in units && IsXorEquality(r.mid, visited[j].tr, e);
    }
  }

  /** At the end the units hold the facts of every round. */
  lemma {:induction false} AllFactsKnown(T0: seq<Pterm>, f: PTRef, prev: seq<Units>, rounds: seq<Round>,
                                         T: seq<Pterm>, root: PTRef, units: Units, given: seq<PtAsgn>)
    requires Leads(T0, f, prev, rounds, T, root, units, given)
    ensures forall i | 0 <= i < |rounds| :: Stores(rounds[i]) && FactsKnown(prev, rounds[i], units)
    decreases |rounds|
  {
    hide FactsKnown, Stores, Handed, SubstsFound, Rewritten, WfTerms, SortsOk;
    if rounds != [] {
      var earlier, r := rounds[..|rounds| - 1], rounds[|rounds| - 1];
      AllFactsKnown(T0, f, prev, earlier, r.before, r.root, r.units, r.given);
      forall i | 0 <= i < |rounds| ensures Stores(rounds[i]) && FactsKnown(prev, rounds[i], units) {
        if i < |earlier| {
          assert rounds[i] == earlier[i];
          FactsStayKnown(prev, earlier[i], r.units, units);
        }
      }
    }
  }

  // ----- every fact is used -----

  /** A variable that a fact handed to the retrieval determines is a key, unless it was used to determine
      another; and an entry is disabled only when its key lies on a loop of the retrieved entries. */
  lemma FactsUsed(prev: seq<Units>, r: Round)
    requires RoundOk(prev, r)
    ensures forall i | 0 <= i < |r.facts| :: Used(r.mid, r.substs, r.facts[i])
    ensures SubstsOk(r.mid, EnableAll(r.retrieved)) && LoopsBroken(r.mid, EnableAll(r.retrieved), r.retrieved)
    ensures forall k | k in r.substs :: r.substs[k].sgn == r.retrieved[k].sgn
  {
    hide Determines, Idempotent, Solves, LoopsBroken, FactsKnown, OnlyFacts;
    var S := EnableAll(r.retrieved);
    assert Retrieved(r.mid, r.facts, S);
    forall i | 0 <= i < |r.facts| ensures Used(r.mid, r.substs, r.facts[i]) {
      assert Used(r.mid, S, r.facts[i]);
    }
    forall k | k in r.substs ensures r.substs[k].sgn == r.retrieved[k].sgn {
      assert k in Enabled(r.substs) <==> k in Enabled(r.retrieved);
    }
  }

  // ----- one more round -----

  lemma {:induction false} LitsGrow(T: seq<Pterm>, T': seq<Pterm>, r: PTRef, sgn: bool)
    requires WfTerms(T) && WfTerms(T') && T <= T' && r < |T|
    ensures Lits(T', r, sgn) == Lits(T, r, sgn) && forall p | p in Lits(T, r, sgn) :: p.tr < |T|
    decreases r, |T[r].args| + 1
  {
    assert WfTerm(T, r);
    if T[r].symb.Not? {
      LitsGrow(T, T', T[r].args[0], !sgn);
    } else if Splits(T[r], sgn) {
      LitsOfGrow(T, T', r, sgn, |T[r].args|);
    }
  }

  lemma {:induction false} LitsOfGrow(T: seq<Pterm>, T': seq<Pterm>, r: PTRef, sgn: bool, n: nat)
    requires WfTerms(T) && WfTerms(T') && T <= T' && r < |T| && n <= |T[r].args|
    ensures LitsOf(T', r, sgn, n) == LitsOf(T, r, sgn, n) && forall p | p in LitsOf(T, r, sgn, n) :: p.tr < |T|
    decreases r, n
  {
    assert WfTerm(T, r);
    if n > 0 {
      LitsGrow(T, T', T[r].args[n - 1], sgn);
      LitsOfGrow(T, T', r, sgn, n - 1);
    }
  }

  lemma {:induction false} StopGrows(T: seq<Pterm>, T': seq<Pterm>, prev: seq<Units>, order: seq<PtAsgn>, i: nat)
    requires T <= T' && i <= |order| && forall k | 0 <= k < |order| :: order[k].tr < |T|
    ensures StopIndex(T', prev, order, i) == StopIndex(T, prev, order, i)
    decreases |order| - i
  {
    hide Lookup;
    if i < |order| {
      assert Blocks(T', prev, order[..i], order[i]) == Blocks(T, prev, order[..i], order[i]);
      StopGrows(T, T', prev, order, i + 1);
    }
  }

  /** The literals visited do not depend on terms added to the store. */
  lemma VisitedGrows(T: seq<Pterm>, T': seq<Pterm>, root: PTRef, prev: seq<Units>)
    requires WfTerms(T) && WfTerms(T') && T <= T' && root < |T|
    ensures Visited(T', root, prev) == Visited(T, root, prev)
    ensures forall j | 0 <= j < |Visited(T, root, prev)| :: Visited(T, root, prev)[j].tr < |T|
  {
    hide Blocks, Dedup, Lits;
    LitsGrow(T, T', root, true);
    DedupMembers(Lits(T, root, true), {});
    var order := Order(T, root);
    forall k | 0 <= k < |order| ensures order[k].tr < |T| {
      assert order[k] in order;
    }
    StopGrows(T, T', prev, order, 0);
  }

  /** A fact that the root gives again is already a unit. */
  lemma GivenAgain(prev: seq<Units>, r: Round, n: Round, table: map<Pterm, PTRef>, t: PTRef)
    requires Stores(r) && Stores(n) && FactsKnown(prev, r, r.known) && n.root == r.root && r.mid <= n.before && Stored(n.mid, table)
    requires GivenByVisited(n.before, n.mid, prev, Visited(n.before, n.root, prev), t)
    ensures t in r.known
  {
    hide Lookup, IsXorEquality, Visited, Stored;
    VisitedGrows(r.before, n.before, r.root, prev);
    var visited := Visited(r.before, r.root, prev);
    var j :| 0 <= j < |visited| && Gives(n.before, n.mid, prev, visited[j], t);
    var p := visited[j];
    assert p.tr < |r.before| && n.before[p.tr] == r.before[p.tr] == r.mid[p.tr];
    if p.tr == t && Collectable(n.before, p) {
      assert Finds(r.before, prev, visited[j], t);
      assert Found(r.before, prev, visited, t);
    } else {
      assert IsTrueXor(r.mid, visited[j]);
      var e: PTRef :| e in r.known && IsXorEquality(r.mid, visited[j].tr, e);
      XorEqualityGrows(r.mid, n.mid, p.tr, e);
      SameXorEquality(n.mid, table, p.tr, e, t);
    }
  }

  /** A further round on the same root, with the units known so far, finds no unit and no substitution. */
  lemma NothingMore(prev: seq<Units>, r: Round, n: Round, table: map<Pterm, PTRef>)
    requires RoundOk(prev, r) && RoundOk(prev, n) && n.root == r.root && n.units == r.known && n.given == []
    requires r.mid <= n.before && Stored(n.mid, table)
    ensures n.known == n.units && n.facts == [] && n.substs == map[] && !ChangesRoot(n)
  {
    hide FactsKnown, Stored, GivenByVisited, Idempotent, Solves, LoopsBroken, Used, Determines;
    forall t | t in n.known ensures t in n.units {
      if t !in n.units {
        GivenAgain(prev, r, n, table, t);
      }
    }
    NoElements(n.facts);
    NothingRetrieved(n.mid, n.facts, EnableAll(n.retrieved));
    assert n.substs.Keys == {};
  }

  lemma NoElements(facts: seq<PtAsgn>)
    ensures facts == [] || exists p :: p in facts
  {
    if facts != [] {
      assert facts[0] in facts;
    }
  }

  lemma NothingRetrieved(T: seq<Pterm>, facts: seq<PtAsgn>, S: Substs)
    requires WfTerms(T) && FactListOk(T, facts) && Retrieved(T, facts, S)
    ensures S.Keys != {} ==> facts != []
  {
    hide Determines, Used;
    if S.Keys != {} {
      var k :| k in S.Keys;
      assert EntryOk(T, facts, k, S[k]);
    }
  }
}
