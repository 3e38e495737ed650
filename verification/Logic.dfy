/** The term store and its simplifying constructors. */
module LogicStore {
  import opened Terms
  import opened Semantics
  import opened Vectors

  /** A term together with the polarity under which it was found. */
  datatype PtAsgn = PtAsgn(tr: PTRef, sgn: bool)

  function AsgnKey(p: PtAsgn): int {
    2 * p.tr + if p.sgn then 0 else 1
  }

  ghost predicate AsgnTrue(T: seq<Pterm>, val: Valuation, p: PtAsgn)
    requires WfTerms(T) && p.tr < |T|
  {
    PropEval(T, val, p.tr) == p.sgn
  }

  /** No if-then-else has been built. */
  predicate IteFree(T: seq<Pterm>) {
    forall r: PTRef | r < |T| :: !T[r].symb.Ite?
  }

  /** One of the two terms is the negation of the other. */
  predicate Complementary(T: seq<Pterm>, x: PTRef, y: PTRef)
    requires x < |T| && y < |T|
  {
    T[x] == Pterm(Not, [y]) || T[y] == Pterm(Not, [x])
  }

  /** Two terms whose comparison does not simplify. */
  predicate Proper(T: seq<Pterm>, args: seq<PTRef>)
    requires InStore(T, args) && |args| == 2
  {
    args[0] > TERM_FALSE && args[1] > TERM_FALSE && args[0] != args[1] && !Complementary(T, args[0], args[1])
  }

  /** What the simplifying constructors leave: no empty conjunction or disjunction, no comparison
      of two constants or with a truth value, no exclusive or that has a truth value itself. */
  predicate ProperSides(T: seq<Pterm>, symb: Sym, args: seq<PTRef>)
    requires InStore(T, args)
  {
    && (symb.And? || symb.Or? ==> args != [])
    && ((symb.Iff? || symb.Xor?) && |args| == 2 ==> Proper(T, args))
    && (symb.UEq? && |args| == 2 ==> !(IsConstSym(T[args[0]].symb) && IsConstSym(T[args[1]].symb)))
  }

  /** Negations are only built over terms that are neither constants nor negations. */
  predicate ProperTerm(T: seq<Pterm>, p: Pterm) {
    && (p.symb.Not? ==>
          && |p.args| == 1 && TERM_FALSE < p.args[0] < |T|
          && !T[p.args[0]].symb.Not?)
    && InStore(T, p.args) && ProperSides(T, p.symb, p.args)
  }

  predicate NoFunctions(T: seq<Pterm>) {
    forall r: PTRef | r < |T| :: !T[r].symb.UF?
  }

  predicate NoConstants(T: seq<Pterm>) {
    forall r: PTRef | r < |T| :: !T[r].symb.UConst?
  }

  /** The store holds no if-then-else, and does not mix function applications with constants of
      non-Boolean sorts; so no equality compares such a constant with anything but a variable. */
  predicate Plain(T: seq<Pterm>) {
    IteFree(T) && (NoFunctions(T) || NoConstants(T))
  }

  /** A term of this symbol keeps the store plain. */
  predicate Fits(T: seq<Pterm>, symb: Sym) {
    (symb.UF? ==> NoConstants(T)) && (symb.UConst? ==> NoFunctions(T))
  }

  /** A symbol that is in the store already fits. */
  lemma StoredFits(T: seq<Pterm>, r: PTRef)
    requires r < |T|
    ensures Plain(T) ==> Fits(T, T[r].symb)
  {
  }

  lemma TermAdded(T: seq<Pterm>, p: Pterm)
    requires WfTerms(T) && ArityOk(p) && InStore(T, p.args)
    requires forall r: PTRef | r < |T| :: ProperTerm(T, T[r])
    requires !p.symb.True? && !p.symb.False? && ProperTerm(T, p)
    requires IsBooleanOperator(p.symb) ==> AllBool(T, p.args)
    requires p.symb.UEq? ==> forall i | 0 <= i < |p.args| :: !HasSortBool(T, p.args[i])
    ensures WfTerms(T + [p]) && forall r: PTRef | r < |T + [p]| :: ProperTerm(T + [p], (T + [p])[r])
  {
    var T' := T + [p];
    forall s: PTRef | s < |T'| ensures WfTerm(T', s) {
      assert s < |T| ==> WfTerm(T, s) && T'[s] == T[s];
    }
    forall s: PTRef | s < |T'| ensures ProperTerm(T', T'[s]) {
      assert s < |T| ==> ProperTerm(T, T[s]) && T'[s] == T[s];
      assert s == |T| ==> T'[s] == p;
    }
  }

  lemma TermAddedPlain(T: seq<Pterm>, p: Pterm)
    ensures !p.symb.Ite? && IteFree(T) ==> IteFree(T + [p])
    ensures !p.symb.Ite? && Fits(T, p.symb) && Plain(T) ==> Plain(T + [p])
  {
  }

  lemma ConstantsStored(T: seq<Pterm>, table: map<Pterm, PTRef>, p: Pterm)
    requires WfTerms(T) && (forall r: PTRef | r < |T| :: T[r] in table && table[T[r]] == r) && p !in table && ArityOk(p)
    ensures !p.symb.True? && !p.symb.False?
  {
    assert T[0] in table && T[1] in table;
  }

  /** A term has only one negation. */
  lemma OneComplement(T: seq<Pterm>, table: map<Pterm, PTRef>, a: PTRef, b: PTRef, x: PTRef)
    requires a < |T| && b < |T| && x < |T|
    requires forall r: PTRef | r < |T| :: T[r] in table && table[T[r]] == r && ProperTerm(T, T[r])
    requires Complementary(T, a, b) && Complementary(T, a, x)
    ensures b == x
  {
    assert ProperTerm(T, T[a]) && ProperTerm(T, T[b]) && ProperTerm(T, T[x]);
    assert table[T[b]] == b && table[T[x]] == x;
  }

  // ----- which term a simplifying constructor gives -----

  /** The term of the negation: the constant, the term under the negation, or the negation stored. */
  predicate Negates(T: seq<Pterm>, a: PTRef, r: PTRef)
    requires a < |T| && r < |T|
  {
    Complementary(T, a, r) || (a == TERM_TRUE && r == TERM_FALSE) || (a == TERM_FALSE && r == TERM_TRUE)
  }

  ghost function Without(args: seq<PTRef>, unit: PTRef): set<PTRef> {
    set a | a in args && a != unit
  }

  /** The conjunction of the arguments: "false" as soon as one of them is, no "true" among its
      arguments, nothing twice, and the arguments in the order of the store. */
  ghost predicate AndResult(T: seq<Pterm>, args: seq<PTRef>, r: PTRef) {
    var kept := Without(args, TERM_TRUE);
    if TERM_FALSE in args then r == TERM_FALSE
    else if kept == {} then r == TERM_TRUE
    else if |kept| == 1 then r in kept
    else r < |T| && T[r].symb.And? && Ascends(Ascending, T[r].args) && forall a :: a in T[r].args <==> a in kept
  }

  lemma OnlyOne(s: set<PTRef>, x: PTRef, y: PTRef)
    requires |s| == 1 && x in s && y in s
    ensures x == y
  {
    assert |s - {x}| == 0;
  }

  lemma OneOrMore(kept: set<PTRef>, newargs: seq<PTRef>)
    requires (forall i, j | 0 <= i < j < |newargs| :: newargs[i] != newargs[j]) && forall a :: a in newargs <==> a in kept
    ensures |newargs| == 0 ==> kept == {}
    ensures |newargs| == 1 ==> kept == {newargs[0]}
    ensures |newargs| > 1 ==> kept != {} && |kept| != 1
  {
    if |newargs| == 1 {
      forall a ensures a in kept <==> a == newargs[0] {
        assert a in newargs <==> a == newargs[0];
      }
    } else if |newargs| > 1 {
      assert newargs[0] in newargs && newargs[1] in newargs && newargs[0] != newargs[1];
      assert |kept - {newargs[0]} - {newargs[1]}| == |kept| - 2;
    }
  }

  lemma AndBuilt(T: seq<Pterm>, args: seq<PTRef>, newargs: seq<PTRef>, r: PTRef)
    requires TERM_FALSE !in args && Ascends(Ascending, newargs) && forall a :: a in newargs <==> a in args && a != TERM_TRUE
    requires |newargs| == 0 ==> r == TERM_TRUE
    requires |newargs| == 1 ==> r == newargs[0]
    requires |newargs| > 1 ==> r < |T| && T[r] == Pterm(And, newargs)
    ensures AndResult(T, args, r)
  {
    assert forall i, j | 0 <= i < j < |newargs| :: Ascending(newargs[i]) < Ascending(newargs[j]);
    OneOrMore(Without(args, TERM_TRUE), newargs);
  }

  /** The same set of arguments gives the same reference, then and later, in whatever order and
      however often they are listed, and whatever "true" stands among them. */
  lemma SameConjunction(T: seq<Pterm>, T': seq<Pterm>, table: map<Pterm, PTRef>, args: seq<PTRef>, args': seq<PTRef>,
                        r: PTRef, r': PTRef)
    requires T <= T' && forall x: PTRef | x < |T'| :: T'[x] in table && table[T'[x]] == x
    requires AndResult(T, args, r) && AndResult(T', args', r')
    requires Without(args, TERM_TRUE) == Without(args', TERM_TRUE)
    ensures r == r'
  {
    var kept := Without(args, TERM_TRUE);
    assert TERM_FALSE in args <==> TERM_FALSE in kept;
    assert TERM_FALSE in args' <==> TERM_FALSE in kept;
    if TERM_FALSE in args || kept == {} {
    } else if |kept| == 1 {
      OnlyOne(kept, r, r');
    } else {
      AscendingUnique(Ascending, T[r].args, T'[r'].args);
      assert T'[r] == T'[r'];
    }
  }

  /** The term without its negation, and whether it had none. */
  function Polarity(T: seq<Pterm>, a: PTRef): PtAsgn
    requires a < |T|
  {
    if T[a].symb.Not? && |T[a].args| == 1 then PtAsgn(T[a].args[0], false) else PtAsgn(a, true)
  }

  /** The reference of the term without its negation; what disjunctions are sorted by. */
  function AtomKey(T: seq<Pterm>): PTRef -> int {
    (a: PTRef) => if a < |T| then Polarity(T, a).tr else 0
  }

  /** The term of an assignment. */
  predicate IsAsgn(T: seq<Pterm>, p: PtAsgn, r: PTRef)
    requires p.tr < |T| && r < |T|
  {
    if p.sgn then r == p.tr else Negates(T, p.tr, r)
  }

  predicate AreAsgns(T: seq<Pterm>, ps: seq<PtAsgn>, rs: seq<PTRef>) {
    |rs| == |ps| && forall k | 0 <= k < |ps| :: ps[k].tr < |T| && rs[k] < |T| && IsAsgn(T, ps[k], rs[k])
  }

  lemma NoneAreAsgns(T: seq<Pterm>, ps: seq<PtAsgn>)
    ensures AreAsgns(T, ps[..0], [])
  {
  }

  lemma AreAsgnsGrow(T: seq<Pterm>, T': seq<Pterm>, ps: seq<PtAsgn>, rs: seq<PTRef>)
    requires T <= T' && AreAsgns(T, ps, rs)
    ensures AreAsgns(T', ps, rs)
  {
  }

  lemma AreAsgnsMore(T: seq<Pterm>, ps: seq<PtAsgn>, rs: seq<PTRef>, p: PtAsgn, r: PTRef)
    requires AreAsgns(T, ps, rs) && p.tr < |T| && r < |T| && IsAsgn(T, p, r)
    ensures AreAsgns(T, ps + [p], rs + [r])
  {
  }

  predicate HasPair(T: seq<Pterm>, args: seq<PTRef>)
    requires InStore(T, args)
  {
    exists i, j | 0 <= i < |args| && 0 <= j < |args| :: Complementary(T, args[i], args[j])
  }

  /** The disjunction of the arguments: "true" as soon as one of them is or two are complementary,
      no "false" among its arguments, nothing twice, and sorted by the terms under the negations. */
  ghost predicate OrResult(T: seq<Pterm>, args: seq<PTRef>, r: PTRef)
    requires InStore(T, args)
  {
    var kept := Without(args, TERM_FALSE);
    if TERM_TRUE in args || HasPair(T, args) then r == TERM_TRUE
    else if kept == {} then r == TERM_FALSE
    else if |kept| == 1 then r in kept
    else r < |T| && T[r].symb.Or? && Ascends(AtomKey(T), T[r].args) && forall a :: a in T[r].args <==> a in kept
  }

  /** All terms of the store are found in the table, and none is improper. */
  ghost predicate Hashed(T: seq<Pterm>, table: map<Pterm, PTRef>) {
    forall r: PTRef | r < |T| :: T[r] in table && table[T[r]] == r && ProperTerm(T, T[r])
  }

  /** The term of an argument's polarity is the argument. */
  lemma AsgnBack(T: seq<Pterm>, table: map<Pterm, PTRef>, a: PTRef, r: PTRef)
    requires WfTerms(T) && Hashed(T, table) && a < |T| && r < |T| && Polarity(T, a).tr < |T| && IsAsgn(T, Polarity(T, a), r)
    ensures r == a
  {
    assert ProperTerm(T, T[a]) && ProperTerm(T, T[r]);
    assert table[T[a]] == a && table[T[r]] == r;
    if T[a].symb.Not? {
      assert T[a] == Pterm(Not, [T[a].args[0]]);
    }
  }

  lemma PolarityFacts(T: seq<Pterm>, table: map<Pterm, PTRef>, a: PTRef)
    requires WfTerms(T) && Hashed(T, table) && a < |T|
    ensures var p := Polarity(T, a);
      p.tr < |T| && (p.tr <= TERM_FALSE ==> p.sgn) && (p.sgn ==> p.tr == a)
      && (p == PtAsgn(TERM_FALSE, true) <==> a == TERM_FALSE) && (p == PtAsgn(TERM_TRUE, true) <==> a == TERM_TRUE)
  {
    assert ProperTerm(T, T[a]) && T[0].symb.True? && T[1].symb.False?;
  }

  /** Complementary arguments are the two assignments of one term. */
  lemma PairIsPolarities(T: seq<Pterm>, table: map<Pterm, PTRef>, a: PTRef, b: PTRef)
    requires WfTerms(T) && Hashed(T, table) && a < |T| && b < |T|
    ensures Complementary(T, a, b) <==> Polarity(T, a).tr == Polarity(T, b).tr && Polarity(T, a).sgn != Polarity(T, b).sgn
    ensures Complementary(T, a, b) ==> Polarity(T, a).tr > TERM_FALSE
  {
    assert ProperTerm(T, T[a]) && ProperTerm(T, T[b]);
  }

  /** Two assignments of one term among the arguments' polarities. */
  lemma TruePair(T: seq<Pterm>, table: map<Pterm, PTRef>, args: seq<PTRef>, asgns: seq<PtAsgn>, p: PtAsgn, q: PtAsgn)
    requires WfTerms(T) && Hashed(T, table) && InStore(T, args) && |asgns| == |args|
    requires forall k | 0 <= k < |args| :: asgns[k] == Polarity(T, args[k])
    requires p in asgns && q in asgns && (p.tr == TERM_TRUE || (p.tr == q.tr && p.sgn != q.sgn))
    ensures OrResult(T, args, TERM_TRUE)
  {
    hide Hashed, WfTerms, Polarity;
    var i :| 0 <= i < |asgns| && asgns[i] == p;
    var j :| 0 <= j < |asgns| && asgns[j] == q;
    PolarityFacts(T, table, args[i]);
    PairIsPolarities(T, table, args[i], args[j]);
    assert p.tr == TERM_TRUE ==> args[i] == TERM_TRUE;
  }

  /** What is left of the arguments, in the order of their atoms. */
  predicate TrsAscend(ps: seq<PtAsgn>) {
    forall i, j | 0 <= i < j < |ps| :: ps[i].tr < ps[j].tr
  }

  lemma OrKept(T: seq<Pterm>, table: map<Pterm, PTRef>, args: seq<PTRef>, asgns: seq<PtAsgn>, kept: seq<PtAsgn>, qs: seq<PTRef>)
    requires WfTerms(T) && Hashed(T, table) && InStore(T, args) && |asgns| == |args|
    requires forall k | 0 <= k < |args| :: asgns[k] == Polarity(T, args[k])
    requires forall p :: p in kept <==> p in asgns && p != PtAsgn(TERM_FALSE, true)
    requires InStore(T, qs) && AreAsgns(T, kept, qs)
    ensures forall k | 0 <= k < |kept| :: qs[k] in args && qs[k] != TERM_FALSE && Polarity(T, qs[k]) == kept[k]
    ensures forall a | a in args && a != TERM_FALSE :: a in qs
  {
    hide Hashed, WfTerms, Polarity, IsAsgn;
    forall k | 0 <= k < |kept| ensures qs[k] in args && qs[k] != TERM_FALSE && Polarity(T, qs[k]) == kept[k] {
      assert kept[k] in asgns;
      var i :| 0 <= i < |asgns| && asgns[i] == kept[k];
      AsgnBack(T, table, args[i], qs[k]);
      PolarityFacts(T, table, args[i]);
    }
    forall a | a in args && a != TERM_FALSE ensures a in qs {
      var i :| 0 <= i < |args| && args[i] == a;
      PolarityFacts(T, table, a);
      assert asgns[i] in kept;
      var k :| 0 <= k < |kept| && kept[k] == asgns[i];
      AsgnBack(T, table, a, qs[k]);
    }
  }

  lemma NoTrs()
    ensures TrsAscend([])
  {
  }

  lemma NextTr(sorted: seq<PtAsgn>, i: nat, kept: seq<PtAsgn>)
    requires SortedBy(AsgnKey, sorted) && i < |sorted| && TrsAscend(kept) && forall p | p in kept :: p in sorted[..i]
    requires kept != [] ==> kept[|kept| - 1] != sorted[i]
    requires kept != [] ==> !(kept[|kept| - 1].tr == sorted[i].tr && kept[|kept| - 1].sgn != sorted[i].sgn)
    ensures TrsAscend(kept + [sorted[i]])
  {
    if kept != [] {
      var last := kept[|kept| - 1];
      assert last in kept;
      var k :| 0 <= k < i && sorted[k] == last;
      assert AsgnKey(sorted[k]) <= AsgnKey(sorted[i]);
    }
  }

  lemma OneSign(kept: seq<PtAsgn>, p: PtAsgn, q: PtAsgn)
    requires TrsAscend(kept) && p in kept && q in kept && p.tr == q.tr
    ensures p == q
  {
    var i :| 0 <= i < |kept| && kept[i] == p;
    var j :| 0 <= j < |kept| && kept[j] == q;
    assert i == j;
  }

  lemma OrBuilt(T: seq<Pterm>, table: map<Pterm, PTRef>, args: seq<PTRef>, asgns: seq<PtAsgn>, kept: seq<PtAsgn>,
                qs: seq<PTRef>, r: PTRef)
    requires WfTerms(T) && Hashed(T, table) && InStore(T, args) && |asgns| == |args|
    requires forall k | 0 <= k < |args| :: asgns[k] == Polarity(T, args[k])
    requires forall p :: p in kept <==> p in asgns && p != PtAsgn(TERM_FALSE, true)
    requires (forall p | p in kept :: p.tr != TERM_TRUE) && TrsAscend(kept)
    requires InStore(T, qs) && AreAsgns(T, kept, qs)
    requires |qs| == 0 ==> r == TERM_FALSE
    requires |qs| == 1 ==> r == qs[0]
    requires |qs| > 1 ==> r < |T| && T[r] == Pterm(Or, qs)
    ensures OrResult(T, args, r)
  {
    hide Hashed, WfTerms, Polarity, IsAsgn, Complementary;
    OrKept(T, table, args, asgns, kept, qs);
    forall i, j | 0 <= i < |args| && 0 <= j < |args| ensures !Complementary(T, args[i], args[j]) {
      PairIsPolarities(T, table, args[i], args[j]);
      assert asgns[i] in asgns && asgns[j] in asgns;
      if asgns[i].tr == asgns[j].tr > TERM_FALSE {
        OneSign(kept, asgns[i], asgns[j]);
      }
    }
    forall i | 0 <= i < |args| ensures args[i] != TERM_TRUE {
      PolarityFacts(T, table, args[i]);
      assert asgns[i] in asgns;
    }
    OneOrMore(Without(args, TERM_FALSE), qs);
  }

  lemma OrDone(T0: seq<Pterm>, T: seq<Pterm>, table: map<Pterm, PTRef>, args: seq<PTRef>, asgns: seq<PtAsgn>,
               kept: seq<PtAsgn>, qs: seq<PTRef>, r: PTRef)
    requires WfTerms(T) && Hashed(T, table) && T0 <= T && InStore(T0, args) && |asgns| == |args|
    requires forall k | 0 <= k < |args| :: asgns[k] == Polarity(T0, args[k])
    requires forall p | p in kept :: p in asgns && p.tr > TERM_FALSE
    requires forall p | p in asgns && p !in kept :: p == PtAsgn(TERM_FALSE, true)
    requires TrsAscend(kept)
    requires InStore(T, qs) && AreAsgns(T, kept, qs)
    requires |qs| == 0 ==> r == TERM_FALSE
    requires |qs| == 1 ==> r == qs[0]
    requires |qs| > 1 ==> r < |T| && T[r] == Pterm(Or, qs)
    ensures InStore(T, args) && OrResult(T, args, r)
  {
    hide Hashed, WfTerms, IsAsgn, TrsAscend, OrResult;
    forall k | 0 <= k < |args| ensures asgns[k] == Polarity(T, args[k]) {
      assert T0[args[k]] == T[args[k]];
    }
    OrBuilt(T, table, args, asgns, kept, qs, r);
  }

  /** The same set of arguments gives the same disjunction, whatever "false" stands among them. */
  lemma SameDisjunction(T: seq<Pterm>, T': seq<Pterm>, table: map<Pterm, PTRef>, args: seq<PTRef>, args': seq<PTRef>,
                        r: PTRef, r': PTRef)
    requires WfTerms(T) && WfTerms(T') && T <= T' && Hashed(T', table) && InStore(T, args) && InStore(T', args')
    requires OrResult(T, args, r) && OrResult(T', args', r')
    requires Without(args, TERM_FALSE) == Without(args', TERM_FALSE)
    ensures r == r'
  {
    hide ProperTerm, Polarity;
    var kept := Without(args, TERM_FALSE);
    assert HasPair(T', args) == HasPair(T, args);
    if HasPair(T', args) {
      PairMoves(T', table, args, args');
    }
    if HasPair(T', args') {
      PairMoves(T', table, args', args);
    }
    assert TERM_TRUE in args <==> TERM_TRUE in kept;
    assert TERM_TRUE in args' <==> TERM_TRUE in kept;
    if TERM_TRUE in args || HasPair(T, args) || kept == {} {
    } else if |kept| == 1 {
      OnlyOne(kept, r, r');
    } else {
      assert WfTerm(T, r);
      AtomsAscendLater(T, T', T[r].args);
      AscendingUnique(AtomKey(T'), T[r].args, T'[r'].args);
      assert T'[r] == T'[r'];
    }
  }

  lemma PairMoves(T: seq<Pterm>, table: map<Pterm, PTRef>, args: seq<PTRef>, args': seq<PTRef>)
    requires WfTerms(T) && Hashed(T, table) && InStore(T, args) && InStore(T, args')
    requires Without(args, TERM_FALSE) == Without(args', TERM_FALSE) && HasPair(T, args)
    ensures HasPair(T, args')
  {
    hide Hashed, WfTerms, Polarity, Complementary;
    var i, j :| 0 <= i < |args| && 0 <= j < |args| && Complementary(T, args[i], args[j]);
    PairIsPolarities(T, table, args[i], args[j]);
    PolarityFacts(T, table, args[i]);
    PolarityFacts(T, table, args[j]);
    assert args[i] in Without(args, TERM_FALSE) && args[j] in Without(args, TERM_FALSE);
    assert args[i] in args' && args[j] in args';
  }

  lemma OrResultGrows(T: seq<Pterm>, T': seq<Pterm>, args: seq<PTRef>, r: PTRef)
    requires WfTerms(T) && T <= T' && InStore(T, args) && r < |T| && OrResult(T, args, r)
    ensures OrResult(T', args, r)
  {
    assert HasPair(T', args) == HasPair(T, args);
    if T[r].symb.Or? && Ascends(AtomKey(T), T[r].args) {
      assert WfTerm(T, r);
      AtomsAscendLater(T, T', T[r].args);
    }
  }

  lemma AtomsAscendLater(T: seq<Pterm>, T': seq<Pterm>, s: seq<PTRef>)
    requires T <= T' && InStore(T, s) && Ascends(AtomKey(T), s)
    ensures Ascends(AtomKey(T'), s)
  {
    forall k | 0 <= k < |s| ensures AtomKey(T')(s[k]) == AtomKey(T)(s[k]) {
    }
  }

  /** The exclusive or of two terms: it collapses on equal and on complementary sides and on
      constants; otherwise it is stored with the sides in the order of the source. */
  predicate XorResult(T: seq<Pterm>, a: PTRef, b: PTRef, r: PTRef)
    requires a < |T| && b < |T| && r < |T|
  {
    if a == b then r == TERM_FALSE
    else if Negates(T, a, b) then r == TERM_TRUE
    else if a == TERM_TRUE then Negates(T, b, r)
    else if b == TERM_TRUE then Negates(T, a, r)
    else if a == TERM_FALSE then r == b
    else if b == TERM_FALSE then r == a
    else T[r] == Pterm(Xor, if Descending(a) <= Descending(b) then [a, b] else [b, a])
  }

  /** The equality of two Boolean terms; its sides stay in the order in which they are given. */
  predicate IffResult(T: seq<Pterm>, a: PTRef, b: PTRef, r: PTRef)
    requires a < |T| && b < |T| && r < |T|
  {
    if Negates(T, a, b) then r == TERM_FALSE
    else if a == TERM_TRUE then r == b
    else if b == TERM_TRUE then r == a
    else if a == TERM_FALSE then Negates(T, b, r)
    else if b == TERM_FALSE then Negates(T, a, r)
    else T[r] == Pterm(Iff, [a, b])
  }

  /** The equality of two terms: between other than Boolean terms it is stored with sorted sides. */
  predicate EqResult(T: seq<Pterm>, a: PTRef, b: PTRef, r: PTRef)
    requires a < |T| && b < |T| && r < |T|
  {
    if a == b then r == TERM_TRUE
    else if IsConstSym(T[a].symb) && IsConstSym(T[b].symb) then r == TERM_FALSE
    else if HasSortBool(T, a) then IffResult(T, a, b, r)
    else T[r] == Pterm(UEq, if a <= b then [a, b] else [b, a])
  }

  /** The implication: a constant when the sides are, otherwise the disjunction with the negated first side. */
  ghost predicate ImplResult(T: seq<Pterm>, a: PTRef, b: PTRef, r: PTRef)
    requires a < |T| && b < |T|
  {
    if a == TERM_FALSE || b == TERM_TRUE then r == TERM_TRUE
    else if a == TERM_TRUE && b == TERM_FALSE then r == TERM_FALSE
    else exists neg: PTRef :: neg < |T| && Negates(T, a, neg) && OrResult(T, [neg, b], r)
  }

  /** A term has one negation. */
  lemma OneNegation(T: seq<Pterm>, table: map<Pterm, PTRef>, a: PTRef, b: PTRef, x: PTRef)
    requires WfTerms(T) && Hashed(T, table) && a < |T| && b < |T| && x < |T| && Negates(T, a, b) && Negates(T, a, x)
    ensures b == x
  {
    assert ProperTerm(T, T[a]) && ProperTerm(T, T[b]) && ProperTerm(T, T[x]);
    assert table[T[b]] == b && table[T[x]] == x;
  }

  lemma NegatesGrows(T: seq<Pterm>, T': seq<Pterm>, a: PTRef, r: PTRef)
    requires T <= T' && a < |T| && r < |T|
    ensures Negates(T', a, r) == Negates(T, a, r)
  {
  }

  /** Comparing with the negation of the other side is what the source does. */
  lemma NegatesBy(T: seq<Pterm>, table: map<Pterm, PTRef>, a: PTRef, b: PTRef, neg: PTRef)
    requires WfTerms(T) && Hashed(T, table) && a < |T| && b < |T| && neg < |T| && Negates(T, b, neg)
    ensures Negates(T, a, b) <==> a == neg
  {
    hide Hashed;
    if Negates(T, a, b) {
      OneNegation(T, table, b, a, neg);
    }
  }

  lemma SidesProper(T: seq<Pterm>, table: map<Pterm, PTRef>, args: seq<PTRef>, neg: PTRef)
    requires WfTerms(T) && Hashed(T, table) && InStore(T, args) && |args| == 2 && neg < |T| && Negates(T, args[1], neg)
    requires args[0] > TERM_FALSE && args[1] > TERM_FALSE && args[0] != args[1] && args[0] != neg
    ensures Proper(T, args) && ProperTerm(T, Pterm(Iff, args))
  {
    NegatesBy(T, table, args[0], args[1], neg);
  }

  lemma ProperIff(T0: seq<Pterm>, T: seq<Pterm>, args: seq<PTRef>, r: PTRef)
    requires T0 <= T && InStore(T0, args) && |args| == 2 && r < |T| && IffResult(T, args[0], args[1], r)
    ensures Proper(T0, args) ==> T[r] == Pterm(Iff, args)
  {
    assert args == [args[0], args[1]];
  }

  lemma XorSame(T: seq<Pterm>, a: PTRef)
    requires a < |T| && TERM_FALSE < |T|
    ensures XorResult(T, a, a, TERM_FALSE)
  {
  }

  lemma XorDone(T: seq<Pterm>, table: map<Pterm, PTRef>, a: PTRef, b: PTRef, neg: PTRef, r: PTRef)
    requires WfTerms(T) && Hashed(T, table) && a < |T| && b < |T| && neg < |T| && r < |T| && a != b && Negates(T, b, neg)
    requires
      if a == neg then r == TERM_TRUE
      else if a == TERM_TRUE then Negates(T, b, r)
      else if b == TERM_TRUE then Negates(T, a, r)
      else if a == TERM_FALSE then r == b
      else if b == TERM_FALSE then r == a
      else T[r] == Pterm(Xor, if Descending(a) <= Descending(b) then [a, b] else [b, a])
    ensures XorResult(T, a, b, r)
  {
    hide Hashed, Negates;
    NegatesBy(T, table, a, b, neg);
  }

  lemma IffDone(T: seq<Pterm>, table: map<Pterm, PTRef>, a: PTRef, b: PTRef, neg: PTRef, r: PTRef)
    requires WfTerms(T) && Hashed(T, table) && a < |T| && b < |T| && neg < |T| && r < |T| && Negates(T, b, neg)
    requires
      if a == neg then r == TERM_FALSE
      else if a == TERM_TRUE then r == b
      else if b == TERM_TRUE then r == a
      else if a == TERM_FALSE then Negates(T, b, r)
      else if b == TERM_FALSE then Negates(T, a, r)
      else T[r] == Pterm(Iff, [a, b])
    ensures IffResult(T, a, b, r)
  {
    hide Hashed, Negates;
    NegatesBy(T, table, a, b, neg);
  }

  lemma EqDone(T0: seq<Pterm>, T: seq<Pterm>, args: seq<PTRef>, r: PTRef)
    requires WfTerms(T0) && WfTerms(T) && T0 <= T && InStore(T0, args) && |args| == 2 && r < |T|
    requires HasSortBool(T0, args[0]) == HasSortBool(T0, args[1])
    requires
      if IsConstSym(T0[args[0]].symb) && IsConstSym(T0[args[1]].symb) then r == (if args[0] == args[1] then TERM_TRUE else TERM_FALSE)
      else if args[0] == args[1] then r == TERM_TRUE
      else if HasSortBool(T0, args[0]) then IffResult(T, args[0], args[1], r)
      else T[r] == Pterm(UEq, if args[0] <= args[1] then args else [args[1], args[0]])
    ensures EqResult(T, args[0], args[1], r)
    ensures Proper(T0, args) && HasSortBool(T0, args[0]) ==> T[r] == Pterm(Iff, args)
  {
    assert args == [args[0], args[1]];
    if Proper(T0, args) && HasSortBool(T0, args[0]) {
      ProperNotConst(T0, args);
    }
  }

  /** Exchanging the sides of an exclusive or gives the same reference, then and later. */
  lemma SameXor(T: seq<Pterm>, T': seq<Pterm>, table: map<Pterm, PTRef>, a: PTRef, b: PTRef, r: PTRef, r': PTRef)
    requires WfTerms(T') && T <= T' && Hashed(T', table) && a < |T| && b < |T| && r < |T| && r' < |T'|
    requires XorResult(T, a, b, r) && (XorResult(T', a, b, r') || XorResult(T', b, a, r'))
    ensures r == r'
  {
    hide ProperTerm;
    var neg := if a == TERM_TRUE then b else a;
    if (a == TERM_TRUE || b == TERM_TRUE) && Negates(T', neg, r) && Negates(T', neg, r') {
      OneNegation(T', table, neg, r, r');
    }
    assert table[T'[r]] == r && table[T'[r']] == r';
  }

  /** Exchanging the sides of an equality gives the same reference, except when both are Boolean
      and the equality does not collapse: then the two orders are two different terms. */
  lemma SameEquality(T: seq<Pterm>, T': seq<Pterm>, table: map<Pterm, PTRef>, a: PTRef, b: PTRef, r: PTRef, r': PTRef)
    requires WfTerms(T') && T <= T' && Hashed(T', table) && a < |T| && b < |T| && r < |T| && r' < |T'|
    requires HasSortBool(T, a) == HasSortBool(T, b) && EqResult(T, a, b, r) && EqResult(T', b, a, r')
    ensures r != r' <==> HasSortBool(T, a) && Proper(T, [a, b])
  {
    hide ProperTerm;
    var neg := if a == TERM_FALSE then b else a;
    if (a == TERM_FALSE || b == TERM_FALSE) && Negates(T', neg, r) && Negates(T', neg, r') {
      OneNegation(T', table, neg, r, r');
    }
    assert table[T'[r]] == r && table[T'[r']] == r';
    assert [a, b] == [b, a] ==> [a, b][0] == [b, a][0];
    if HasSortBool(T, a) && Proper(T, [a, b]) {
      ProperNotConst(T', [a, b]);
    }
  }

  class Logic {
    var terms: seq<Pterm>
    var table: map<Pterm, PTRef>      // hash consing: every stored term is found again

    ghost predicate Valid()
      reads this
    {
      && WfTerms(terms)
      && (forall r: PTRef | r < |terms| :: terms[r] in table && table[terms[r]] == r)
      && (forall p | p in table :: table[p] < |terms| && terms[table[p]] == p)
      && (forall r: PTRef | r < |terms| :: ProperTerm(terms, terms[r]))
    }

    constructor ()
      ensures Valid()
      ensures terms == [Pterm(True, []), Pterm(False, [])]
    {
      terms := [Pterm(True, []), Pterm(False, [])];
      table := map[Pterm(True, []) := 0, Pterm(False, []) := 1];
    }

    /** Returns the reference of the given term, creating the term when it is not stored yet. */
    method InsertTermHash(symb: Sym, args: seq<PTRef>) returns (r: PTRef)
      requires Valid()
      requires ArityOk(Pterm(symb, args)) && InStore(terms, args)
      requires IsBooleanOperator(symb) ==> AllBool(terms, args)
      requires ProperTerm(terms, Pterm(symb, args))
      requires symb.UEq? ==> forall i | 0 <= i < |args| :: !HasSortBool(terms, args[i])
      modifies this
      ensures Valid() && old(terms) <= terms && r < |terms| && terms[r] == Pterm(symb, args)
      ensures !symb.Ite? && IteFree(old(terms)) ==> IteFree(terms)
      ensures !symb.Ite? && Fits(old(terms), symb) && Plain(old(terms)) ==> Plain(terms)
      ensures Pterm(symb, args) in old(table) ==> terms == old(terms) && r == old(table)[Pterm(symb, args)]
    {
      hide WfTerms, ProperTerm, IteFree, Plain, Fits;
      var p := Pterm(symb, args);
      if p in table {
        r := table[p];
      } else {
        r := |terms|;
        ConstantsStored(terms, table, p);
        TermAdded(terms, p);
        TermAddedPlain(terms, p);
        terms := terms + [p];
        table := table[p := r];
      }
    }

    method MkNot(a: PTRef) returns (r: PTRef)
      requires Valid() && a < |terms| && HasSortBool(terms, a)
      modifies this
      ensures Valid() && old(terms) <= terms && r < |terms| && HasSortBool(terms, r)
      ensures forall val: Valuation :: PropEval(terms, val, r) == !PropEval(terms, val, a)
      ensures Negates(terms, a, r) && (a > TERM_FALSE ==> r > TERM_FALSE && Complementary(terms, a, r))
      ensures OnlyVarsOf(old(terms), [a], terms, r)
      ensures IteFree(old(terms)) ==> IteFree(terms)
      ensures Plain(old(terms)) ==> Plain(terms)
    {
      hide IteFree, Plain, OnlyVarsOf, Proper;
      ghost var T0 := terms;
      assert WfTerm(terms, a);
      assert terms[0].symb.True? && terms[1].symb.False?;
      if terms[a].symb.Not? {
        r := terms[a].args[0];
        OnlyVarsNegated(T0, a);
      } else if a == TERM_TRUE {
        r := TERM_FALSE;
        OnlyVarsConst(T0, [a], terms, r);
      } else if a == TERM_FALSE {
        r := TERM_TRUE;
        OnlyVarsConst(T0, [a], terms, r);
      } else {
        r := InsertTermHash(Not, [a]);
        OnlyVarsSub(T0, [a], terms, [a]);
        OnlyVarsNew(T0, [a], terms, r);
      }
    }

    /** Conjunction: drops duplicates and "true", and collapses on "false". */
    method MkAnd(args: seq<PTRef>) returns (r: PTRef)
      requires Valid() && AllBool(terms, args)
      modifies this
      ensures Valid() && old(terms) <= terms && r < |terms| && HasSortBool(terms, r)
      ensures forall val: Valuation :: PropEval(terms, val, r) == AllTrue(old(terms), val, args)
      ensures AndResult(terms, args, r)
      ensures OnlyVarsOf(old(terms), args, terms, r)
      ensures IteFree(old(terms)) ==> IteFree(terms)
      ensures Plain(old(terms)) ==> Plain(terms)
    {
      hide IteFree, Plain, OnlyVarsOf, AllTrue, PropEval, SortBy, Ascends, SortedBy;
      ghost var T0 := terms;
      SortSorted(Ascending, args);
      var distinct := DropDuplicates(SortBy(Ascending, args));
      var newargs: seq<PTRef> := [];
      AscendsNone();
      for i := 0 to |distinct|
        modifies {}
        invariant forall a :: a in newargs <==> a in distinct[..i] && a != TERM_TRUE
        invariant TERM_FALSE !in distinct[..i] && Ascends(Ascending, newargs)
      {
        if distinct[i] == TERM_FALSE {
          r := TERM_FALSE;
          FalseConjunct(T0, args);
          OnlyVarsConst(T0, args, terms, r);
          return;
        }
        if distinct[i] != TERM_TRUE {
          NextAscends(distinct, i, newargs);
          newargs := newargs + [distinct[i]];
        }
      }
      assert distinct[..|distinct|] == distinct;
      assert forall a :: a in newargs <==> a in args && a != TERM_TRUE;
      DroppedTrue(T0, args, newargs);
      OnlyVarsSub(T0, args, terms, newargs);
      if |newargs| == 0 {
        r := TERM_TRUE;
        OnlyVarsConst(T0, args, terms, r);
      } else if |newargs| == 1 {
        r := newargs[0];
      } else {
        r := InsertTermHash(And, newargs);
        AndInserted(T0, args, terms, newargs, r);
      }
      AndBuilt(terms, args, newargs, r);
    }

    /** The term of an assignment: the term itself or its negation. */
    method MkAsgn(p: PtAsgn) returns (r: PTRef)
      requires Valid() && AsgnOk(terms, p)
      modifies this
      ensures Valid() && old(terms) <= terms && r < |terms| && HasSortBool(terms, r)
      ensures forall val: Valuation :: PropEval(terms, val, r) == AsgnTrue(old(terms), val, p)
      ensures IsAsgn(terms, p, r)
      ensures OnlyVarsOf(old(terms), [p.tr], terms, r)
      ensures IteFree(old(terms)) ==> IteFree(terms)
      ensures Plain(old(terms)) ==> Plain(terms)
    {
      ghost var T0 := terms;
      if p.sgn {
        r := p.tr;
        OnlyVarsArg(T0, [p.tr], terms, 0);
      } else {
        r := MkNot(p.tr);
        forall val: Valuation ensures PropEval(terms, val, p.tr) == PropEval(T0, val, p.tr) {
          PropEvalPrefix(T0, terms, val, p.tr);
        }
      }
    }

    /** Strips the negation of every argument, remembering it as a polarity. */
    method SplitSigns(args: seq<PTRef>) returns (asgns: seq<PtAsgn>)
      requires Valid() && AllBool(terms, args)
      ensures AllAsgnOk(terms, asgns)
      ensures forall val: Valuation :: SomeAsgn(terms, val, asgns) == SomeTrue(terms, val, args)
      ensures forall k | 0 <= k < |asgns| :: OnlyVarsOf(terms, args, terms, asgns[k].tr)
      ensures |asgns| == |args| && forall k | 0 <= k < |args| :: asgns[k] == Polarity(terms, args[k])
    {
      hide SomeAsgn, SomeTrue, OnlyVarsOf;
      asgns := [];
      NoAsgns(terms, asgns);
      for i := 0 to |args|
        invariant AllAsgnOk(terms, asgns)
        invariant forall k | 0 <= k < |asgns| :: OnlyVarsOf(terms, args, terms, asgns[k].tr)
        invariant forall val: Valuation :: SomeAsgn(terms, val, asgns) == SomeTrue(terms, val, args[..i])
        invariant |asgns| == i && forall k | 0 <= k < i :: asgns[k] == Polarity(terms, args[k])
      {
        assert WfTerm(terms, args[i]) && ProperTerm(terms, terms[args[i]]);
        var p := PtAsgn(args[i], true);
        OnlyVarsArg(terms, args, terms, i);
        if terms[args[i]].symb.Not? {
          p := PtAsgn(terms[args[i]].args[0], false);
          OnlyVarsNegated(terms, args[i]);
          OnlyVarsTrans(terms, args, terms, [args[i]], terms, p.tr);
        }
        SplitStep(terms, args, i, asgns, p);
        asgns := asgns + [p];
      }
      assert args[..|args|] == args;
    }

    /** Disjunction: drops duplicates and "false", and collapses on "true" or on a complementary pair. */
    method MkOr(args: seq<PTRef>) returns (r: PTRef)
      requires Valid() && AllBool(terms, args)
      modifies this
      ensures Valid() && old(terms) <= terms && r < |terms| && HasSortBool(terms, r)
      ensures forall val: Valuation :: PropEval(terms, val, r) == SomeTrue(old(terms), val, args)
      ensures InStore(terms, args) && OrResult(terms, args, r)
      ensures OnlyVarsOf(old(terms), args, terms, r)
      ensures IteFree(old(terms)) ==> IteFree(terms)
      ensures Plain(old(terms)) ==> Plain(terms)
    {
      hide IteFree, Plain, OnlyVarsOf, SomeTrue, PropEval, SomeAsgn, AsgnTrue, WfTerms, ProperTerm, SortBy, SortedBy,
        TrsAscend, OrResult, IsAsgn, Polarity;
      ghost var T0 := terms;
      var asgns := SplitSigns(args);
      SortSorted(AsgnKey, asgns);
      var clash, kept := KeepDistinct(SortBy(AsgnKey, asgns));
      if clash {
        r := TERM_TRUE;
        ghost var p, q :| p in asgns && q in asgns && (p.tr == TERM_TRUE || (q.tr == p.tr && q.sgn != p.sgn));
        TrueDisjunct(T0, args, asgns, p, q);
        TruePair(T0, table, args, asgns, p, q);
        return;
      }
      PositiveFalse(T0, asgns);
      KeptMeaning(T0, args, asgns, kept);
      ghost var qs: seq<PTRef> := [];
      if |kept| == 0 {
        r := TERM_FALSE;
        NothingKept(T0, args);
      } else if |kept| == 1 {
        r := MkAsgn(kept[0]);
        qs := [r];
        OneKept(T0, kept);
        OnlyVarsTrans(T0, args, T0, AsgnTerms(kept), terms, r);
      } else {
        r := OrOfAsgns(kept);
        qs := terms[r].args;
        OnlyVarsTrans(T0, args, T0, AsgnTerms(kept), terms, r);
      }
      OrDone(T0, terms, table, args, asgns, kept, qs, r);
    }

    method MkXor(args: seq<PTRef>) returns (r: PTRef)
      requires Valid() && AllBool(terms, args) && |args| == 2
      modifies this
      ensures Valid() && old(terms) <= terms && r < |terms| && HasSortBool(terms, r)
      ensures forall val: Valuation ::
        PropEval(terms, val, r) == (PropEval(old(terms), val, args[0]) != PropEval(old(terms), val, args[1]))
      ensures XorResult(terms, args[0], args[1], r)
      ensures OnlyVarsOf(old(terms), args, terms, r)
      ensures IteFree(old(terms)) ==> IteFree(terms)
      ensures Plain(old(terms)) ==> Plain(terms)
    {
      hide IteFree, Plain, OnlyVarsOf, ProperTerm, PropEval, WfTerms, Negates, Complementary, Proper, XorResult;
      ghost var T0 := terms;
      ConstValues(T0);
      if args[0] == args[1] {
        r := TERM_FALSE;
        OnlyVarsConst(T0, args, terms, r);
        XorSame(terms, args[0]);
      } else {
        var neg := MkNot(args[1]);
        ghost var T1 := terms;
        r := XorWith(args, neg);
        XorOfSame(T0, args, T1, terms, r);
      }
    }

    /** The exclusive or of two different terms, given the negation of the second. */
    method XorWith(args: seq<PTRef>, neg: PTRef) returns (r: PTRef)
      requires Valid() && AllBool(terms, args) && |args| == 2 && args[0] != args[1]
      requires neg < |terms| && HasSortBool(terms, neg) && Negates(terms, args[1], neg)
      requires forall val: Valuation :: PropEval(terms, val, neg) == !PropEval(terms, val, args[1])
      modifies this
      ensures Valid() && old(terms) <= terms && r < |terms| && HasSortBool(terms, r)
      ensures forall val: Valuation ::
        PropEval(terms, val, r) == (PropEval(old(terms), val, args[0]) != PropEval(old(terms), val, args[1]))
      ensures XorResult(terms, args[0], args[1], r)
      ensures OnlyVarsOf(old(terms), args, terms, r)
      ensures IteFree(old(terms)) ==> IteFree(terms)
      ensures Plain(old(terms)) ==> Plain(terms)
    {
      hide IteFree, Plain, OnlyVarsOf, ProperTerm, PropEval, WfTerms, Negates, Complementary, Proper, XorResult;
      ghost var T0 := terms;
      ConstValues(T0);
      if args[0] == neg {
        r := TERM_TRUE;
        OnlyVarsConst(T0, args, terms, r);
      } else if args[0] == TERM_TRUE || args[1] == TERM_TRUE {
        r := MkNot(if args[0] == TERM_TRUE then args[1] else args[0]);
        NegatedVars(T0, args, T0, terms, if args[0] == TERM_TRUE then 1 else 0, r);
        PropEvalGrows(T0, terms, args);
      } else if args[0] == TERM_FALSE || args[1] == TERM_FALSE {
        r := if args[0] == TERM_FALSE then args[1] else args[0];
        OnlyVarsSub(T0, args, terms, args);
      } else {
        SidesProper(terms, table, args, neg);
        r := InsertXor(args);
      }
      NegatesGrows(T0, terms, args[1], neg);
      XorDone(terms, table, args[0], args[1], neg, r);
    }

    /** The exclusive or is stored with sorted arguments. */
    method InsertXor(args: seq<PTRef>) returns (r: PTRef)
      requires Valid() && AllBool(terms, args) && |args| == 2
      requires Proper(terms, args)
      modifies this
      ensures Valid() && old(terms) <= terms && r < |terms| && HasSortBool(terms, r)
      ensures forall val: Valuation ::
        PropEval(terms, val, r) == (PropEval(old(terms), val, args[0]) != PropEval(old(terms), val, args[1]))
      ensures terms[r] == Pterm(Xor, if Descending(args[0]) <= Descending(args[1]) then args else [args[1], args[0]])
      ensures OnlyVarsOf(old(terms), args, terms, r)
      ensures IteFree(old(terms)) ==> IteFree(terms)
      ensures Plain(old(terms)) ==> Plain(terms)
    {
      hide IteFree, Plain, OnlyVarsOf, SortBy, PropEval, WfTerms;
      ghost var T0 := terms;
      var newargs := SortBy(Descending, args);
      SortTwo(args);
      r := InsertTermHash(Xor, newargs);
      XorInserted(T0, args, terms, newargs, r);
    }

    method MkImpl(args: seq<PTRef>) returns (r: PTRef)
      requires Valid() && AllBool(terms, args) && |args| == 2
      modifies this
      ensures Valid() && old(terms) <= terms && r < |terms| && HasSortBool(terms, r)
      ensures forall val: Valuation ::
        PropEval(terms, val, r) == (PropEval(old(terms), val, args[0]) ==> PropEval(old(terms), val, args[1]))
      ensures ImplResult(terms, args[0], args[1], r)
      ensures OnlyVarsOf(old(terms), args, terms, r)
      ensures IteFree(old(terms)) ==> IteFree(terms)
      ensures Plain(old(terms)) ==> Plain(terms)
    {
      hide IteFree, Plain, OnlyVarsOf, PropEval, WfTerms, ProperTerm, OrResult, Negates, Complementary;
      ghost var T0 := terms;
      ConstValues(T0);
      if args[0] == TERM_FALSE || args[1] == TERM_TRUE {
        r := TERM_TRUE;
        OnlyVarsConst(T0, args, terms, r);
      } else if args[0] == TERM_TRUE && args[1] == TERM_FALSE {
        r := TERM_FALSE;
        OnlyVarsConst(T0, args, terms, r);
      } else {
        var neg := MkNot(args[0]);
        ghost var T1 := terms;
        PropEvalGrows(T0, T1, args);
        NegatedVars(T0, args, T0, T1, 0, neg);
        OnlyVarsArg(T0, args, T1, 1);
        r := MkOr([neg, args[1]]);
        NegatesGrows(T1, terms, args[0], neg);
        OnlyVarsTrans(T0, args, T1, [neg, args[1]], terms, r);
        forall val: Valuation ensures SomeTrue(T1, val, [neg, args[1]]) == (PropEval(T1, val, neg) || PropEval(T1, val, args[1])) {
          assert neg in [neg, args[1]] && args[1] in [neg, args[1]];
        }
      }
    }

    /** Equality of two Boolean terms. */
    method MkIff(args: seq<PTRef>) returns (r: PTRef)
      requires Valid() && AllBool(terms, args) && |args| == 2 && args[0] != args[1]
      requires !(IsConstSym(terms[args[0]].symb) && IsConstSym(terms[args[1]].symb))
      modifies this
      ensures Valid() && old(terms) <= terms && r < |terms| && HasSortBool(terms, r)
      ensures forall val: Valuation ::
        PropEval(terms, val, r) == (PropEval(old(terms), val, args[0]) == PropEval(old(terms), val, args[1]))
      ensures Proper(old(terms), args) ==> terms[r] == Pterm(Iff, args)
      ensures IffResult(terms, args[0], args[1], r)
      ensures OnlyVarsOf(old(terms), args, terms, r)
      ensures IteFree(old(terms)) ==> IteFree(terms)
      ensures Plain(old(terms)) ==> Plain(terms)
    {
      hide IteFree, Plain, OnlyVarsOf, PropEval, WfTerms, Negates, Complementary, ProperTerm, Proper, IffResult;
      ghost var T0 := terms;
      var neg := MkNot(args[1]);
      ghost var T1 := terms;
      r := IffWith(args, neg);
      IffOfSame(T0, args, T1, terms, r);
      ProperIff(T0, terms, args, r);
    }

    /** The equality of two different Boolean terms, given the negation of the second. */
    method IffWith(args: seq<PTRef>, neg: PTRef) returns (r: PTRef)
      requires Valid() && AllBool(terms, args) && |args| == 2 && args[0] != args[1]
      requires neg < |terms| && HasSortBool(terms, neg) && Negates(terms, args[1], neg)
      requires forall val: Valuation :: PropEval(terms, val, neg) == !PropEval(terms, val, args[1])
      modifies this
      ensures Valid() && old(terms) <= terms && r < |terms| && HasSortBool(terms, r)
      ensures forall val: Valuation ::
        PropEval(terms, val, r) == (PropEval(old(terms), val, args[0]) == PropEval(old(terms), val, args[1]))
      ensures IffResult(terms, args[0], args[1], r)
      ensures OnlyVarsOf(old(terms), args, terms, r)
      ensures IteFree(old(terms)) ==> IteFree(terms)
      ensures Plain(old(terms)) ==> Plain(terms)
    {
      hide IteFree, Plain, OnlyVarsOf, PropEval, WfTerms, Negates, Complementary, ProperTerm, Proper, IffResult;
      ghost var T0 := terms;
      ConstValues(T0);
      if args[0] == neg {
        r := TERM_FALSE;
        OnlyVarsConst(T0, args, terms, r);
      } else if args[0] == TERM_TRUE || args[1] == TERM_TRUE {
        r := if args[0] == TERM_TRUE then args[1] else args[0];
        OnlyVarsSub(T0, args, terms, args);
      } else if args[0] == TERM_FALSE || args[1] == TERM_FALSE {
        r := MkNot(if args[0] == TERM_FALSE then args[1] else args[0]);
        NegatedVars(T0, args, T0, terms, if args[0] == TERM_FALSE then 1 else 0, r);
        PropEvalGrows(T0, terms, args);
      } else {
        SidesProper(terms, table, args, neg);
        r := InsertTermHash(Iff, args);
        IffInserted(T0, args, terms, r);
      }
      assert [args[0], args[1]] == args;
      NegatesGrows(T0, terms, args[1], neg);
      IffDone(terms, table, args[0], args[1], neg, r);
    }

    method MkEq(args: seq<PTRef>) returns (r: PTRef)
      requires Valid() && InStore(terms, args) && |args| == 2
      requires HasSortBool(terms, args[0]) == HasSortBool(terms, args[1])
      modifies this
      ensures Valid() && old(terms) <= terms && r < |terms|
      ensures forall M: Interp :: Eval(terms, M, r) == B(Eval(old(terms), M, args[0]) == Eval(old(terms), M, args[1]))
      ensures Proper(old(terms), args) && HasSortBool(old(terms), args[0]) ==> terms[r] == Pterm(Iff, args)
      ensures EqResult(terms, args[0], args[1], r)
      ensures OnlyVarsOf(old(terms), args, terms, r)
      ensures IteFree(old(terms)) ==> IteFree(terms)
      ensures Plain(old(terms)) ==> Plain(terms)
    {
      hide IteFree, Plain, OnlyVarsOf, WfTerms, ProperSides, EvalSym, Eval, IffResult, EqResult, Negates, Complementary, Proper, SortBy;
      ghost var T0 := terms;
      ConstTerms(terms);
      if IsConstSym(terms[args[0]].symb) && IsConstSym(terms[args[1]].symb) {
        r := if args[0] == args[1] then TERM_TRUE else TERM_FALSE;
        ConstsEqual(terms, args[0], args[1], table);
        EvalConsts(terms);
        OnlyVarsConst(T0, args, terms, r);
      } else if args[0] == args[1] {
        r := TERM_TRUE;
        EvalConsts(terms);
        OnlyVarsConst(T0, args, terms, r);
      } else if HasSortBool(terms, args[0]) {
        r := MkIff(args);
        LiftBinary(T0, terms, args, r, Iff);
      } else {
        // equality commutes: it is stored with sorted arguments
        var newargs := SortBy(Ascending, args);
        SortedTwo(args);
        EqSides(terms, args, newargs);
        r := InsertTermHash(UEq, newargs);
        EqInserted(T0, terms, args, newargs, r);
      }
      EqDone(T0, terms, args, r);
    }

    /** Builds a term through the simplifying constructor of its symbol. */
    method InsertTerm(symb: Sym, args: seq<PTRef>) returns (r: PTRef)
      requires Valid() && InStore(terms, args) && ArityOk(Pterm(symb, args)) && !symb.Ite?
      requires IsBooleanOperator(symb) ==> AllBool(terms, args)
      requires symb.UEq? ==> forall i | 0 <= i < |args| :: !HasSortBool(terms, args[i])
      modifies this
      ensures Valid() && old(terms) <= terms && r < |terms|
      ensures forall M: Interp :: Eval(terms, M, r) == EvalSymOf(old(terms), M, symb, args)
      ensures (symb.And? ==> AndResult(terms, args, r)) && (symb.Or? ==> InStore(terms, args) && OrResult(terms, args, r))
      ensures symb.Not? ==> Negates(terms, args[0], r)
      ensures symb.Xor? ==> XorResult(terms, args[0], args[1], r)
      ensures symb.Implies? ==> ImplResult(terms, args[0], args[1], r)
      ensures symb.Iff? || symb.UEq? ==> EqResult(terms, args[0], args[1], r)
      ensures !IsVarSym(symb) ==> OnlyVarsOf(old(terms), args, terms, r)
      ensures IteFree(old(terms)) ==> IteFree(terms)
      ensures Plain(old(terms)) && Fits(old(terms), symb) ==> Plain(terms)
    {
      hide IteFree, Plain, OnlyVarsOf, WfTerms, AndResult, OrResult, XorResult, ImplResult, EqResult, Negates;
      ghost var T0 := terms;
      ConstTerms(terms);
      if symb.And? {
        r := MkAnd(args);
        LiftJoin(T0, terms, args, r, symb);
      } else if symb.Or? {
        r := MkOr(args);
        LiftJoin(T0, terms, args, r, symb);
      } else if symb.Xor? {
        r := MkXor(args);
        LiftBinary(T0, terms, args, r, symb);
      } else if symb.Not? {
        r := MkNot(args[0]);
        LiftNot(T0, terms, args, r);
      } else if symb.Iff? || symb.UEq? {
        r := MkEq(args);
        LiftEq(T0, terms, args, r, symb);
      } else if symb.Implies? {
        r := MkImpl(args);
        LiftBinary(T0, terms, args, r, symb);
      } else if symb.True? {
        r := TERM_TRUE;
        EvalConsts(terms);
        OnlyVarsConst(T0, args, terms, r);
      } else if symb.False? {
        r := TERM_FALSE;
        EvalConsts(terms);
        OnlyVarsConst(T0, args, terms, r);
      } else {
        r := InsertTermHash(symb, args);
        LiftInserted(T0, terms, args, r);
      }
    }

    method OrOfAsgns(ps: seq<PtAsgn>) returns (r: PTRef)
      requires Valid() && AllAsgnOk(terms, ps) && ps != []
      modifies this
      ensures Valid() && old(terms) <= terms && r < |terms| && HasSortBool(terms, r)
      ensures forall val: Valuation :: PropEval(terms, val, r) == SomeAsgn(old(terms), val, ps)
      ensures terms[r].symb.Or? && |terms[r].args| == |ps| && InStore(terms, terms[r].args)
      ensures AreAsgns(terms, ps, terms[r].args)
      ensures OnlyVarsOf(old(terms), AsgnTerms(ps), terms, r)
      ensures IteFree(old(terms)) ==> IteFree(terms)
      ensures Plain(old(terms)) ==> Plain(terms)
    {
      hide IteFree, Plain, OnlyVarsOf, PropEval, SomeAsgn, SomeTrue, AsgnTrue, WfTerms, IsAsgn;
      ghost var T0 := terms;
      var newargs := AsgnsToTerms(ps);
      ghost var T1 := terms;
      r := InsertTermHash(Or, newargs);
      AreAsgnsGrow(T1, terms, ps, newargs);
      OrInserted(T0, AsgnTerms(ps), T1, terms, newargs, r);
    }

    /** The terms of the assignments. */
    method AsgnsToTerms(ps: seq<PtAsgn>) returns (newargs: seq<PTRef>)
      requires Valid() && AllAsgnOk(terms, ps)
      modifies this
      ensures Valid() && old(terms) <= terms && AllBool(terms, newargs) && |newargs| == |ps|
      ensures forall val: Valuation :: SomeTrue(terms, val, newargs) == SomeAsgn(old(terms), val, ps)
      ensures AreAsgns(terms, ps, newargs)
      ensures forall k | 0 <= k < |newargs| :: OnlyVarsOf(old(terms), AsgnTerms(ps), terms, newargs[k])
      ensures IteFree(old(terms)) ==> IteFree(terms)
      ensures Plain(old(terms)) ==> Plain(terms)
    {
      hide IteFree, Plain, OnlyVarsOf, PropEval, SomeAsgn, SomeTrue, AsgnTrue, WfTerms, ProperTerm, AreAsgns, IsAsgn;
      ghost var T0 := terms;
      newargs := [];
      assert forall val: Valuation :: SomeTrue(T0, val, []) == SomeAsgn(T0, val, ps[..0]) by { NoAsgns(T0, ps); }
      NoneAreAsgns(T0, ps);
      for i := 0 to |ps|
        invariant Valid() && T0 <= terms && AllBool(terms, newargs) && (IteFree(T0) ==> IteFree(terms)) && (Plain(T0) ==> Plain(terms))
        invariant forall val: Valuation :: SomeTrue(terms, val, newargs) == SomeAsgn(T0, val, ps[..i])
        invariant |newargs| == i && AreAsgns(terms, ps[..i], newargs)
        invariant forall k | 0 <= k < |newargs| :: OnlyVarsOf(T0, AsgnTerms(ps), terms, newargs[k])
      {
        ghost var T1 := terms;
        AsgnOkGrow(T0, T1, ps[i]);
        var a := MkAsgn(ps[i]);
        NextAsgn(T0, T1, terms, ps, i, newargs, a);
        AreAsgnsGrow(T1, terms, ps[..i], newargs);
        AsgnVars(T0, ps, T1, newargs, terms, a, i);
        assert ps[..i + 1] == ps[..i] + [ps[i]];
        AreAsgnsMore(terms, ps[..i], newargs, ps[i], a);
        newargs := newargs + [a];
      }
      assert ps[..|ps|] == ps;
    }
  }

  // ----- from valuations to interpretations -----

  /** The value that the symbol gives to the values of the arguments. */
  ghost function EvalSymOf(T: seq<Pterm>, M: Interp, symb: Sym, args: seq<PTRef>): Value
    requires WfTerms(T) && InStore(T, args) && ArityOk(Pterm(symb, args))
  {
    EvalSym(M, symb, EvalSeq(T, M, args))
  }

  lemma ConstTerms(T: seq<Pterm>)
    requires WfTerms(T)
    ensures |T| >= 2 && T[0] == Pterm(True, []) && T[1] == Pterm(False, [])
  {
  }

  lemma EvalConsts(T: seq<Pterm>)
    requires WfTerms(T)
    ensures |T| >= 2 && T[0] == Pterm(True, []) && T[1] == Pterm(False, [])
    ensures forall M: Interp :: Eval(T, M, TERM_TRUE) == B(true) && Eval(T, M, TERM_FALSE) == B(false)
  {
    forall M: Interp ensures Eval(T, M, TERM_TRUE) == B(true) && Eval(T, M, TERM_FALSE) == B(false) {
      EvalDef(T, M, TERM_TRUE);
      EvalDef(T, M, TERM_FALSE);
    }
  }

  /** Different constants of one sort have different values. */
  lemma ConstsEqual(T: seq<Pterm>, a: PTRef, b: PTRef, table: map<Pterm, PTRef>)
    requires WfTerms(T) && a < |T| && b < |T| && IsConstSym(T[a].symb) && IsConstSym(T[b].symb)
    requires forall r: PTRef | r < |T| :: T[r] in table && table[T[r]] == r
    requires HasSortBool(T, a) == HasSortBool(T, b)
    ensures forall M: Interp :: (Eval(T, M, a) == Eval(T, M, b)) == (a == b)
  {
    forall M: Interp ensures (Eval(T, M, a) == Eval(T, M, b)) == (a == b) {
      EvalDef(T, M, a);
      EvalDef(T, M, b);
      assert T[a].args == [] && T[b].args == [];
      assert table[T[a]] == a && table[T[b]] == b;
    }
  }

  lemma LiftInserted(T0: seq<Pterm>, T: seq<Pterm>, args: seq<PTRef>, r: PTRef)
    requires WfTerms(T0) && WfTerms(T) && T0 <= T && InStore(T0, args) && r < |T| && T[r].args == args
    ensures ArityOk(Pterm(T[r].symb, args))
    ensures forall M: Interp :: Eval(T, M, r) == EvalSymOf(T0, M, T[r].symb, args)
    ensures !IsVarSym(T[r].symb) ==> OnlyVarsOf(T0, args, T, r)
  {
    assert WfTerm(T, r);
    assert T[r] == Pterm(T[r].symb, args);
    forall M: Interp ensures Eval(T, M, r) == EvalSymOf(T0, M, T[r].symb, args) {
      EvalDef(T, M, r);
      EvalPrefixSeq(T0, T, M, args);
    }
    if !IsVarSym(T[r].symb) {
      OnlyVarsSub(T0, args, T, args);
      OnlyVarsNew(T0, args, T, r);
    }
  }

  lemma LiftJoin(T0: seq<Pterm>, T: seq<Pterm>, args: seq<PTRef>, r: PTRef, symb: Sym)
    requires WfTerms(T0) && WfTerms(T) && T0 <= T && AllBool(T0, args) && r < |T| && HasSortBool(T, r) && (symb.And? || symb.Or?)
    requires symb.And? ==> forall val: Valuation :: PropEval(T, val, r) == AllTrue(T0, val, args)
    requires symb.Or? ==> forall val: Valuation :: PropEval(T, val, r) == SomeTrue(T0, val, args)
    ensures InStore(T0, args) && forall M: Interp :: Eval(T, M, r) == EvalSymOf(T0, M, symb, args)
  {
    forall M: Interp ensures Eval(T, M, r) == EvalSymOf(T0, M, symb, args) {
      EvalIsProp(T, T, M, r);
      EvalSeqIsProp(T0, T, M, args);
    }
  }

  lemma LiftBinary(T0: seq<Pterm>, T: seq<Pterm>, args: seq<PTRef>, r: PTRef, symb: Sym)
    requires WfTerms(T0) && WfTerms(T) && T0 <= T && AllBool(T0, args) && |args| == 2 && r < |T| && HasSortBool(T, r)
    requires symb.Xor? || symb.Iff? || symb.Implies?
    requires forall val: Valuation :: PropEval(T, val, r) ==
               if symb.Xor? then PropEval(T0, val, args[0]) != PropEval(T0, val, args[1])
               else if symb.Iff? then PropEval(T0, val, args[0]) == PropEval(T0, val, args[1])
               else PropEval(T0, val, args[0]) ==> PropEval(T0, val, args[1])
    ensures InStore(T0, args) && forall M: Interp :: Eval(T, M, r) == EvalSymOf(T0, M, symb, args)
    ensures symb.Iff? ==> forall M: Interp :: Eval(T, M, r) == B(Eval(T0, M, args[0]) == Eval(T0, M, args[1]))
  {
    forall M: Interp
      ensures Eval(T, M, r) == EvalSymOf(T0, M, symb, args)
      ensures symb.Iff? ==> Eval(T, M, r) == B(Eval(T0, M, args[0]) == Eval(T0, M, args[1]))
    {
      EvalIsProp(T, T, M, r);
      EvalSeqIsProp(T0, T, M, args);
    }
  }

  lemma LiftNot(T0: seq<Pterm>, T: seq<Pterm>, args: seq<PTRef>, r: PTRef)
    requires WfTerms(T0) && WfTerms(T) && T0 <= T && AllBool(T0, args) && |args| == 1 && r < |T| && HasSortBool(T, r)
    requires forall val: Valuation :: PropEval(T, val, r) == !PropEval(T, val, args[0])
    requires OnlyVarsOf(T0, [args[0]], T, r)
    ensures InStore(T0, args) && forall M: Interp :: Eval(T, M, r) == EvalSymOf(T0, M, Not, args)
    ensures OnlyVarsOf(T0, args, T, r)
  {
    assert [args[0]] == args;
    forall M: Interp ensures Eval(T, M, r) == EvalSymOf(T0, M, Not, args) {
      EvalIsProp(T, T, M, r);
      EvalSeqIsProp(T0, T, M, args);
      PropEvalPrefix(T0, T, TrueTerms(T, M), args[0]);
    }
  }

  lemma LiftEq(T0: seq<Pterm>, T: seq<Pterm>, args: seq<PTRef>, r: PTRef, symb: Sym)
    requires WfTerms(T0) && WfTerms(T) && InStore(T0, args) && |args| == 2 && r < |T|
    requires HasSortBool(T0, args[0]) == HasSortBool(T0, args[1]) == symb.Iff? && (symb.Iff? || symb.UEq?)
    requires forall M: Interp :: Eval(T, M, r) == B(Eval(T0, M, args[0]) == Eval(T0, M, args[1]))
    ensures forall M: Interp :: Eval(T, M, r) == EvalSymOf(T0, M, symb, args)
  {
    forall M: Interp ensures Eval(T, M, r) == EvalSymOf(T0, M, symb, args) {
      assert EvalSeq(T0, M, args)[0] == Eval(T0, M, args[0]) && EvalSeq(T0, M, args)[1] == Eval(T0, M, args[1]);
    }
  }

  lemma ConstValues(T: seq<Pterm>)
    requires WfTerms(T)
    ensures |T| >= 2 && T[0] == Pterm(True, []) && T[1] == Pterm(False, [])
    ensures forall val: Valuation :: PropEval(T, val, TERM_TRUE) && !PropEval(T, val, TERM_FALSE)
  {
  }

  lemma SplitStep(T: seq<Pterm>, args: seq<PTRef>, i: nat, was: seq<PtAsgn>, p: PtAsgn)
    requires WfTerms(T) && AllBool(T, args) && i < |args| && AllAsgnOk(T, was) && AsgnOk(T, p)
    requires forall val: Valuation :: SomeAsgn(T, val, was) == SomeTrue(T, val, args[..i])
    requires forall val: Valuation :: AsgnTrue(T, val, p) == PropEval(T, val, args[i])
    ensures AllAsgnOk(T, was + [p]) && forall val: Valuation :: SomeAsgn(T, val, was + [p]) == SomeTrue(T, val, args[..i + 1])
  {
    hide PropEval, AsgnTrue;
    assert args[..i + 1] == args[..i] + [args[i]];
    forall val: Valuation ensures SomeAsgn(T, val, was + [p]) == (SomeAsgn(T, val, was) || AsgnTrue(T, val, p)) {
    }
    forall val: Valuation ensures SomeTrue(T, val, args[..i + 1]) == (SomeTrue(T, val, args[..i]) || PropEval(T, val, args[i])) {
    }
  }

  /** A "true" among the arguments, or an argument and its negation. */
  lemma TrueDisjunct(T: seq<Pterm>, args: seq<PTRef>, asgns: seq<PtAsgn>, p: PtAsgn, q: PtAsgn)
    requires WfTerms(T) && InStore(T, args) && AllAsgnOk(T, asgns) && p in asgns && q in asgns
    requires p.tr == TERM_TRUE || (q.tr == p.tr && q.sgn != p.sgn)
    requires forall val: Valuation :: SomeAsgn(T, val, asgns) == SomeTrue(T, val, args)
    ensures TERM_TRUE < |T| && HasSortBool(T, TERM_TRUE)
    ensures forall val: Valuation :: PropEval(T, val, TERM_TRUE) == SomeTrue(T, val, args)
    ensures OnlyVarsOf(T, args, T, TERM_TRUE)
  {
    assert T[0].symb.True?;
    OnlyVarsConst(T, args, T, TERM_TRUE);
    forall val: Valuation ensures SomeAsgn(T, val, asgns) {
      assert AsgnOk(T, p) && AsgnOk(T, q);
      assert AsgnTrue(T, val, p) || AsgnTrue(T, val, q);
    }
  }

  lemma PositiveFalse(T: seq<Pterm>, asgns: seq<PtAsgn>)
    requires WfTerms(T) && AllAsgnOk(T, asgns)
    ensures forall p | p in asgns && p.tr == TERM_FALSE :: p == PtAsgn(TERM_FALSE, true)
  {
    forall p | p in asgns && p.tr == TERM_FALSE ensures p == PtAsgn(TERM_FALSE, true) {
      assert AsgnOk(T, p);
    }
  }

  /** Dropping "false" and repetitions keeps the meaning. */
  lemma KeptMeaning(T: seq<Pterm>, args: seq<PTRef>, asgns: seq<PtAsgn>, kept: seq<PtAsgn>)
    requires WfTerms(T) && InStore(T, args) && AllAsgnOk(T, asgns)
    requires forall p | p in kept :: p in asgns
    requires forall p | p in asgns && p !in kept :: p == PtAsgn(TERM_FALSE, true)
    requires forall val: Valuation :: SomeAsgn(T, val, asgns) == SomeTrue(T, val, args)
    requires forall k | 0 <= k < |asgns| :: OnlyVarsOf(T, args, T, asgns[k].tr)
    ensures AllAsgnOk(T, kept) && (kept != [] ==> AsgnOk(T, kept[0]))
    ensures forall val: Valuation :: SomeAsgn(T, val, kept) == SomeTrue(T, val, args)
    ensures forall k | 0 <= k < |kept| :: OnlyVarsOf(T, args, T, AsgnTerms(kept)[k])
  {
    hide OnlyVarsOf;
    assert T[1].symb.False?;
    forall k | 0 <= k < |kept| ensures AsgnOk(T, kept[k]) && OnlyVarsOf(T, args, T, AsgnTerms(kept)[k]) {
      assert kept[k] in kept;
    }
    forall val: Valuation ensures SomeAsgn(T, val, kept) == SomeAsgn(T, val, asgns) {
      assert forall p | p in asgns && p !in kept :: !AsgnTrue(T, val, p);
    }
  }

  lemma NothingKept(T: seq<Pterm>, args: seq<PTRef>)
    requires WfTerms(T) && InStore(T, args)
    requires forall val: Valuation :: SomeAsgn(T, val, []) == SomeTrue(T, val, args)
    ensures TERM_FALSE < |T| && HasSortBool(T, TERM_FALSE)
    ensures forall val: Valuation :: PropEval(T, val, TERM_FALSE) == SomeTrue(T, val, args)
    ensures OnlyVarsOf(T, args, T, TERM_FALSE)
  {
    assert T[1].symb.False?;
    OnlyVarsConst(T, args, T, TERM_FALSE);
  }

  lemma OneKept(T: seq<Pterm>, kept: seq<PtAsgn>)
    requires WfTerms(T) && AllAsgnOk(T, kept) && |kept| == 1
    ensures AsgnTerms(kept) == [kept[0].tr]
    ensures forall val: Valuation :: SomeAsgn(T, val, kept) == AsgnTrue(T, val, kept[0])
  {
    assert kept == [kept[0]];
  }

  /** Drops repetitions and "false"; stops at "true" and at both assignments of one term. */
  method KeepDistinct(sorted: seq<PtAsgn>) returns (clash: bool, kept: seq<PtAsgn>)
    requires SortedBy(AsgnKey, sorted)
    ensures clash ==> exists p, q :: p in sorted && q in sorted && (p.tr == TERM_TRUE || (q.tr == p.tr && q.sgn != p.sgn))
    ensures !clash ==> TrsAscend(kept) && forall p | p in kept :: p in sorted && p.tr > TERM_FALSE
    ensures !clash ==> forall p | p in sorted && p !in kept :: p.tr == TERM_FALSE
  {
    hide SortedBy, TrsAscend;
    clash, kept := false, [];
    NoTrs();
    for i := 0 to |sorted|
      invariant forall p | p in kept :: p.tr > TERM_FALSE && p in sorted[..i]
      invariant forall p | p in sorted[..i] && p !in kept :: p.tr == TERM_FALSE
      invariant TrsAscend(kept)
    {
      var p := sorted[i];
      if p.tr == TERM_TRUE {
        return true, kept;
      } else if p.tr == TERM_FALSE {
      } else if kept != [] && kept[|kept| - 1] == p {
      } else if kept != [] && kept[|kept| - 1].tr == p.tr && kept[|kept| - 1].sgn != p.sgn {
        assert kept[|kept| - 1] in kept;
        return true, kept;
      } else {
        NextTr(sorted, i, kept);
        kept := kept + [p];
      }
    }
    assert sorted[..|sorted|] == sorted;
  }

  /** Drops equal neighbours. */
  method DropDuplicates(sorted: seq<PTRef>) returns (distinct: seq<PTRef>)
    requires SortedBy(Ascending, sorted)
    ensures forall a :: a in distinct <==> a in sorted
    ensures Ascends(Ascending, distinct)
  {
    distinct := [];
    for i := 0 to |sorted|
      invariant forall a :: a in distinct <==> a in sorted[..i]
      invariant distinct == [] <==> i == 0
      invariant Ascends(Ascending, distinct) && (i > 0 ==> distinct[|distinct| - 1] == sorted[i - 1])
    {
      assert i > 0 ==> Ascending(sorted[i - 1]) <= Ascending(sorted[i]);
      if distinct == [] || sorted[i] != distinct[|distinct| - 1] {
        distinct := distinct + [sorted[i]];
      }
    }
    assert sorted[..|sorted|] == sorted;
  }

  lemma AscendsNone()
    ensures Ascends(Ascending, [])
  {
  }

  lemma NextAscends(distinct: seq<PTRef>, i: nat, newargs: seq<PTRef>)
    requires Ascends(Ascending, distinct) && i < |distinct| && Ascends(Ascending, newargs)
    requires forall a | a in newargs :: a in distinct[..i]
    ensures Ascends(Ascending, newargs + [distinct[i]])
  {
    if newargs != [] {
      assert newargs[|newargs| - 1] in newargs;
    }
    AscendsMore(Ascending, newargs, distinct[i]);
  }

  lemma FalseConjunct(T: seq<Pterm>, args: seq<PTRef>)
    requires WfTerms(T) && InStore(T, args) && TERM_FALSE in args
    ensures forall val: Valuation :: PropEval(T, val, TERM_FALSE) == AllTrue(T, val, args)
  {
    assert T[1].symb.False?;
  }

  /** Without "true" the arguments mean the same; no or one argument left is the conjunction itself. */
  lemma DroppedTrue(T: seq<Pterm>, args: seq<PTRef>, newargs: seq<PTRef>)
    requires WfTerms(T) && AllBool(T, args) && forall a :: a in newargs <==> a in args && a != TERM_TRUE
    ensures AllBool(T, newargs) && forall k | 0 <= k < |newargs| :: newargs[k] in args
    ensures forall val: Valuation :: AllTrue(T, val, newargs) == AllTrue(T, val, args)
    ensures newargs == [] ==> forall val: Valuation :: PropEval(T, val, TERM_TRUE) == AllTrue(T, val, args)
    ensures |newargs| == 1 ==> forall val: Valuation :: PropEval(T, val, newargs[0]) == AllTrue(T, val, args)
  {
    assert T[0].symb.True?;
    forall k | 0 <= k < |newargs| ensures newargs[k] in args && newargs[k] < |T| && HasSortBool(T, newargs[k]) {
      assert newargs[k] in newargs;
    }
    if |newargs| == 1 {
      assert newargs == [newargs[0]];
    }
  }

  lemma AndInserted(T0: seq<Pterm>, args: seq<PTRef>, T: seq<Pterm>, newargs: seq<PTRef>, r: PTRef)
    requires WfTerms(T0) && WfTerms(T) && T0 <= T && InStore(T0, args) && InStore(T0, newargs)
    requires r < |T| && T[r] == Pterm(And, newargs) && forall k | 0 <= k < |newargs| :: newargs[k] in args
    requires forall val: Valuation :: AllTrue(T0, val, newargs) == AllTrue(T0, val, args)
    ensures OnlyVarsOf(T0, args, T, r)
    ensures forall val: Valuation :: PropEval(T, val, r) == AllTrue(T0, val, args)
  {
    hide OnlyVarsOf;
    OnlyVarsSub(T0, args, T, newargs);
    OnlyVarsNew(T0, args, T, r);
    forall val: Valuation ensures PropEval(T, val, r) == AllTrue(T0, val, newargs) {
      PropEvalPrefixSeq(T0, T, val, newargs);
    }
  }

  lemma NoAsgns(T: seq<Pterm>, ps: seq<PtAsgn>)
    requires WfTerms(T) && AllAsgnOk(T, ps)
    ensures forall val: Valuation :: SomeTrue(T, val, []) == SomeAsgn(T, val, ps[..0])
  {
  }

  lemma AsgnOkGrow(T: seq<Pterm>, T': seq<Pterm>, p: PtAsgn)
    requires WfTerms(T) && WfTerms(T') && T <= T' && AsgnOk(T, p)
    ensures AsgnOk(T', p)
  {
  }

  lemma NextAsgn(T0: seq<Pterm>, T1: seq<Pterm>, T: seq<Pterm>, ps: seq<PtAsgn>, i: nat, newargs: seq<PTRef>, a: PTRef)
    requires WfTerms(T0) && WfTerms(T1) && WfTerms(T) && T0 <= T1 <= T && AllAsgnOk(T0, ps) && i < |ps|
    requires InStore(T1, newargs) && a < |T|
    requires forall val: Valuation :: SomeTrue(T1, val, newargs) == SomeAsgn(T0, val, ps[..i])
    requires forall val: Valuation :: PropEval(T, val, a) == AsgnTrue(T1, val, ps[i])
    ensures forall val: Valuation :: SomeTrue(T, val, newargs + [a]) == SomeAsgn(T0, val, ps[..i + 1])
  {
    hide PropEval;
    forall val: Valuation ensures SomeTrue(T, val, newargs + [a]) == SomeAsgn(T0, val, ps[..i + 1]) {
      PropEvalPrefix(T0, T1, val, ps[i].tr);
      PropEvalPrefixSeq(T1, T, val, newargs);
      assert ps[..i + 1] == ps[..i] + [ps[i]];
      assert SomeAsgn(T0, val, ps[..i + 1]) == (SomeAsgn(T0, val, ps[..i]) || AsgnTrue(T0, val, ps[i]));
      assert SomeTrue(T, val, newargs + [a]) == (SomeTrue(T, val, newargs) || PropEval(T, val, a));
    }
  }

  lemma OrInserted(T0: seq<Pterm>, rs: seq<PTRef>, T1: seq<Pterm>, T: seq<Pterm>, newargs: seq<PTRef>, r: PTRef)
    requires WfTerms(T0) && WfTerms(T1) && WfTerms(T) && T0 <= T1 <= T && InStore(T0, rs) && InStore(T1, newargs)
    requires r < |T| && T[r] == Pterm(Or, newargs)
    requires forall k | 0 <= k < |newargs| :: OnlyVarsOf(T0, rs, T1, newargs[k])
    ensures OnlyVarsOf(T0, rs, T, r)
    ensures forall val: Valuation :: PropEval(T, val, r) == SomeTrue(T1, val, newargs)
  {
    hide IteFree, Plain, OnlyVarsOf;
    forall k | 0 <= k < |newargs| ensures OnlyVarsOf(T0, rs, T, newargs[k]) {
      OnlyVarsGrow(T0, rs, T1, T, newargs[k]);
    }
    OnlyVarsNew(T0, rs, T, r);
    forall val: Valuation ensures PropEval(T, val, r) == SomeTrue(T1, val, newargs) {
      PropEvalPrefixSeq(T1, T, val, newargs);
    }
  }

  function AsgnTerms(ps: seq<PtAsgn>): (r: seq<PTRef>)
    ensures |r| == |ps| && forall k | 0 <= k < |r| :: r[k] == ps[k].tr
  {
    seq(|ps|, k requires 0 <= k < |ps| => ps[k].tr)
  }

  lemma OnlyVarsNegated(T: seq<Pterm>, a: PTRef)
    requires WfTerms(T) && a < |T| && T[a].symb.Not?
    ensures |T[a].args| == 1 && T[a].args[0] < |T| && OnlyVarsOf(T, [a], T, T[a].args[0])
  {
    assert WfTerm(T, a);
    forall v: PTRef | Occurs(T, T[a].args[0], v) ensures OccursIn(T, [a], v) {
      assert Occurs(T, [a][0], v);
    }
  }

  lemma PropEvalGrows(T: seq<Pterm>, T': seq<Pterm>, args: seq<PTRef>)
    requires WfTerms(T) && WfTerms(T') && T <= T' && InStore(T, args)
    ensures forall val: Valuation, i | 0 <= i < |args| :: PropEval(T', val, args[i]) == PropEval(T, val, args[i])
  {
    forall val: Valuation, i | 0 <= i < |args| ensures PropEval(T', val, args[i]) == PropEval(T, val, args[i]) {
      PropEvalPrefix(T, T', val, args[i]);
    }
  }

  lemma NegatedVars(T0: seq<Pterm>, args: seq<PTRef>, T1: seq<Pterm>, T: seq<Pterm>, i: nat, r: PTRef)
    requires WfTerms(T0) && WfTerms(T1) && WfTerms(T) && T0 <= T1 && InStore(T0, args) && i < |args| && r < |T|
    requires OnlyVarsOf(T1, [args[i]], T, r)
    ensures OnlyVarsOf(T0, args, T, r)
  {
    OnlyVarsArg(T0, args, T1, i);
    OnlyVarsTrans(T0, args, T1, [args[i]], T, r);
  }

  lemma ProperNotConst(T: seq<Pterm>, args: seq<PTRef>)
    requires WfTerms(T) && AllBool(T, args) && |args| == 2 && Proper(T, args)
    ensures !IsConstSym(T[args[0]].symb) && !IsConstSym(T[args[1]].symb)
  {
    assert WfTerm(T, args[0]) && WfTerm(T, args[1]);
  }

  lemma EqSides(T: seq<Pterm>, args: seq<PTRef>, newargs: seq<PTRef>)
    requires InStore(T, args) && |args| == 2 && !HasSortBool(T, args[0]) && !HasSortBool(T, args[1])
    requires !(IsConstSym(T[args[0]].symb) && IsConstSym(T[args[1]].symb))
    requires newargs == args || newargs == [args[1], args[0]]
    ensures ProperSides(T, UEq, newargs)
  {
  }

  lemma IffInserted(T0: seq<Pterm>, args: seq<PTRef>, T: seq<Pterm>, r: PTRef)
    requires WfTerms(T0) && WfTerms(T) && T0 <= T && InStore(T0, args) && |args| == 2 && r < |T| && T[r] == Pterm(Iff, args)
    ensures OnlyVarsOf(T0, args, T, r)
    ensures forall val: Valuation :: PropEval(T, val, r) == (PropEval(T0, val, args[0]) == PropEval(T0, val, args[1]))
  {
    OnlyVarsSub(T0, args, T, args);
    OnlyVarsNew(T0, args, T, r);
    PropEvalGrows(T0, T, args);
    forall val: Valuation ensures PropEval(T, val, r) == (PropEval(T0, val, args[0]) == PropEval(T0, val, args[1])) {
      assert PropEval(T, val, args[0]) == PropEval(T0, val, args[0]);
      assert PropEval(T, val, args[1]) == PropEval(T0, val, args[1]);
    }
  }

  lemma XorOfSame(T0: seq<Pterm>, args: seq<PTRef>, T1: seq<Pterm>, T: seq<Pterm>, r: PTRef)
    requires WfTerms(T0) && WfTerms(T1) && WfTerms(T) && T0 <= T1 && InStore(T0, args) && |args| == 2 && r < |T|
    requires OnlyVarsOf(T1, args, T, r)
    requires forall val: Valuation :: PropEval(T, val, r) == (PropEval(T1, val, args[0]) != PropEval(T1, val, args[1]))
    ensures OnlyVarsOf(T0, args, T, r)
    ensures forall val: Valuation :: PropEval(T, val, r) == (PropEval(T0, val, args[0]) != PropEval(T0, val, args[1]))
  {
    hide OnlyVarsOf, PropEval;
    OnlyVarsSub(T0, args, T1, args);
    OnlyVarsTrans(T0, args, T1, args, T, r);
    PropEvalGrows(T0, T1, args);
    forall val: Valuation ensures PropEval(T, val, r) == (PropEval(T0, val, args[0]) != PropEval(T0, val, args[1])) {
      assert PropEval(T1, val, args[0]) == PropEval(T0, val, args[0]);
      assert PropEval(T1, val, args[1]) == PropEval(T0, val, args[1]);
    }
  }

  lemma IffOfSame(T0: seq<Pterm>, args: seq<PTRef>, T1: seq<Pterm>, T: seq<Pterm>, r: PTRef)
    requires WfTerms(T0) && WfTerms(T1) && WfTerms(T) && T0 <= T1 && InStore(T0, args) && |args| == 2 && r < |T|
    requires OnlyVarsOf(T1, args, T, r)
    requires forall val: Valuation :: PropEval(T, val, r) == (PropEval(T1, val, args[0]) == PropEval(T1, val, args[1]))
    ensures OnlyVarsOf(T0, args, T, r)
    ensures forall val: Valuation :: PropEval(T, val, r) == (PropEval(T0, val, args[0]) == PropEval(T0, val, args[1]))
  {
    hide OnlyVarsOf, PropEval;
    OnlyVarsSub(T0, args, T1, args);
    OnlyVarsTrans(T0, args, T1, args, T, r);
    PropEvalGrows(T0, T1, args);
    forall val: Valuation ensures PropEval(T, val, r) == (PropEval(T0, val, args[0]) == PropEval(T0, val, args[1])) {
      assert PropEval(T1, val, args[0]) == PropEval(T0, val, args[0]);
      assert PropEval(T1, val, args[1]) == PropEval(T0, val, args[1]);
    }
  }

  lemma XorInserted(T0: seq<Pterm>, args: seq<PTRef>, T: seq<Pterm>, newargs: seq<PTRef>, r: PTRef)
    requires WfTerms(T0) && WfTerms(T) && T0 <= T && InStore(T0, args) && |args| == 2 && r < |T|
    requires (newargs == args || newargs == [args[1], args[0]]) && T[r] == Pterm(Xor, newargs)
    ensures OnlyVarsOf(T0, args, T, r)
    ensures forall val: Valuation :: PropEval(T, val, r) == (PropEval(T0, val, args[0]) != PropEval(T0, val, args[1]))
  {
    OnlyVarsSub(T0, args, T, newargs);
    OnlyVarsNew(T0, args, T, r);
    PropEvalGrows(T0, T, args);
    forall val: Valuation ensures PropEval(T, val, r) == (PropEval(T0, val, args[0]) != PropEval(T0, val, args[1])) {
      assert PropEval(T, val, args[0]) == PropEval(T0, val, args[0]);
      assert PropEval(T, val, args[1]) == PropEval(T0, val, args[1]);
    }
  }

  lemma EqInserted(T0: seq<Pterm>, T: seq<Pterm>, args: seq<PTRef>, newargs: seq<PTRef>, r: PTRef)
    requires WfTerms(T0) && WfTerms(T) && T0 <= T && InStore(T0, args) && |args| == 2 && r < |T|
    requires (newargs == args || newargs == [args[1], args[0]]) && T[r] == Pterm(UEq, newargs)
    ensures OnlyVarsOf(T0, args, T, r)
    ensures forall M: Interp :: Eval(T, M, r) == B(Eval(T0, M, args[0]) == Eval(T0, M, args[1]))
  {
    OnlyVarsSub(T0, args, T, newargs);
    OnlyVarsNew(T0, args, T, r);
    forall M: Interp ensures Eval(T, M, r) == B(Eval(T0, M, args[0]) == Eval(T0, M, args[1])) {
      EvalDef(T, M, r);
      EvalPrefixSeq(T0, T, M, newargs);
      EvalPrefix(T0, T, M, args[0]);
      EvalPrefix(T0, T, M, args[1]);
    }
  }

  lemma SortedTwo(args: seq<PTRef>)
    requires |args| == 2
    ensures SortBy(Ascending, args) == if args[0] <= args[1] then args else [args[1], args[0]]
  {
    assert SortBy(Ascending, args[1..][1..]) == [];
    assert SortBy(Ascending, args[1..]) == [args[1]];
    assert [args[1]][1..] == [];
    assert InsertBy(Ascending, args[0], []) == [args[0]];
  }

  lemma SortTwo(args: seq<PTRef>)
    requires |args| == 2
    ensures SortBy(Descending, args) == if Descending(args[0]) <= Descending(args[1]) then args else [args[1], args[0]]
  {
    assert SortBy(Descending, args[1..][1..]) == [];
    assert SortBy(Descending, args[1..]) == [args[1]];
    assert [args[1]][1..] == [];
    assert InsertBy(Descending, args[0], []) == [args[0]];
  }

  lemma OnlyVarsSub(T0: seq<Pterm>, args: seq<PTRef>, T: seq<Pterm>, newargs: seq<PTRef>)
    requires WfTerms(T0) && WfTerms(T) && T0 <= T && InStore(T0, args)
    requires forall i | 0 <= i < |newargs| :: newargs[i] in args
    ensures forall i | 0 <= i < |newargs| :: newargs[i] < |T| && OnlyVarsOf(T0, args, T, newargs[i])
  {
    forall i | 0 <= i < |newargs| ensures newargs[i] < |T| && OnlyVarsOf(T0, args, T, newargs[i]) {
      var k :| 0 <= k < |args| && args[k] == newargs[i];
      OnlyVarsArg(T0, args, T, k);
    }
  }

  lemma AsgnVars(T0: seq<Pterm>, ps: seq<PtAsgn>, T1: seq<Pterm>, newargs: seq<PTRef>, T: seq<Pterm>, a: PTRef, i: nat)
    requires WfTerms(T0) && WfTerms(T1) && WfTerms(T) && T0 <= T1 <= T && AllAsgnOk(T0, ps) && i < |ps|
    requires InStore(T1, newargs) && a < |T| && OnlyVarsOf(T1, [ps[i].tr], T, a)
    requires forall k | 0 <= k < |newargs| :: OnlyVarsOf(T0, AsgnTerms(ps), T1, newargs[k])
    ensures forall k | 0 <= k < |newargs + [a]| :: OnlyVarsOf(T0, AsgnTerms(ps), T, (newargs + [a])[k])
  {
    OnlyVarsArg(T0, AsgnTerms(ps), T1, i);
    OnlyVarsTrans(T0, AsgnTerms(ps), T1, [ps[i].tr], T, a);
    forall k | 0 <= k < |newargs| ensures OnlyVarsOf(T0, AsgnTerms(ps), T, newargs[k]) {
      OnlyVarsGrow(T0, AsgnTerms(ps), T1, T, newargs[k]);
    }
  }

  predicate AsgnOk(T: seq<Pterm>, p: PtAsgn)
    requires WfTerms(T)
  {
    p.tr < |T| && HasSortBool(T, p.tr) && (p.tr <= TERM_FALSE ==> p.sgn)
  }

  predicate AllAsgnOk(T: seq<Pterm>, ps: seq<PtAsgn>)
    requires WfTerms(T)
  {
    forall k | 0 <= k < |ps| :: AsgnOk(T, ps[k])
  }

  ghost predicate SomeAsgn(T: seq<Pterm>, val: Valuation, ps: seq<PtAsgn>)
    requires WfTerms(T) && AllAsgnOk(T, ps)
  {
    exists p | p in ps :: AsgnTrue(T, val, p)
  }

  lemma PropEvalPrefixSeq(T: seq<Pterm>, T': seq<Pterm>, val: Valuation, rs: seq<PTRef>)
    requires WfTerms(T) && WfTerms(T') && T <= T' && InStore(T, rs)
    ensures forall a | a in rs :: PropEval(T', val, a) == PropEval(T, val, a)
    ensures AllTrue(T', val, rs) == AllTrue(T, val, rs)
    ensures SomeTrue(T', val, rs) == SomeTrue(T, val, rs)
  {
    forall a | a in rs ensures PropEval(T', val, a) == PropEval(T, val, a) {
      PropEvalPrefix(T, T', val, a);
    }
  }
}
