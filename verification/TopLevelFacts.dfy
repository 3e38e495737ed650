/** The facts that a formula states at top level. */
module TopLevelFacts {
  import opened Terms
  import opened Semantics
  import opened LogicStore
  import opened TermMapping
  import opened StatedLiterals

  datatype Lbool = LTrue | LFalse | LUndef

  type Units = map<PTRef, bool>

  ghost predicate AsgnHolds(T: seq<Pterm>, M: Interp, p: PtAsgn)
    requires WfTerms(T) && p.tr < |T|
  {
    (Eval(T, M, p.tr) == TT) == p.sgn
  }

  /** The formula implies p, and p has no variables but those of the formula. */
  ghost predicate FactOf(T0: seq<Pterm>, root: PTRef, T: seq<Pterm>, p: PtAsgn)
    requires WfTerms(T0) && root < |T0| && WfTerms(T)
  {
    && p.tr < |T| && HasSortBool(T, p.tr)
    && (forall M: Interp | Eval(T0, M, root) == TT :: AsgnHolds(T, M, p))
    && (forall v: PTRef | Occurs(T, p.tr, v) :: Occurs(T0, root, v))
  }

  /** Only Boolean variables are stated to be false. */
  predicate UnitOk(T: seq<Pterm>, p: PtAsgn) {
    p.tr < |T| && HasSortBool(T, p.tr) && (!p.sgn ==> IsVarSym(T[p.tr].symb))
  }

  predicate UnitsOk(T: seq<Pterm>, units: Units) {
    forall t | t in units :: UnitOk(T, PtAsgn(t, units[t]))
  }

  /** What was known before and does not contradict the new facts. */
  predicate Agree(prev: seq<Units>, facts: Units) {
    forall j, t | 0 <= j < |prev| && t in facts && t in prev[j] :: prev[j][t] == facts[t]
  }

  ghost predicate FactsOf(T0: seq<Pterm>, root: PTRef, T: seq<Pterm>, prev: seq<Units>, facts: Units)
    requires WfTerms(T0) && root < |T0| && WfTerms(T)
  {
    UnitsOk(T, facts) && Agree(prev, facts) && forall t | t in facts :: FactOf(T0, root, T, PtAsgn(t, facts[t]))
  }

  lemma FactOfGrows(T0: seq<Pterm>, root: PTRef, T: seq<Pterm>, T': seq<Pterm>, p: PtAsgn)
    requires WfTerms(T0) && root < |T0| && WfTerms(T) && WfTerms(T') && T <= T' && FactOf(T0, root, T, p)
    ensures FactOf(T0, root, T', p)
  {
    forall M: Interp | Eval(T0, M, root) == TT ensures AsgnHolds(T', M, p) {
      EvalPrefix(T, T', M, p.tr);
    }
    forall v: PTRef | Occurs(T', p.tr, v) ensures Occurs(T0, root, v) {
      OccursPrefix(T, T', p.tr, v);
    }
  }

  lemma FactsOfGrow(T0: seq<Pterm>, root: PTRef, T: seq<Pterm>, T': seq<Pterm>, prev: seq<Units>, facts: Units)
    requires WfTerms(T0) && root < |T0| && WfTerms(T) && WfTerms(T') && T <= T' && FactsOf(T0, root, T, prev, facts)
    ensures FactsOf(T0, root, T', prev, facts)
  {
    forall t | t in facts ensures FactOf(T0, root, T', PtAsgn(t, facts[t])) {
      FactOfGrows(T0, root, T, T', PtAsgn(t, facts[t]));
    }
  }

  // ----- the worklist -----

  /** Strips the negations of a term; the polarity is positive when their number is even. */
  method PurifyTerm(T: seq<Pterm>, r: PTRef) returns (p: PTRef, sgn: bool)
    requires WfTerms(T) && r < |T|
    ensures Purify(T, r) == (p, !sgn) && p < |T|
  {
    p, sgn := r, true;
    while T[p].symb.Not?
      invariant p < |T|
      invariant Purify(T, r) == (var (q, s) := Purify(T, p); (q, s == sgn))
      decreases p
    {
      assert WfTerm(T, p);
      p, sgn := T[p].args[0], !sgn;
    }
  }

  lemma {:induction false} PurifyFact(T: seq<Pterm>, root: PTRef, r: PTRef, sgn: bool)
    requires WfTerms(T) && root < |T| && FactOf(T, root, T, PtAsgn(r, sgn))
    ensures var (p, neg) := Purify(T, r); FactOf(T, root, T, PtAsgn(p, sgn != neg))
    decreases r
  {
    assert WfTerm(T, r);
    if T[r].symb.Not? {
      var a := T[r].args[0];
      forall M: Interp | Eval(T, M, root) == TT ensures AsgnHolds(T, M, PtAsgn(a, !sgn)) {
        EvalDef(T, M, r);
        assert AsgnHolds(T, M, PtAsgn(r, sgn));
      }
      forall v: PTRef | Occurs(T, a, v) ensures Occurs(T, root, v) {
        assert a in T[r].args;
        assert Occurs(T, r, v);
      }
      PurifyFact(T, root, a, !sgn);
    }
  }

  lemma ArgFact(T: seq<Pterm>, root: PTRef, p: PtAsgn, i: nat)
    requires WfTerms(T) && root < |T| && FactOf(T, root, T, p) && Splits(T[p.tr], p.sgn) && i < |T[p.tr].args|
    ensures FactOf(T, root, T, PtAsgn(T[p.tr].args[i], p.sgn))
  {
    assert WfTerm(T, p.tr);
    var args := T[p.tr].args;
    forall M: Interp | Eval(T, M, root) == TT ensures AsgnHolds(T, M, PtAsgn(args[i], p.sgn)) {
      EvalDef(T, M, p.tr);
      assert AsgnHolds(T, M, p);
      assert EvalSeq(T, M, args)[i] == Eval(T, M, args[i]);
    }
    forall v: PTRef | Occurs(T, args[i], v) ensures Occurs(T, root, v) {
      assert args[i] in args;
      assert Occurs(T, p.tr, v);
    }
  }

  ghost predicate QueueOk(T: seq<Pterm>, root: PTRef, queue: seq<PtAsgn>)
    requires WfTerms(T) && root < |T|
  {
    forall i | 0 <= i < |queue| :: FactOf(T, root, T, queue[i]) && !T[queue[i].tr].symb.Not?
  }

  lemma QueueTop(T: seq<Pterm>, root: PTRef, queue: seq<PtAsgn>)
    requires WfTerms(T) && root < |T| && QueueOk(T, root, queue) && queue != []
    ensures FactOf(T, root, T, queue[|queue| - 1]) && QueueOk(T, root, queue[..|queue| - 1])
    ensures queue[|queue| - 1].tr < |T| && HasSortBool(T, queue[|queue| - 1].tr) && !T[queue[|queue| - 1].tr].symb.Not?
  {
    assert FactOf(T, root, T, queue[|queue| - 1]);
    FactInStore(T, root, T, queue[|queue| - 1]);
  }

  lemma FactInStore(T0: seq<Pterm>, root: PTRef, T: seq<Pterm>, p: PtAsgn)
    requires WfTerms(T0) && root < |T0| && WfTerms(T) && FactOf(T0, root, T, p)
    ensures p.tr < |T| && HasSortBool(T, p.tr)
  {
  }

  lemma QueueMore(T: seq<Pterm>, root: PTRef, queue: seq<PtAsgn>, q: PtAsgn)
    requires WfTerms(T) && root < |T| && QueueOk(T, root, queue) && FactOf(T, root, T, q)
    requires q.tr < |T| && !T[q.tr].symb.Not?
    ensures QueueOk(T, root, queue + [q])
  {
    hide FactOf;
  }

  method PushArgs(logic: Logic, pta: PtAsgn, queue: seq<PtAsgn>, ghost T0: seq<Pterm>, ghost root: PTRef) returns (queue': seq<PtAsgn>)
    requires WfTerms(logic.terms) && WfTerms(T0) && T0 <= logic.terms && root < |T0|
    requires FactOf(T0, root, T0, pta) && pta.tr < |T0| && Splits(T0[pta.tr], pta.sgn) && QueueOk(T0, root, queue)
    ensures QueueOk(T0, root, queue') && queue' == queue + Successors(T0, pta)
  {
    hide FactOf, QueueOk;
    queue' := queue;
    var args := logic.terms[pta.tr].args;
    assert WfTerm(T0, pta.tr) && T0[pta.tr].args == args;
    for i := 0 to |args|
      invariant QueueOk(T0, root, queue')
      invariant queue' == queue + PassedOns(T0, pta, i)
    {
      var c, sgn := PurifyTerm(logic.terms, args[i]);
      PurifyPrefix(T0, logic.terms, args[i]);
      PurifyBelow(T0, args[i]);
      ArgFact(T0, root, pta, i);
      PurifyFact(T0, root, args[i], pta.sgn);
      QueueMore(T0, root, queue', PtAsgn(c, pta.sgn == sgn));
      assert PtAsgn(c, pta.sgn == sgn) == PassedOn(T0, pta, i);
      queue' := queue' + [PtAsgn(c, pta.sgn == sgn)];
    }
  }

  lemma {:induction false} PurifyBelow(T: seq<Pterm>, r: PTRef)
    requires WfTerms(T) && r < |T|
    ensures Purify(T, r).0 < |T| && !T[Purify(T, r).0].symb.Not?
    decreases r
  {
    assert WfTerm(T, r);
    if T[r].symb.Not? {
      PurifyBelow(T, T[r].args[0]);
    }
  }

  lemma {:induction false} PurifyPrefix(T: seq<Pterm>, T': seq<Pterm>, r: PTRef)
    requires WfTerms(T) && WfTerms(T') && T <= T' && r < |T|
    ensures Purify(T', r) == Purify(T, r)
    decreases r
  {
    assert WfTerm(T, r) && T'[r] == T[r];
    if T[r].symb.Not? {
      PurifyPrefix(T, T', T[r].args[0]);
    }
  }

  // ----- what is already known -----

  /** The first value that the maps give to a term. */
  function Lookup(hashes: seq<Units>, t: PTRef): (r: Lbool)
    ensures r == LUndef <==> forall j | 0 <= j < |hashes| :: t !in hashes[j]
  {
    if hashes == [] then LUndef
    else if t in hashes[0] then (if hashes[0][t] then LTrue else LFalse)
    else
      var r := Lookup(hashes[1..], t);
      assert r == LUndef ==> forall j | 0 <= j < |hashes| :: j > 0 ==> hashes[j] == hashes[1..][j - 1];
      assert forall j | 0 <= j < |hashes[1..]| :: hashes[1..][j] == hashes[j + 1];
      r
  }

  lemma {:induction false} LookupLast(hashes: seq<Units>, last: Units, t: PTRef)
    ensures Lookup(hashes + [last], t) ==
            if Lookup(hashes, t) != LUndef then Lookup(hashes, t) else if t in last then ToLbool(last[t]) else LUndef
  {
    if hashes == [] {
      assert [] + [last] == [last] && [last][1..] == [];
    } else {
      assert (hashes + [last])[1..] == hashes[1..] + [last] && (hashes + [last])[0] == hashes[0];
      LookupLast(hashes[1..], last, t);
    }
  }

  function ToLbool(b: bool): Lbool {
    if b then LTrue else LFalse
  }

  /** Says whether the value of the term is known: "true" when it is the given one. */
  method IsInHashes(hashes: seq<Units>, currHash: Units, pta: PtAsgn) returns (r: Lbool)
    ensures r == var known := Lookup(hashes + [currHash], pta.tr);
                 if known == LUndef then LUndef else ToLbool(known == ToLbool(pta.sgn))
  {
    var asgn := LUndef;
    var i := 0;
    while i < |hashes| && asgn == LUndef
      invariant i <= |hashes| && (asgn == LUndef ==> Lookup(hashes + [currHash], pta.tr) == Lookup((hashes + [currHash])[i..], pta.tr))
      invariant asgn != LUndef ==> Lookup(hashes + [currHash], pta.tr) == asgn
    {
      assert (hashes + [currHash])[i] == hashes[i];
      assert (hashes + [currHash])[i..][1..] == (hashes + [currHash])[i + 1..];
      if pta.tr in hashes[i] {
        asgn := ToLbool(hashes[i][pta.tr]);
      }
      i := i + 1;
    }
    if asgn == LUndef {
      assert (hashes + [currHash])[|hashes|..] == [currHash];
      assert [currHash][1..] == [];
      if pta.tr in currHash {
        asgn := ToLbool(currHash[pta.tr]);
      }
    }
    r := if asgn == LUndef then LUndef else ToLbool(asgn == ToLbool(pta.sgn));
  }

  // ----- facts -----

  predicate IsEquality(symb: Sym) {
    symb.UEq? || symb.Iff?
  }

  predicate IsBoolAtom(T: seq<Pterm>, t: PTRef)
    requires t < |T|
  {
    HasSortBool(T, t) && IsVarSym(T[t].symb)
  }

  /** The term e equates the first argument of the exclusive or t with the negation of the second. */
  predicate IsXorEquality(T: seq<Pterm>, t: PTRef, e: PTRef) {
    && t < |T| && e < |T| && T[t].symb.Xor? && T[e].symb.Iff? && |T[t].args| == 2 && |T[e].args| == 2
    && T[e].args[0] == T[t].args[0] && InStore(T, T[t].args) && InStore(T, T[e].args)
    && Complementary(T, T[t].args[1], T[e].args[1])
  }

  /** A true exclusive or states that the first argument equals the negation of the second. */
  method XorFact(logic: Logic, t: PTRef) returns (e: PTRef)
    requires logic.Valid() && t < |logic.terms| && logic.terms[t].symb.Xor?
    modifies logic
    ensures logic.Valid() && old(logic.terms) <= logic.terms && (Plain(old(logic.terms)) ==> Plain(logic.terms))
    ensures e < |logic.terms| && IsXorEquality(logic.terms, t, e)
    ensures forall M: Interp :: Eval(logic.terms, M, e) == Eval(old(logic.terms), M, t)
    ensures forall v: PTRef | Occurs(logic.terms, e, v) :: Occurs(old(logic.terms), t, v)
  {
    hide Plain, OnlyVarsOf, WfTerms, ProperTerm;
    ghost var T0 := logic.terms;
    var args := logic.terms[t].args;
    XorSides(T0, t);
    var neg := logic.MkNot(args[1]);
    ghost var T1 := logic.terms;
    NegatedProper(T0, T1, logic.table, args, neg);
    e := logic.MkEq([args[0], neg]);
    XorMeaning(T0, T1, logic.terms, t, neg, e);
    assert logic.terms[e].args == [args[0], neg];
    assert Complementary(T1, args[1], neg) && InStore(T1, [args[0], neg]);
  }

  lemma XorSides(T: seq<Pterm>, t: PTRef)
    requires WfTerms(T) && t < |T| && T[t].symb.Xor? && ProperTerm(T, T[t])
    ensures |T[t].args| == 2 && AllBool(T, T[t].args) && Proper(T, T[t].args)
  {
    assert WfTerm(T, t);
  }

  lemma NegatedProper(T0: seq<Pterm>, T1: seq<Pterm>, table: map<Pterm, PTRef>, args: seq<PTRef>, neg: PTRef)
    requires |args| == 2 && InStore(T0, args) && Proper(T0, args) && T0 <= T1 && neg < |T1|
    requires forall r: PTRef | r < |T1| :: T1[r] in table && table[T1[r]] == r && ProperTerm(T1, T1[r])
    requires neg > TERM_FALSE && Complementary(T1, args[1], neg)
    ensures Proper(T1, [args[0], neg])
  {
    assert T1[args[0]] == T0[args[0]] && T1[args[1]] == T0[args[1]];
    if Complementary(T1, args[0], neg) {
      assert Complementary(T1, neg, args[0]) && Complementary(T1, neg, args[1]);
      OneComplement(T1, table, neg, args[0], args[1]);
    }
  }

  lemma XorMeaning(T0: seq<Pterm>, T1: seq<Pterm>, T: seq<Pterm>, t: PTRef, neg: PTRef, e: PTRef)
    requires WfTerms(T0) && WfTerms(T1) && WfTerms(T) && T0 <= T1 <= T && t < |T0| && T0[t].symb.Xor? && neg < |T1| && e < |T|
    requires |T0[t].args| == 2 && AllBool(T0, T0[t].args)
    requires forall val: Valuation :: PropEval(T1, val, neg) == !PropEval(T1, val, T0[t].args[1])
    requires HasSortBool(T1, neg) && OnlyVarsOf(T0, [T0[t].args[1]], T1, neg)
    requires forall M: Interp :: Eval(T, M, e) == B(Eval(T1, M, T0[t].args[0]) == Eval(T1, M, neg))
    requires OnlyVarsOf(T1, [T0[t].args[0], neg], T, e)
    ensures forall M: Interp :: Eval(T, M, e) == Eval(T0, M, t)
    ensures forall v: PTRef | Occurs(T, e, v) :: Occurs(T0, t, v)
  {
    var args := T0[t].args;
    forall M: Interp ensures Eval(T, M, e) == Eval(T0, M, t) {
      EvalDef(T0, M, t);
      EvalPrefixSeq(T0, T1, M, args);
      EvalIsProp(T1, T1, M, neg);
      EvalIsProp(T1, T1, M, args[1]);
      EvalIsProp(T1, T1, M, args[0]);
      assert EvalSeq(T0, M, args)[0] == Eval(T1, M, args[0]) by { EvalPrefix(T0, T1, M, args[0]); }
      assert EvalSeq(T0, M, args)[1] == Eval(T1, M, args[1]) by { EvalPrefix(T0, T1, M, args[1]); }
    }
    forall v: PTRef | Occurs(T, e, v) ensures Occurs(T0, t, v) {
      XorVar(T0, T1, T, t, neg, e, v);
    }
  }

  lemma XorVar(T0: seq<Pterm>, T1: seq<Pterm>, T: seq<Pterm>, t: PTRef, neg: PTRef, e: PTRef, v: PTRef)
    requires WfTerms(T0) && WfTerms(T1) && WfTerms(T) && T0 <= T1 <= T && t < |T0| && neg < |T1| && e < |T|
    requires |T0[t].args| == 2 && AllBool(T0, T0[t].args)
    requires OnlyVarsOf(T0, [T0[t].args[1]], T1, neg) && OnlyVarsOf(T1, [T0[t].args[0], neg], T, e) && Occurs(T, e, v)
    ensures Occurs(T0, t, v)
  {
    var args := T0[t].args;
    var i :| 0 <= i < 2 && Occurs(T1, [args[0], neg][i], v);
    if i == 0 {
      OccursPrefix(T0, T1, args[0], v);
      assert Below(T0, args[0], v) && args[0] in args;
    } else {
      assert OccursIn(T0, [args[1]], v);
      assert Below(T0, args[1], v) && args[1] in args;
    }
    assert WfTerm(T0, t);
  }

  /** The formula implies the fact under a new name with the same value and no further variables. */
  lemma SameFact(T0: seq<Pterm>, root: PTRef, T: seq<Pterm>, T': seq<Pterm>, t: PTRef, e: PTRef)
    requires WfTerms(T0) && root < |T0| && WfTerms(T) && WfTerms(T') && FactOf(T0, root, T, PtAsgn(t, true))
    requires e < |T'| && HasSortBool(T', e) && (forall M: Interp :: Eval(T', M, e) == Eval(T, M, t))
    requires forall v: PTRef | Occurs(T', e, v) :: Occurs(T, t, v)
    ensures FactOf(T0, root, T', PtAsgn(e, true))
  {
    hide Occurs;
    forall M: Interp | Eval(T0, M, root) == TT ensures AsgnHolds(T', M, PtAsgn(e, true)) {
      assert AsgnHolds(T, M, PtAsgn(t, true));
    }
  }

  lemma InsertFact(T0: seq<Pterm>, root: PTRef, T: seq<Pterm>, prev: seq<Units>, facts: Units, t: PTRef, sgn: bool)
    requires WfTerms(T0) && root < |T0| && WfTerms(T) && FactsOf(T0, root, T, prev, facts)
    requires FactOf(T0, root, T, PtAsgn(t, sgn)) && UnitOk(T, PtAsgn(t, sgn))
    requires forall j | 0 <= j < |prev| && t in prev[j] :: prev[j][t] == sgn
    ensures FactsOf(T0, root, T, prev, facts[t := sgn])
  {
    hide FactOf;
  }

  /** The literals that are collected as they are. */
  predicate Collectable(T: seq<Pterm>, p: PtAsgn) {
    p.tr < |T| && (((IsEquality(T[p.tr].symb) || T[p.tr].symb.UP?) && p.sgn) || IsBoolAtom(T, p.tr))
  }

  predicate IsTrueXor(T: seq<Pterm>, p: PtAsgn) {
    p.tr < |T| && T[p.tr].symb.Xor? && p.sgn
  }

  predicate Known(prev: seq<Units>, facts: Units, t: PTRef) {
    t in facts || Lookup(prev, t) != LUndef
  }

  /** What a literal adds to the facts. */
  ghost predicate Added(T0: seq<Pterm>, T: seq<Pterm>, p: PtAsgn, prev: seq<Units>, facts: Units, facts': Units) {
    if Known(prev, facts, p.tr) then facts' == facts
    else if Collectable(T0, p) then facts' == facts[p.tr := p.sgn]
    else if IsTrueXor(T0, p) then exists e: PTRef :: IsXorEquality(T, p.tr, e) && facts' == facts[e := true]
    else facts' == facts
  }

  /** Records the fact unless it is known.  The second result reports a conflict. */
  method AddFact(logic: Logic, pta: PtAsgn, prev: seq<Units>, facts: Units, ghost T0: seq<Pterm>, ghost root: PTRef)
    returns (facts': Units, conflict: bool)
    requires logic.Valid() && WfTerms(T0) && T0 <= logic.terms && root < |T0|
    requires FactOf(T0, root, T0, pta) && pta.tr < |T0| && !T0[pta.tr].symb.Not?
    requires FactsOf(T0, root, logic.terms, prev, facts)
    requires forall j | 0 <= j < |prev| :: UnitsOk(T0, prev[j])
    modifies logic
    ensures logic.Valid() && old(logic.terms) <= logic.terms && (Plain(old(logic.terms)) ==> Plain(logic.terms))
    ensures FactsOf(T0, root, logic.terms, prev, facts')
    ensures conflict <==> Lookup(prev + [facts], pta.tr) == LFalse
    ensures Added(T0, logic.terms, pta, prev, facts, facts')
  {
    hide FactsOf, FactOf, Plain, WfTerms, ProperTerm, UnitsOk;
    facts', conflict := facts, false;
    FactInStore(T0, root, T0, pta);
    FactOfGrows(T0, root, T0, logic.terms, pta);
    LookupLast(prev, facts, pta.tr);
    var prevVal := IsInHashes(prev, facts, pta);
    if prevVal != LUndef && prevVal != ToLbool(pta.sgn) {
      conflict := true;
    } else if prevVal == LUndef {
      if IsEquality(logic.terms[pta.tr].symb) && pta.sgn {
        InsertFact(T0, root, logic.terms, prev, facts, pta.tr, pta.sgn);
        facts' := facts[pta.tr := pta.sgn];
      } else if logic.terms[pta.tr].symb.UP? && pta.sgn {
        InsertFact(T0, root, logic.terms, prev, facts, pta.tr, pta.sgn);
        facts' := facts[pta.tr := pta.sgn];
      } else if logic.terms[pta.tr].symb.Xor? && pta.sgn {
        ghost var T1 := logic.terms;
        var e := XorFact(logic, pta.tr);
        FactsOfGrow(T0, root, T1, logic.terms, prev, facts);
        SameFact(T0, root, T1, logic.terms, pta.tr, e);
        forall j | 0 <= j < |prev| && e in prev[j] ensures prev[j][e] {
          EqualityHeld(T0, logic.terms, prev[j], e);
        }
        InsertFact(T0, root, logic.terms, prev, facts, e, true);
        facts' := facts[e := true];
      } else {
        var c, sgn := PurifyTerm(logic.terms, pta.tr);
        if IsBoolAtom(logic.terms, c) {
          InsertFact(T0, root, logic.terms, prev, facts, c, sgn == pta.sgn);
          facts' := facts[c := sgn == pta.sgn];
        }
      }
    }
  }

  lemma EqualityHeld(T0: seq<Pterm>, T: seq<Pterm>, units: Units, e: PTRef)
    requires UnitsOk(T0, units) && T0 <= T && e < |T| && !IsVarSym(T[e].symb) && e in units
    ensures units[e]
  {
    assert UnitOk(T0, PtAsgn(e, units[e]));
  }

  // ----- completeness -----

  /** Every literal that the root states and that is collected as it is is known. */
  ghost predicate Exhausted(T: seq<Pterm>, root: PTRef, prev: seq<Units>, facts: Units)
    requires WfTerms(T) && root < |T|
  {
    forall p | States(T, root, true, p) && Collectable(T, p) :: Known(prev, facts, p.tr)
  }

  /** A literal ends the search when its term is false in the previous frames, or when it states a
      Boolean variable whose negation was visited before. */
  predicate Blocks(T: seq<Pterm>, prev: seq<Units>, visited: seq<PtAsgn>, p: PtAsgn) {
    && p.tr < |T| && !Splits(T[p.tr], p.sgn)
    && (Lookup(prev, p.tr) == LFalse
        || (p.sgn && IsBoolAtom(T, p.tr) && Lookup(prev, p.tr) == LUndef && PtAsgn(p.tr, false) in visited))
  }

  /** The position of the first literal, from the i-th on, that ends the search. */
  function StopIndex(T: seq<Pterm>, prev: seq<Units>, order: seq<PtAsgn>, i: nat): (n: nat)
    requires i <= |order|
    ensures i <= n <= |order|
    ensures n < |order| ==> Blocks(T, prev, order[..n], order[n])
    ensures forall k | i <= k < n :: !Blocks(T, prev, order[..k], order[k])
    decreases |order| - i
  {
    if i == |order| || Blocks(T, prev, order[..i], order[i]) then i else StopIndex(T, prev, order, i + 1)
  }

  /** The literals that are visited: all up to the first that ends the search. */
  function Visited(T: seq<Pterm>, root: PTRef, prev: seq<Units>): seq<PtAsgn>
    requires WfTerms(T) && root < |T|
  {
    var order := Order(T, root);
    order[..StopIndex(T, prev, order, 0)]
  }

  /** What is known after visiting these literals. */
  predicate Found(T: seq<Pterm>, prev: seq<Units>, visited: seq<PtAsgn>, t: PTRef) {
    || Lookup(prev, t) != LUndef
    || exists j | 0 <= j < |visited| :: Finds(T, prev, visited[j], t)
  }

  predicate Finds(T: seq<Pterm>, prev: seq<Units>, p: PtAsgn, t: PTRef) {
    (p.tr == t && Collectable(T, p)) || (IsTrueXor(T, p) && Lookup(prev, p.tr) == LUndef && IsXorEquality(T, p.tr, t))
  }

  /** The literals visited let all literals be known. */
  ghost predicate AllReached(T: seq<Pterm>, root: PTRef, prev: seq<Units>)
    requires WfTerms(T) && root < |T|
  {
    forall p | p in Order(T, root) && Collectable(T, p) :: Found(T, prev, Visited(T, root, prev), p.tr)
  }

  /** The exclusive ors visited have their equalities among the facts. */
  ghost predicate XorsKept(T: seq<Pterm>, prev: seq<Units>, facts: Units, visited: seq<PtAsgn>) {
    forall j | 0 <= j < |visited| && IsTrueXor(T, visited[j]) && Lookup(prev, visited[j].tr) == LUndef ::
      exists e: PTRef :: e in facts && IsXorEquality(T, visited[j].tr, e)
  }

  /** The literal, not known before, gives the fact t: itself, or the equality of the exclusive or. */
  ghost predicate Gives(T0: seq<Pterm>, T: seq<Pterm>, prev: seq<Units>, p: PtAsgn, t: PTRef) {
    Lookup(prev, p.tr) == LUndef && ((p.tr == t && Collectable(T0, p)) || (IsTrueXor(T0, p) && IsXorEquality(T, p.tr, t)))
  }

  ghost predicate GivenByVisited(T0: seq<Pterm>, T: seq<Pterm>, prev: seq<Units>, visited: seq<PtAsgn>, t: PTRef) {
    exists j | 0 <= j < |visited| :: Gives(T0, T, prev, visited[j], t)
  }

  /** All facts are given by literals visited. */
  ghost predicate FromVisited(T0: seq<Pterm>, T: seq<Pterm>, prev: seq<Units>, facts: Units, visited: seq<PtAsgn>) {
    forall t | t in facts :: GivenByVisited(T0, T, prev, visited, t)
  }

  /** The facts are those of the literals visited. */
  ghost predicate Tracks(T0: seq<Pterm>, T: seq<Pterm>, prev: seq<Units>, facts: Units, visited: seq<PtAsgn>) {
    && T0 <= T && (forall t | t in facts :: t < |T| && (IsEquality(T[t].symb) || T[t].symb.UP? || IsVarSym(T[t].symb)))
    && (forall t: PTRef | t < |T0| :: Known(prev, facts, t) <==> Found(T0, prev, visited, t))
    && (forall t | t in facts && !facts[t] :: PtAsgn(t, false) in visited && t < |T0| && IsBoolAtom(T0, t))
    && (forall t: PTRef | t < |T0| && IsBoolAtom(T0, t) && Lookup(prev, t) == LUndef && PtAsgn(t, false) in visited && PtAsgn(t, true) !in visited ::
          t in facts && !facts[t])
    && XorsKept(T, prev, facts, visited) && FromVisited(T0, T, prev, facts, visited)
  }

  lemma TracksNothing(T: seq<Pterm>, prev: seq<Units>)
    ensures Tracks(T, T, prev, map[], [])
  {
  }

  /** A literal conflicts with the facts exactly when it ends the search. */
  lemma ConflictBlocks(T0: seq<Pterm>, T: seq<Pterm>, prev: seq<Units>, facts: Units, visited: seq<PtAsgn>, p: PtAsgn)
    requires Tracks(T0, T, prev, facts, visited) && p !in visited && p.tr < |T0| && !Splits(T0[p.tr], p.sgn)
    ensures Lookup(prev + [facts], p.tr) == LFalse <==> Blocks(T0, prev, visited, p)
  {
    hide Lookup;
    LookupLast(prev, facts, p.tr);
    assert p == PtAsgn(p.tr, p.sgn);
  }

  lemma FoundMore(T: seq<Pterm>, prev: seq<Units>, visited: seq<PtAsgn>, p: PtAsgn, t: PTRef)
    ensures Found(T, prev, visited + [p], t) <==> Found(T, prev, visited, t) || Finds(T, prev, p, t)
  {
    hide Lookup, Finds;
    var vs := visited + [p];
    assert vs[|visited|] == p;
    if j :| 0 <= j < |visited| && Finds(T, prev, visited[j], t) {
      assert vs[j] == visited[j];
    }
    if j :| 0 <= j < |vs| && Finds(T, prev, vs[j], t) {
      assert j < |visited| ==> vs[j] == visited[j];
    }
  }

  lemma XorEqualityGrows(T: seq<Pterm>, T': seq<Pterm>, t: PTRef, e: PTRef)
    requires T <= T' && t < |T|
    ensures IsXorEquality(T, t, e) ==> IsXorEquality(T', t, e)
    ensures e < |T| && WfTerms(T) && IsXorEquality(T', t, e) ==> IsXorEquality(T, t, e)
  {
    if e < |T| && WfTerms(T) {
      assert WfTerm(T, t) && WfTerm(T, e);
    }
  }

  /** The equality of an exclusive or is found by it and by itself only. */
  lemma XorsGrow(T: seq<Pterm>, T': seq<Pterm>, prev: seq<Units>, facts: Units, facts': Units, visited: seq<PtAsgn>)
    requires T <= T' && facts.Keys <= facts'.Keys && XorsKept(T, prev, facts, visited)
    requires forall j | 0 <= j < |visited| :: visited[j].tr < |T|
    ensures XorsKept(T', prev, facts', visited)
  {
    hide Lookup, IsXorEquality;
    forall j | 0 <= j < |visited| && IsTrueXor(T', visited[j]) && Lookup(prev, visited[j].tr) == LUndef
      ensures exists e: PTRef :: e in facts' && IsXorEquality(T', visited[j].tr, e)
    {
      assert IsTrueXor(T, visited[j]);
      var e: PTRef :| e in facts && IsXorEquality(T, visited[j].tr, e);
      XorEqualityGrows(T, T', visited[j].tr, e);
    }
  }

  lemma XorsMore(T: seq<Pterm>, prev: seq<Units>, facts: Units, visited: seq<PtAsgn>, p: PtAsgn)
    requires XorsKept(T, prev, facts, visited)
    requires IsTrueXor(T, p) && Lookup(prev, p.tr) == LUndef ==> exists e: PTRef :: e in facts && IsXorEquality(T, p.tr, e)
    ensures XorsKept(T, prev, facts, visited + [p])
  {
    hide Lookup, IsXorEquality;
    var vs := visited + [p];
    forall j | 0 <= j < |vs| && IsTrueXor(T, vs[j]) && Lookup(prev, vs[j].tr) == LUndef
      ensures exists e: PTRef :: e in facts && IsXorEquality(T, vs[j].tr, e)
    {
      assert j < |visited| ==> vs[j] == visited[j];
    }
  }

  lemma GivenByMore(T0: seq<Pterm>, T: seq<Pterm>, T': seq<Pterm>, prev: seq<Units>, visited: seq<PtAsgn>, p: PtAsgn, t: PTRef)
    requires T0 <= T <= T' && GivenByVisited(T0, T, prev, visited, t)
    ensures GivenByVisited(T0, T', prev, visited, t) && GivenByVisited(T0, T', prev, visited + [p], t)
  {
    hide Lookup, IsXorEquality;
    var j :| 0 <= j < |visited| && Gives(T0, T, prev, visited[j], t);
    if IsTrueXor(T0, visited[j]) {
      XorEqualityGrows(T, T', visited[j].tr, t);
    }
    assert (visited + [p])[j] == visited[j];
  }

  lemma FromVisitedMore(T0: seq<Pterm>, T: seq<Pterm>, T': seq<Pterm>, prev: seq<Units>, facts: Units, facts': Units, visited: seq<PtAsgn>, p: PtAsgn)
    requires T0 <= T <= T' && FromVisited(T0, T, prev, facts, visited)
    requires facts' == facts || Added(T0, T', p, prev, facts, facts')
    ensures FromVisited(T0, T', prev, facts', visited + [p])
  {
    hide Lookup, IsXorEquality, GivenByVisited, Added;
    forall t: PTRef | t in facts' ensures GivenByVisited(T0, T', prev, visited + [p], t) {
      if t in facts {
        GivenByMore(T0, T, T', prev, visited, p, t);
      } else {
        NewlyGiven(T0, T', prev, facts, facts', visited, p, t);
      }
    }
  }

  lemma NewlyGiven(T0: seq<Pterm>, T: seq<Pterm>, prev: seq<Units>, facts: Units, facts': Units, visited: seq<PtAsgn>, p: PtAsgn, t: PTRef)
    requires Added(T0, T, p, prev, facts, facts') && t in facts' && t !in facts
    ensures GivenByVisited(T0, T, prev, visited + [p], t)
  {
    hide Lookup, IsXorEquality;
    assert (visited + [p])[|visited|] == p;
    assert Gives(T0, T, prev, p, t);
  }

  lemma FromVisitedGrow(T0: seq<Pterm>, T: seq<Pterm>, T': seq<Pterm>, prev: seq<Units>, facts: Units, visited: seq<PtAsgn>)
    requires T0 <= T <= T' && FromVisited(T0, T, prev, facts, visited)
    ensures FromVisited(T0, T', prev, facts, visited)
  {
    hide GivenByVisited;
    forall t: PTRef | t in facts ensures GivenByVisited(T0, T', prev, visited, t) {
      GivenByMore(T0, T, T', prev, visited, PtAsgn(0, true), t);
    }
  }

  /** The terms that a literal makes known. */
  lemma KnownMore(T0: seq<Pterm>, T: seq<Pterm>, T': seq<Pterm>, table: map<Pterm, PTRef>, prev: seq<Units>, facts: Units, facts': Units, visited: seq<PtAsgn>, p: PtAsgn, t: PTRef)
    requires WfTerms(T0) && T <= T' && Tracks(T0, T, prev, facts, visited) && p.tr < |T0| && t < |T0| && Added(T0, T', p, prev, facts, facts')
    requires Stored(T', table)
    ensures Known(prev, facts', t) <==> Known(prev, facts, t) || Finds(T0, prev, p, t)
  {
    hide Lookup, IsXorEquality, Found, XorsKept, Stored, FromVisited;
    if Known(prev, facts, p.tr) {
      assert IsTrueXor(T0, p) ==> p.tr !in facts;
    } else if !Collectable(T0, p) && IsTrueXor(T0, p) {
      var e: PTRef :| IsXorEquality(T', p.tr, e) && facts' == facts[e := true];
      XorEqualityGrows(T0, T', p.tr, e);
      XorEqualityGrows(T0, T', p.tr, t);
      if IsXorEquality(T0, p.tr, t) {
        SameXorEquality(T', table, p.tr, t, e);
      }
    }
  }

  /** Terms are stored once, and negations only of terms that are neither constants nor negations. */
  ghost predicate Stored(T: seq<Pterm>, table: map<Pterm, PTRef>) {
    forall r: PTRef | r < |T| :: T[r] in table && table[T[r]] == r && ProperTerm(T, T[r])
  }

  lemma SameXorEquality(T: seq<Pterm>, table: map<Pterm, PTRef>, t: PTRef, e: PTRef, d: PTRef)
    requires Stored(T, table) && IsXorEquality(T, t, e) && IsXorEquality(T, t, d)
    ensures e == d
  {
    OneComplement(T, table, T[t].args[1], T[e].args[1], T[d].args[1]);
    assert T[e].args == [T[e].args[0], T[e].args[1]] && T[d].args == [T[d].args[0], T[d].args[1]];
    assert table[T[e]] == e && table[T[d]] == d;
  }

  /** Visiting a literal that does not end the search. */
  lemma TracksFact(T0: seq<Pterm>, T: seq<Pterm>, T': seq<Pterm>, table: map<Pterm, PTRef>, prev: seq<Units>, facts: Units, facts': Units,
                   visited: seq<PtAsgn>, p: PtAsgn)
    requires WfTerms(T0) && T <= T' && Stored(T', table) && Tracks(T0, T, prev, facts, visited) && Added(T0, T', p, prev, facts, facts')
    requires p.tr < |T0| && p !in visited && (forall j | 0 <= j < |visited| :: visited[j].tr < |T0|)
    requires Lookup(prev + [facts], p.tr) != LFalse
    ensures Tracks(T0, T', prev, facts', visited + [p])
  {
    hide Lookup, IsXorEquality, Found, XorsKept, Stored, FromVisited;
    LookupLast(prev, facts, p.tr);
    forall t: PTRef | t < |T0| ensures Known(prev, facts', t) <==> Found(T0, prev, visited + [p], t) {
      KnownMore(T0, T, T', table, prev, facts, facts', visited, p, t);
      FoundMore(T0, prev, visited, p, t);
    }
    AddedKeys(T0, T', p, prev, facts, facts');
    XorsGrow(T, T', prev, facts, facts', visited);
    XorsMore(T', prev, facts', visited, p);
    FalseFacts(T0, T, T', prev, facts, facts', visited, p);
    FromVisitedMore(T0, T, T', prev, facts, facts', visited, p);
  }

  lemma AddedKeys(T0: seq<Pterm>, T: seq<Pterm>, p: PtAsgn, prev: seq<Units>, facts: Units, facts': Units)
    requires Added(T0, T, p, prev, facts, facts') && T0 <= T
    requires forall t | t in facts :: t < |T| && (IsEquality(T[t].symb) || T[t].symb.UP? || IsVarSym(T[t].symb))
    ensures forall t | t in facts' :: t < |T| && (IsEquality(T[t].symb) || T[t].symb.UP? || IsVarSym(T[t].symb))
    ensures facts.Keys <= facts'.Keys
    ensures IsTrueXor(T, p) && p.tr < |T0| && Lookup(prev, p.tr) == LUndef ==> exists e: PTRef :: e in facts' && IsXorEquality(T, p.tr, e)
  {
    hide Lookup;
    if IsTrueXor(T, p) && p.tr < |T0| && Lookup(prev, p.tr) == LUndef {
      assert p.tr !in facts && !Collectable(T0, p) && IsTrueXor(T0, p);
      var e: PTRef :| IsXorEquality(T, p.tr, e) && facts' == facts[e := true];
      assert e in facts';
    }
  }

  lemma FalseFacts(T0: seq<Pterm>, T: seq<Pterm>, T': seq<Pterm>, prev: seq<Units>, facts: Units, facts': Units, visited: seq<PtAsgn>, p: PtAsgn)
    requires T <= T' && Tracks(T0, T, prev, facts, visited) && Added(T0, T', p, prev, facts, facts') && p.tr < |T0| && p !in visited
    requires Lookup(prev + [facts], p.tr) != LFalse
    ensures forall t | t in facts' && !facts'[t] :: PtAsgn(t, false) in visited + [p] && t < |T0| && IsBoolAtom(T0, t)
    ensures forall t: PTRef | t < |T0| && IsBoolAtom(T0, t) && Lookup(prev, t) == LUndef && PtAsgn(t, false) in visited + [p]
                              && PtAsgn(t, true) !in visited + [p] :: t in facts' && !facts'[t]
  {
    hide Lookup, Found, XorsKept, FromVisited;
    LookupLast(prev, facts, p.tr);
    assert p == PtAsgn(p.tr, p.sgn);
    forall t: PTRef | t < |T0| && IsBoolAtom(T0, t) && Lookup(prev, t) == LUndef && PtAsgn(t, false) in visited + [p]
                      && PtAsgn(t, true) !in visited + [p]
      ensures t in facts' && !facts'[t]
    {
      assert PtAsgn(t, true) !in visited && p != PtAsgn(t, true);
      if PtAsgn(t, false) in visited {
        assert t in facts && !facts[t] && p.tr != t;
        assert T'[t] == T0[t];
        if facts' != facts && !Collectable(T0, p) {
          var e: PTRef :| IsXorEquality(T', p.tr, e) && facts' == facts[e := true];
          assert e != t;
        }
      } else {
        assert p == PtAsgn(t, false);
        NotFoundYet(T0, prev, visited, t);
        assert !Known(prev, facts, t);
      }
    }
  }

  lemma NotFoundYet(T: seq<Pterm>, prev: seq<Units>, visited: seq<PtAsgn>, t: PTRef)
    requires t < |T| && IsBoolAtom(T, t) && Lookup(prev, t) == LUndef && PtAsgn(t, true) !in visited && PtAsgn(t, false) !in visited
    ensures !Found(T, prev, visited, t)
  {
    hide Lookup;
    forall j | 0 <= j < |visited| ensures !Finds(T, prev, visited[j], t) {
      assert visited[j] in visited && visited[j] == PtAsgn(visited[j].tr, visited[j].sgn);
    }
  }

  /** Splitting a literal finds nothing. */
  lemma TracksSplit(T0: seq<Pterm>, T: seq<Pterm>, prev: seq<Units>, facts: Units, visited: seq<PtAsgn>, p: PtAsgn)
    requires WfTerms(T0) && Tracks(T0, T, prev, facts, visited) && p.tr < |T0| && Splits(T0[p.tr], p.sgn)
    ensures Tracks(T0, T, prev, facts, visited + [p])
  {
    hide Lookup, IsXorEquality, Found, XorsKept, FromVisited;
    forall t: PTRef | t < |T0| ensures Known(prev, facts, t) <==> Found(T0, prev, visited + [p], t) {
      FoundMore(T0, prev, visited, p, t);
    }
    XorsMore(T, prev, facts, visited, p);
    FromVisitedMore(T0, T, T, prev, facts, facts, visited, p);
  }

  lemma {:induction false} NoBlockYet(T: seq<Pterm>, prev: seq<Units>, order: seq<PtAsgn>, i: nat, n: nat)
    requires i <= n <= |order| && (forall k | i <= k < n :: !Blocks(T, prev, order[..k], order[k]))
    requires n < |order| ==> Blocks(T, prev, order[..n], order[n])
    ensures StopIndex(T, prev, order, i) == n
    decreases n - i
  {
    hide Blocks;
    if i < n {
      NoBlockYet(T, prev, order, i + 1, n);
    }
  }

  function Pairs(n: nat): (r: set<PtAsgn>)
    ensures forall p :: p in r <==> p.tr < n
  {
    if n == 0 then {} else Pairs(n - 1) + {PtAsgn(n - 1, true), PtAsgn(n - 1, false)}
  }

  /** Collects literals that the formula states at top level, none of which contradicts what is known. */
  method GetNewFacts(logic: Logic, root: PTRef, prev: seq<Units>) returns (facts: Units)
    requires logic.Valid() && root < |logic.terms| && HasSortBool(logic.terms, root)
    requires forall j | 0 <= j < |prev| :: UnitsOk(logic.terms, prev[j])
    modifies logic
    ensures logic.Valid() && old(logic.terms) <= logic.terms && (Plain(old(logic.terms)) ==> Plain(logic.terms))
    ensures UnitsOk(logic.terms, facts) && Agree(prev, facts)
    ensures forall t | t in facts :: FactOf(old(logic.terms), root, logic.terms, PtAsgn(t, facts[t]))
    ensures forall t: PTRef | t < |old(logic.terms)| ::
      Known(prev, facts, t) <==> Found(old(logic.terms), prev, Visited(old(logic.terms), root, prev), t)
    ensures Exhausted(old(logic.terms), root, prev, facts) <==> AllReached(old(logic.terms), root, prev)
    ensures XorsKept(logic.terms, prev, facts, Visited(old(logic.terms), root, prev))
    ensures FromVisited(old(logic.terms), logic.terms, prev, facts, Visited(old(logic.terms), root, prev))
  {
    hide Lookup, FromVisited, Tracks, InOrder, Blocks, Order, Visited, Found, Exhausted, AllReached, Added, XorsKept, Stored, StopIndex;
    hide FactOf, FactsOf, QueueOk, Plain, WfTerms, ProperTerm, UnitsOk;
    ghost var T0 := logic.terms;
    facts := map[];
    var isdup: set<PtAsgn> := {};
    var p, sgn := PurifyTerm(logic.terms, root);
    var queue: seq<PtAsgn> := [PtAsgn(p, sgn)];
    ghost var visited: seq<PtAsgn> := [];
    assert QueueOk(T0, root, queue) && FactsOf(T0, root, T0, prev, facts) by { FirstFact(T0, root, prev); }
    OrderStarts(T0, root);
    TracksNothing(T0, prev);
    while queue != []
      invariant logic.Valid() && T0 <= logic.terms && (Plain(T0) ==> Plain(logic.terms))
      invariant InOrder(T0, root, visited, isdup, queue) && Tracks(T0, logic.terms, prev, facts, visited)
      invariant forall k | 0 <= k < |visited| :: visited[k].tr < |T0| && !Blocks(T0, prev, visited[..k], visited[k])
      invariant QueueOk(T0, root, queue) && FactsOf(T0, root, logic.terms, prev, facts)
      decreases Pairs(|T0|) - isdup, |queue|
    {
      QueueTop(T0, root, queue);
      var pta := queue[|queue| - 1];
      ghost var waiting, seen := queue, isdup;
      queue := queue[..|queue| - 1];
      if pta in isdup {
        OrderSkips(T0, root, visited, isdup, waiting);
        continue;
      }
      OrderVisits(T0, root, visited, isdup, waiting);
      NotVisited(T0, root, visited, isdup, waiting, pta);
      ghost var open := Pairs(|T0|) - isdup;
      assert pta in open;
      isdup := isdup + {pta};
      assert pta !in Pairs(|T0|) - isdup;
      ghost var was := visited;
      visited := visited + [pta];
      NoneBlocked(T0, prev, was, pta);
      ghost var T1, facts0 := logic.terms, facts;
      var conflict;
      queue, facts, conflict := Visit(logic, pta, queue, prev, facts, T0, root, was);
      if conflict {
        Stopped(T0, T1, logic.terms, root, prev, facts0, facts, was, pta);
        FactsAre(T0, root, logic.terms, prev, facts);
        return;
      }
    }
    OrderEnds(T0, root, visited, isdup);
    Finished(T0, logic.terms, root, prev, facts, visited);
    FactsAre(T0, root, logic.terms, prev, facts);
  }

  /** Splits the literal, or records it as a fact. */
  method Visit(logic: Logic, pta: PtAsgn, queue: seq<PtAsgn>, prev: seq<Units>, facts: Units, ghost T0: seq<Pterm>, ghost root: PTRef,
               ghost visited: seq<PtAsgn>)
    returns (queue': seq<PtAsgn>, facts': Units, conflict: bool)
    requires logic.Valid() && WfTerms(T0) && T0 <= logic.terms && root < |T0| && QueueOk(T0, root, queue)
    requires FactOf(T0, root, T0, pta) && pta.tr < |T0| && !T0[pta.tr].symb.Not?
    requires FactsOf(T0, root, logic.terms, prev, facts) && Tracks(T0, logic.terms, prev, facts, visited)
    requires pta !in visited && forall k | 0 <= k < |visited| :: visited[k].tr < |T0|
    requires forall j | 0 <= j < |prev| :: UnitsOk(T0, prev[j])
    modifies logic
    ensures logic.Valid() && old(logic.terms) <= logic.terms && (Plain(old(logic.terms)) ==> Plain(logic.terms))
    ensures FactsOf(T0, root, logic.terms, prev, facts') && (conflict <==> Blocks(T0, prev, visited, pta))
    ensures conflict ==> Added(T0, logic.terms, pta, prev, facts, facts') && Lookup(prev + [facts], pta.tr) == LFalse
    ensures !conflict ==> Tracks(T0, logic.terms, prev, facts', visited + [pta])
    ensures !conflict ==> queue' == queue + Successors(T0, pta) && QueueOk(T0, root, queue')
  {
    hide Lookup, Tracks, Added, Stored, FactOf, FactsOf, QueueOk, Plain, WfTerms, ProperTerm, UnitsOk;
    queue', facts', conflict := queue, facts, false;
    var t := logic.terms[pta.tr];
    if t.symb.And? && pta.sgn {
      queue' := PushArgs(logic, pta, queue, T0, root);
      TracksSplit(T0, logic.terms, prev, facts, visited, pta);
    } else if t.symb.Or? && !pta.sgn {
      queue' := PushArgs(logic, pta, queue, T0, root);
      TracksSplit(T0, logic.terms, prev, facts, visited, pta);
    } else if t.symb.And? && !pta.sgn && |t.args| == 1 {
      queue' := PushArgs(logic, pta, queue, T0, root);
      TracksSplit(T0, logic.terms, prev, facts, visited, pta);
    } else if t.symb.Or? && pta.sgn && |t.args| == 1 {
      queue' := PushArgs(logic, pta, queue, T0, root);
      TracksSplit(T0, logic.terms, prev, facts, visited, pta);
    } else {
      ghost var T1 := logic.terms;
      ConflictBlocks(T0, T1, prev, facts, visited, pta);
      facts', conflict := AddFact(logic, pta, prev, facts, T0, root);
      if !conflict {
        StoredTerms(logic.terms, logic.table);
        TracksFact(T0, T1, logic.terms, logic.table, prev, facts, facts', visited, pta);
        assert queue + [] == queue;
      }
    }
  }

  lemma StoredTerms(T: seq<Pterm>, table: map<Pterm, PTRef>)
    requires forall r: PTRef | r < |T| :: T[r] in table && table[T[r]] == r
    requires forall r: PTRef | r < |T| :: ProperTerm(T, T[r])
    ensures Stored(T, table)
  {
  }

  lemma NotVisited(T: seq<Pterm>, root: PTRef, visited: seq<PtAsgn>, done: set<PtAsgn>, queue: seq<PtAsgn>, p: PtAsgn)
    requires WfTerms(T) && root < |T| && InOrder(T, root, visited, done, queue) && p !in done
    ensures p !in visited
  {
  }

  lemma NoneBlocked(T: seq<Pterm>, prev: seq<Units>, visited: seq<PtAsgn>, p: PtAsgn)
    requires forall k | 0 <= k < |visited| :: visited[k].tr < |T| && !Blocks(T, prev, visited[..k], visited[k])
    ensures (visited + [p])[..|visited|] == visited && (visited + [p])[|visited|] == p
    ensures forall k | 0 <= k < |visited| :: (visited + [p])[..k] == visited[..k] && (visited + [p])[k] == visited[k]
  {
  }

  /** The search ended early. */
  lemma Stopped(T0: seq<Pterm>, T: seq<Pterm>, T': seq<Pterm>, root: PTRef, prev: seq<Units>, facts: Units, facts': Units, visited: seq<PtAsgn>, p: PtAsgn)
    requires WfTerms(T0) && root < |T0| && T <= T' && Tracks(T0, T, prev, facts, visited)
    requires Added(T0, T', p, prev, facts, facts') && Lookup(prev + [facts], p.tr) == LFalse
    requires Blocks(T0, prev, visited, p) && |visited| < |Order(T0, root)| && Order(T0, root)[|visited|] == p && Order(T0, root)[..|visited|] == visited
    requires forall k | 0 <= k < |visited| :: visited[k].tr < |T0| && !Blocks(T0, prev, visited[..k], visited[k])
    ensures facts' == facts && Visited(T0, root, prev) == visited
    ensures forall t: PTRef | t < |T0| :: Known(prev, facts', t) <==> Found(T0, prev, visited, t)
    ensures Exhausted(T0, root, prev, facts') <==> AllReached(T0, root, prev)
    ensures XorsKept(T', prev, facts', visited) && FromVisited(T0, T', prev, facts', visited)
  {
    hide Lookup, Blocks, Order, Found, IsXorEquality, FromVisited;
    LookupLast(prev, facts, p.tr);
    var order := Order(T0, root);
    forall k | 0 <= k < |visited| ensures !Blocks(T0, prev, order[..k], order[k]) {
      assert order[..k] == visited[..k] && order[k] == visited[k];
    }
    NoBlockYet(T0, prev, order, 0, |visited|);
    ExhaustedIff(T0, root, prev, facts, visited);
    XorsGrow(T, T', prev, facts, facts', visited);
    FromVisitedGrow(T0, T, T', prev, facts, visited);
  }

  lemma Finished(T0: seq<Pterm>, T: seq<Pterm>, root: PTRef, prev: seq<Units>, facts: Units, visited: seq<PtAsgn>)
    requires WfTerms(T0) && root < |T0| && Tracks(T0, T, prev, facts, visited) && Order(T0, root) == visited
    requires forall k | 0 <= k < |visited| :: visited[k].tr < |T0| && !Blocks(T0, prev, visited[..k], visited[k])
    ensures Visited(T0, root, prev) == visited
    ensures forall t: PTRef | t < |T0| :: Known(prev, facts, t) <==> Found(T0, prev, visited, t)
    ensures Exhausted(T0, root, prev, facts) <==> AllReached(T0, root, prev)
    ensures XorsKept(T, prev, facts, visited) && FromVisited(T0, T, prev, facts, visited)
  {
    hide Lookup, Blocks, Order, Found, IsXorEquality, FromVisited;
    NoBlockYet(T0, prev, visited, 0, |visited|);
    assert visited[..|visited|] == visited;
    ExhaustedIff(T0, root, prev, facts, visited);
  }

  lemma ExhaustedIff(T: seq<Pterm>, root: PTRef, prev: seq<Units>, facts: Units, visited: seq<PtAsgn>)
    requires WfTerms(T) && root < |T| && Visited(T, root, prev) == visited
    requires forall t: PTRef | t < |T| :: Known(prev, facts, t) <==> Found(T, prev, visited, t)
    ensures Exhausted(T, root, prev, facts) <==> AllReached(T, root, prev)
  {
    hide Lookup, Order, Found, Visited;
    OrderStates(T, root);
  }

  lemma FirstFact(T: seq<Pterm>, root: PTRef, prev: seq<Units>)
    requires WfTerms(T) && root < |T| && HasSortBool(T, root)
    ensures var (p, neg) := Purify(T, root); QueueOk(T, root, [PtAsgn(p, !neg)])
    ensures FactsOf(T, root, T, prev, map[])
  {
    PurifyFact(T, root, root, true);
    PurifyBelow(T, root);
  }

  lemma FactsAre(T0: seq<Pterm>, root: PTRef, T: seq<Pterm>, prev: seq<Units>, facts: Units)
    requires WfTerms(T0) && root < |T0| && WfTerms(T) && FactsOf(T0, root, T, prev, facts)
    ensures UnitsOk(T, facts) && Agree(prev, facts)
    ensures forall t | t in facts :: FactOf(T0, root, T, PtAsgn(t, facts[t]))
  {
  }

  // ----- when nothing is lost -----

  /** No literal stated is false in the previous frames. */
  ghost predicate NoneFalse(T: seq<Pterm>, root: PTRef, prev: seq<Units>)
    requires WfTerms(T) && root < |T|
  {
    forall p | States(T, root, true, p) && p.tr < |T| && !Splits(T[p.tr], p.sgn) :: Lookup(prev, p.tr) != LFalse
  }

  /** No Boolean variable is stated both ways. */
  ghost predicate NoneBothWays(T: seq<Pterm>, root: PTRef)
    requires WfTerms(T) && root < |T|
  {
    forall t: PTRef | t < |T| && IsBoolAtom(T, t) :: !(States(T, root, true, PtAsgn(t, true)) && States(T, root, true, PtAsgn(t, false)))
  }

  /** Then all literals are visited, and all that can be collected are known. */
  lemma NothingLost(T: seq<Pterm>, root: PTRef, prev: seq<Units>)
    requires WfTerms(T) && root < |T| && NoneFalse(T, root, prev) && NoneBothWays(T, root)
    ensures Visited(T, root, prev) == Order(T, root) && AllReached(T, root, prev)
  {
    hide States, Lookup, Order, IsXorEquality;
    OrderStates(T, root);
    var order := Order(T, root);
    forall n | 0 <= n < |order| ensures !Blocks(T, prev, order[..n], order[n]) {
      var p := order[n];
      assert p in order && p == PtAsgn(p.tr, p.sgn);
      forall q | q in order[..n] ensures q in order {
      }
    }
    NoBlockYet(T, prev, order, 0, |order|);
    assert order[..|order|] == order;
    forall p | p in order && Collectable(T, p) ensures Found(T, prev, order, p.tr) {
      var j :| 0 <= j < |order| && order[j] == p;
      assert Finds(T, prev, order[j], p.tr);
    }
  }

  /** What a true formula states holds. */
  lemma {:induction false} StatedHolds(T: seq<Pterm>, M: Interp, r: PTRef, sgn: bool, p: PtAsgn)
    requires WfTerms(T) && r < |T| && AsgnHolds(T, M, PtAsgn(r, sgn)) && States(T, r, sgn, p)
    ensures p.tr < |T| && AsgnHolds(T, M, p)
    decreases r
  {
    EvalDef(T, M, r);
    assert WfTerm(T, r);
    var args := T[r].args;
    if T[r].symb.Not? {
      assert EvalSeq(T, M, args)[0] == Eval(T, M, args[0]);
      StatedHolds(T, M, args[0], !sgn, p);
    } else if p != PtAsgn(r, sgn) {
      var i :| 0 <= i < |args| && States(T, args[i], sgn, p);
      assert EvalSeq(T, M, args)[i] == Eval(T, M, args[i]);
      StatedHolds(T, M, args[i], sgn, p);
    }
  }

  /** For a formula that has a model, the search ends early exactly when some literal that the formula
      states has a term that is false in the previous frames. */
  lemma EndsEarlyExactly(T: seq<Pterm>, M: Interp, root: PTRef, prev: seq<Units>)
    requires WfTerms(T) && root < |T| && Eval(T, M, root) == TT
    ensures Visited(T, root, prev) == Order(T, root) <==> NoneFalse(T, root, prev)
  {
    hide States, Lookup, Order, Eval;
    OrderStates(T, root);
    var order := Order(T, root);
    if NoneFalse(T, root, prev) {
      forall t: PTRef | t < |T| && States(T, root, true, PtAsgn(t, true)) ensures !States(T, root, true, PtAsgn(t, false)) {
        StatedHolds(T, M, root, true, PtAsgn(t, true));
        if States(T, root, true, PtAsgn(t, false)) {
          StatedHolds(T, M, root, true, PtAsgn(t, false));
          assert false;
        }
      }
      NothingLost(T, root, prev);
    } else {
      var p :| States(T, root, true, p) && p.tr < |T| && !Splits(T[p.tr], p.sgn) && Lookup(prev, p.tr) == LFalse;
      var k :| 0 <= k < |order| && order[k] == p;
      assert Blocks(T, prev, order[..k], order[k]);
      assert |Visited(T, root, prev)| <= k;
    }
  }

  /** A literal is lost: the negation of x, stated next to y, ends the search when x is already known
      to be false, as it states. */
  lemma FactLost(T: seq<Pterm>, root: PTRef, x: PTRef, y: PTRef, n: PTRef, prev: seq<Units>)
    requires WfTerms(T) && root < |T| && n < |T| && x < |T| && y < |T|
    requires T[root] == Pterm(And, [y, n]) && T[n] == Pterm(Not, [x])
    requires T[x].symb.BoolVar? && T[y].symb.BoolVar? && x != y && prev == [map[x := false]]
    ensures NoneBothWays(T, root) && !NoneFalse(T, root, prev) && States(T, root, true, PtAsgn(y, true))
    ensures !AllReached(T, root, prev)
  {
    hide Order, States, Lookup, WfTerms, IsXorEquality;
    TwoConjuncts(T, root, x, y, n);
    OrderStates(T, root);
    SingleLookup(prev, x, y);
    var order := Order(T, root);
    StopsSecond(T, prev, order, root, x, y);
    assert PtAsgn(x, false) in order && PtAsgn(y, true) in order;
  }

  lemma SingleLookup(prev: seq<Units>, x: PTRef, y: PTRef)
    requires prev == [map[x := false]] && x != y
    ensures Lookup(prev, x) == LFalse && Lookup(prev, y) == LUndef
  {
  }

  lemma StopsSecond(T: seq<Pterm>, prev: seq<Units>, order: seq<PtAsgn>, root: PTRef, x: PTRef, y: PTRef)
    requires root < |T| && x < |T| && y < |T| && T[root].symb.And? && T[x].symb.BoolVar? && root != y
    requires order == [PtAsgn(root, true), PtAsgn(x, false), PtAsgn(y, true)]
    requires Lookup(prev, x) == LFalse && Lookup(prev, y) == LUndef
    ensures StopIndex(T, prev, order, 0) == 1 && !Found(T, prev, order[..1], y)
  {
    hide Lookup;
    NoBlockYet(T, prev, order, 0, 1);
  }

  lemma TwoConjuncts(T: seq<Pterm>, root: PTRef, x: PTRef, y: PTRef, n: PTRef)
    requires WfTerms(T) && root < |T| && n < |T| && x < |T| && y < |T|
    requires T[root] == Pterm(And, [y, n]) && T[n] == Pterm(Not, [x])
    requires T[x].symb.BoolVar? && T[y].symb.BoolVar? && x != y
    ensures Order(T, root) == [PtAsgn(root, true), PtAsgn(x, false), PtAsgn(y, true)] && x != root && y != root
  {
    assert WfTerm(T, root) && WfTerm(T, n);
    assert Lits(T, y, true) == [PtAsgn(y, true)];
    assert Lits(T, n, true) == Lits(T, x, false) == [PtAsgn(x, false)];
    assert LitsOf(T, root, true, 0) == [];
    assert LitsOf(T, root, true, 1) == [PtAsgn(y, true)];
    assert LitsOf(T, root, true, 2) == [PtAsgn(x, false)] + [PtAsgn(y, true)];
    var a, b, c := PtAsgn(root, true), PtAsgn(x, false), PtAsgn(y, true);
    assert Lits(T, root, true) == [a] + ([b] + ([c] + []));
    DedupFirst(a, [b] + ([c] + []), {});
    DedupFirst(b, [c] + [], {a});
    DedupFirst(c, [], {a} + {b});
    assert {} + {a} == {a};
  }
}
