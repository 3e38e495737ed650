/** Flattening of nested conjunctions and disjunctions before clausification. */
module BoolRewriting {
  import opened Terms
  import opened LogicStore
  import opened Vectors

  ghost predicate Joined(T: seq<Pterm>, val: Valuation, isAnd: bool, rs: seq<PTRef>)
    requires WfTerms(T) && InStore(T, rs)
  {
    if isAnd then AllTrue(T, val, rs) else SomeTrue(T, val, rs)
  }

  lemma JoinedAppend(T: seq<Pterm>, isAnd: bool, rs: seq<PTRef>, ss: seq<PTRef>)
    requires WfTerms(T) && InStore(T, rs) && InStore(T, ss)
    ensures InStore(T, rs + ss)
    ensures forall val: Valuation ::
      Joined(T, val, isAnd, rs + ss) ==
      if isAnd then Joined(T, val, isAnd, rs) && Joined(T, val, isAnd, ss) else Joined(T, val, isAnd, rs) || Joined(T, val, isAnd, ss)
  {
    assert forall a :: a in rs + ss <==> a in rs || a in ss;
  }

  ghost predicate Equivalent(T: seq<Pterm>, r: PTRef, s: PTRef)
    requires WfTerms(T)
  {
    && r < |T| && s < |T| && HasSortBool(T, r) && HasSortBool(T, s)
    && forall val: Valuation :: PropEval(T, val, r) == PropEval(T, val, s)
  }

  lemma EquivalentPrefix(T: seq<Pterm>, T': seq<Pterm>, r: PTRef, s: PTRef)
    requires WfTerms(T) && WfTerms(T') && T <= T' && Equivalent(T, r, s)
    ensures Equivalent(T', r, s)
  {
    forall val: Valuation ensures PropEval(T', val, r) == PropEval(T', val, s) {
      PropEvalPrefix(T, T', val, r);
      PropEvalPrefix(T, T', val, s);
    }
  }

  ghost predicate CacheOk(T: seq<Pterm>, cache: map<PTRef, PTRef>)
    requires WfTerms(T)
  {
    forall k | k in cache :: Equivalent(T, cache[k], k)
  }

  // ----- what flattening gives -----

  predicate Cached(T: seq<Pterm>, cache: map<PTRef, PTRef>, args: seq<PTRef>) {
    forall i | 0 <= i < |args| :: args[i] < |T| && args[i] in cache && cache[args[i]] < |T|
  }

  /** The argument of the same kind is not shared and stays of that kind: its arguments are spliced in. */
  predicate Merges(T: seq<Pterm>, cache: map<PTRef, PTRef>, doNotMerge: set<PTRef>, sr: Sym, a: PTRef)
    requires a < |T| && a in cache && cache[a] < |T|
  {
    T[a].symb == sr && a !in doNotMerge && T[cache[a]].symb == sr
  }

  function Spliced(T: seq<Pterm>, cache: map<PTRef, PTRef>, doNotMerge: set<PTRef>, sr: Sym, args: seq<PTRef>): seq<PTRef>
    requires Cached(T, cache, args)
  {
    if args == [] then []
    else
      var a := args[|args| - 1];
      Spliced(T, cache, doNotMerge, sr, args[..|args| - 1])
      + if Merges(T, cache, doNotMerge, sr, a) then T[cache[a]].args else [cache[a]]
  }

  predicate Changes(T: seq<Pterm>, cache: map<PTRef, PTRef>, doNotMerge: set<PTRef>, sr: Sym, args: seq<PTRef>)
    requires Cached(T, cache, args)
  {
    exists i | 0 <= i < |args| :: cache[args[i]] != args[i] || Merges(T, cache, doNotMerge, sr, args[i])
  }

  /** A conjunction or disjunction becomes that of the flattened arguments, those merged spliced in; it
      stays itself when none of them changes, and so does any other term. */
  ghost predicate Flat(T: seq<Pterm>, cache: map<PTRef, PTRef>, doNotMerge: set<PTRef>, tr: PTRef)
    requires tr < |T| && tr in cache
  {
    var sr, args, r := T[tr].symb, T[tr].args, cache[tr];
    r < |T| &&
    if sr.And? || sr.Or? then
      && Cached(T, cache, args)
      && if !Changes(T, cache, doNotMerge, sr, args) then r == tr
         else if sr.And? then AndResult(T, Spliced(T, cache, doNotMerge, sr, args), r)
         else InStore(T, Spliced(T, cache, doNotMerge, sr, args)) && OrResult(T, Spliced(T, cache, doNotMerge, sr, args), r)
    else r == tr
  }

  ghost predicate FlatCache(T: seq<Pterm>, cache: map<PTRef, PTRef>, doNotMerge: set<PTRef>) {
    forall k | k in cache :: k < |T| && Flat(T, cache, doNotMerge, k)
  }

  /** The root flattened bottom-up. */
  ghost predicate Flattens(T: seq<Pterm>, doNotMerge: set<PTRef>, root: PTRef, r: PTRef) {
    exists cache :: FlatCache(T, cache, doNotMerge) && root in cache && cache[root] == r
  }

  ghost predicate Extends(cache: map<PTRef, PTRef>, cache': map<PTRef, PTRef>) {
    forall k | k in cache :: k in cache' && cache'[k] == cache[k]
  }

  lemma {:induction false} SplicedGrows(T: seq<Pterm>, T': seq<Pterm>, cache: map<PTRef, PTRef>, cache': map<PTRef, PTRef>,
                                        doNotMerge: set<PTRef>, sr: Sym, args: seq<PTRef>)
    requires T <= T' && Cached(T, cache, args) && forall i | 0 <= i < |args| :: args[i] in cache' && cache'[args[i]] == cache[args[i]]
    ensures Cached(T', cache', args) && Spliced(T', cache', doNotMerge, sr, args) == Spliced(T, cache, doNotMerge, sr, args)
    ensures Changes(T', cache', doNotMerge, sr, args) == Changes(T, cache, doNotMerge, sr, args)
    decreases |args|
  {
    if args != [] {
      SplicedGrows(T, T', cache, cache', doNotMerge, sr, args[..|args| - 1]);
    }
    forall i | 0 <= i < |args|
      ensures Merges(T', cache', doNotMerge, sr, args[i]) == Merges(T, cache, doNotMerge, sr, args[i])
    {
    }
  }

  lemma FlatGrows(T: seq<Pterm>, T': seq<Pterm>, cache: map<PTRef, PTRef>, cache': map<PTRef, PTRef>, doNotMerge: set<PTRef>, tr: PTRef)
    requires WfTerms(T) && T <= T' && Extends(cache, cache') && tr < |T| && tr in cache && Flat(T, cache, doNotMerge, tr)
    ensures Flat(T', cache', doNotMerge, tr)
  {
    hide Spliced, Changes, WfTerms, OrResult;
    var sr, args := T[tr].symb, T[tr].args;
    if sr.And? || sr.Or? {
      SplicedGrows(T, T', cache, cache', doNotMerge, sr, args);
      if sr.Or? && Changes(T, cache, doNotMerge, sr, args) {
        OrResultGrows(T, T', Spliced(T, cache, doNotMerge, sr, args), cache[tr]);
      }
    }
  }

  lemma FlatAdds(T: seq<Pterm>, T': seq<Pterm>, cache: map<PTRef, PTRef>, doNotMerge: set<PTRef>, tr: PTRef, result: PTRef)
    requires WfTerms(T) && T <= T' && FlatCache(T, cache, doNotMerge) && tr !in cache && tr < |T'|
    requires Flat(T', cache[tr := result], doNotMerge, tr)
    ensures FlatCache(T', cache[tr := result], doNotMerge)
  {
    hide Flat, WfTerms;
    var cache' := cache[tr := result];
    forall k | k in cache' ensures k < |T'| && Flat(T', cache', doNotMerge, k) {
      if k != tr {
        FlatGrows(T, T', cache, cache', doNotMerge, k);
      }
    }
  }

  lemma {:induction false} SplicedHolds(T: seq<Pterm>, cache: map<PTRef, PTRef>, doNotMerge: set<PTRef>, sr: Sym, args: seq<PTRef>, i: nat)
    requires Cached(T, cache, args) && i < |args|
    ensures var a, all := args[i], Spliced(T, cache, doNotMerge, sr, args);
      if Merges(T, cache, doNotMerge, sr, a) then forall x | x in T[cache[a]].args :: x in all else cache[a] in all
    decreases |args|
  {
    hide Merges;
    if i < |args| - 1 {
      SplicedHolds(T, cache, doNotMerge, sr, args[..|args| - 1], i);
    }
  }

  /** Nothing is lost: unless the whole collapses, the arguments of a nested term of the same kind that
      is not shared become arguments of the outer one, and so do the other flattened arguments. */
  lemma NestedMerged(T: seq<Pterm>, cache: map<PTRef, PTRef>, doNotMerge: set<PTRef>, tr: PTRef, i: nat, x: PTRef)
    requires WfTerms(T) && tr < |T| && tr in cache && Flat(T, cache, doNotMerge, tr) && (T[tr].symb.And? || T[tr].symb.Or?)
    requires i < |T[tr].args| && Cached(T, cache, T[tr].args)
    requires var a := T[tr].args[i];
      if Merges(T, cache, doNotMerge, T[tr].symb, a) then x in T[cache[a]].args else x == cache[a]
    ensures var r := cache[tr];
      if T[tr].symb.And? then r == TERM_FALSE || r == x || x in T[r].args || x == TERM_TRUE
      else r == TERM_TRUE || r == x || x in T[r].args || x == TERM_FALSE
  {
    hide Spliced, WfTerms, HasPair;
    var sr, args, r := T[tr].symb, T[tr].args, cache[tr];
    SplicedHolds(T, cache, doNotMerge, sr, args, i);
    var all := Spliced(T, cache, doNotMerge, sr, args);
    assert x in all;
    if Changes(T, cache, doNotMerge, sr, args) {
      if sr.And? {
        assert x != TERM_TRUE ==> x in Without(all, TERM_TRUE);
        if AndResult(T, all, r) && |Without(all, TERM_TRUE)| == 1 && x != TERM_TRUE && TERM_FALSE !in all {
          OnlyOne(Without(all, TERM_TRUE), r, x);
        }
      } else {
        assert x != TERM_FALSE ==> x in Without(all, TERM_FALSE);
        if |Without(all, TERM_FALSE)| == 1 && x != TERM_FALSE && TERM_TRUE !in all && !HasPair(T, all) {
          OnlyOne(Without(all, TERM_FALSE), r, x);
        }
      }
    }
  }

  /** What flattening gives depends on the formula and the shared terms only, not on the order of the
      visit nor on what is stored besides. */
  lemma {:induction false} SameFlattening(T: seq<Pterm>, T': seq<Pterm>, table: map<Pterm, PTRef>, cache: map<PTRef, PTRef>,
                                          cache': map<PTRef, PTRef>, doNotMerge: set<PTRef>, k: PTRef)
    requires WfTerms(T) && WfTerms(T') && T <= T' && Hashed(T', table)
    requires FlatCache(T, cache, doNotMerge) && FlatCache(T', cache', doNotMerge) && k in cache && k in cache'
    ensures cache[k] == cache'[k]
    decreases k
  {
    hide Spliced, Changes, WfTerms, OrResult, AndResult, Hashed;
    assert Flat(T, cache, doNotMerge, k) && Flat(T', cache', doNotMerge, k);
    var sr, args := T[k].symb, T[k].args;
    if sr.And? || sr.Or? {
      TermIsWf(T, k);
      forall i | 0 <= i < |args| ensures args[i] in cache' && cache'[args[i]] == cache[args[i]] {
        SameFlattening(T, T', table, cache, cache', doNotMerge, args[i]);
      }
      SplicedGrows(T, T', cache, cache', doNotMerge, sr, args);
      if Changes(T, cache, doNotMerge, sr, args) {
        SameJoin(T, T', table, sr, Spliced(T, cache, doNotMerge, sr, args), cache[k], cache'[k]);
      }
    }
  }

  lemma SameJoin(T: seq<Pterm>, T': seq<Pterm>, table: map<Pterm, PTRef>, sr: Sym, args: seq<PTRef>, r: PTRef, r': PTRef)
    requires WfTerms(T) && WfTerms(T') && T <= T' && Hashed(T', table)
    requires sr.And? ==> AndResult(T, args, r) && AndResult(T', args, r')
    requires sr.Or? ==> InStore(T, args) && InStore(T', args) && OrResult(T, args, r) && OrResult(T', args, r')
    requires sr.And? || sr.Or?
    ensures r == r'
  {
    hide OrResult, AndResult, WfTerms, ProperTerm;
    if sr.And? {
      SameConjunction(T, T', table, args, args, r, r');
    } else {
      SameDisjunction(T, T', table, args, args, r, r');
    }
  }

  /** The rewritten arguments of a conjunction or disjunction, with those of the same kind
      spliced in.  Arguments in doNotMerge are shared and stay as they are. */
  method GatherArgs(logic: Logic, tr: PTRef, cache: map<PTRef, PTRef>, doNotMerge: set<PTRef>)
    returns (newArgs: seq<PTRef>, changed: bool)
    requires logic.Valid() && tr < |logic.terms| && (logic.terms[tr].symb.And? || logic.terms[tr].symb.Or?)
    requires CacheOk(logic.terms, cache) && forall a | a in logic.terms[tr].args :: a in cache
    ensures AllBool(logic.terms, newArgs)
    ensures var T, t := logic.terms, logic.terms[tr];
      && Cached(T, cache, t.args) && newArgs == Spliced(T, cache, doNotMerge, t.symb, t.args)
      && (changed <==> Changes(T, cache, doNotMerge, t.symb, t.args))
    ensures forall val: Valuation ::
      Joined(logic.terms, val, logic.terms[tr].symb.And?, newArgs) == PropEval(logic.terms, val, tr)
  {
    hide PropEval, ProperTerm, Joined, WfTerms, Equivalent, Spliced, Changes;
    ghost var T := logic.terms;
    var sr := logic.terms[tr].symb;
    var args := logic.terms[tr].args;
    newArgs, changed := [], false;
    JoinedTerm(T, tr);
    ArgsCached(T, cache, args);
    NothingJoined(T, sr.And?, args);
    NothingSpliced(T, cache, doNotMerge, sr, args);
    for i := 0 to |args|
      invariant AllBool(T, newArgs)
      invariant newArgs == Spliced(T, cache, doNotMerge, sr, args[..i])
      invariant changed <==> Changes(T, cache, doNotMerge, sr, args[..i])
      invariant forall val: Valuation :: Joined(T, val, sr.And?, newArgs) == Joined(T, val, sr.And?, args[..i])
    {
      assert args[i] in args;
      var subst := cache[args[i]];
      assert Equivalent(T, subst, args[i]);
      JoinedArg(T, sr, subst, args[i]);
      var more := [subst];
      changed := changed || subst != args[i];
      if logic.terms[args[i]].symb == sr && args[i] !in doNotMerge && logic.terms[subst].symb == sr {
        changed := true;
        more := logic.terms[subst].args;
      }
      JoinedAppend(T, sr.And?, newArgs, more);
      JoinedAppend(T, sr.And?, args[..i], [args[i]]);
      assert args[..i + 1] == args[..i] + [args[i]];
      ChangesMore(T, cache, doNotMerge, sr, args, i);
      newArgs := newArgs + more;
    }
    assert args[..|args|] == args;
  }

  lemma NothingSpliced(T: seq<Pterm>, cache: map<PTRef, PTRef>, doNotMerge: set<PTRef>, sr: Sym, args: seq<PTRef>)
    ensures Cached(T, cache, args[..0]) && Spliced(T, cache, doNotMerge, sr, args[..0]) == []
    ensures !Changes(T, cache, doNotMerge, sr, args[..0])
  {
  }

  lemma ArgsCached(T: seq<Pterm>, cache: map<PTRef, PTRef>, args: seq<PTRef>)
    requires WfTerms(T) && InStore(T, args) && CacheOk(T, cache) && forall a | a in args :: a in cache
    ensures Cached(T, cache, args) && forall i | 0 <= i <= |args| :: Cached(T, cache, args[..i])
  {
    forall i | 0 <= i < |args| ensures args[i] in cache && cache[args[i]] < |T| {
      assert args[i] in args;
      assert Equivalent(T, cache[args[i]], args[i]);
    }
  }

  lemma ChangesMore(T: seq<Pterm>, cache: map<PTRef, PTRef>, doNotMerge: set<PTRef>, sr: Sym, args: seq<PTRef>, i: nat)
    requires i < |args| && Cached(T, cache, args) && Cached(T, cache, args[..i]) && Cached(T, cache, args[..i + 1])
    ensures Changes(T, cache, doNotMerge, sr, args[..i + 1]) <==>
            Changes(T, cache, doNotMerge, sr, args[..i]) || cache[args[i]] != args[i] || Merges(T, cache, doNotMerge, sr, args[i])
    ensures Spliced(T, cache, doNotMerge, sr, args[..i + 1]) ==
            Spliced(T, cache, doNotMerge, sr, args[..i])
            + if Merges(T, cache, doNotMerge, sr, args[i]) then T[cache[args[i]]].args else [cache[args[i]]]
  {
    hide Merges;
    assert args[..i + 1] == args[..i] + [args[i]] && args[..i + 1][..i] == args[..i];
    if Changes(T, cache, doNotMerge, sr, args[..i]) {
      var j :| 0 <= j < i && (cache[args[..i][j]] != args[..i][j] || Merges(T, cache, doNotMerge, sr, args[..i][j]));
      assert args[..i + 1][j] == args[..i][j];
    }
    if Changes(T, cache, doNotMerge, sr, args[..i + 1]) {
      var j :| 0 <= j < i + 1 && (cache[args[..i + 1][j]] != args[..i + 1][j] || Merges(T, cache, doNotMerge, sr, args[..i + 1][j]));
      assert j < i ==> args[..i + 1][j] == args[..i][j];
    }
    assert args[..i + 1][i] == args[i];
  }

  lemma JoinedTerm(T: seq<Pterm>, tr: PTRef)
    requires WfTerms(T) && tr < |T| && (T[tr].symb.And? || T[tr].symb.Or?)
    ensures AllBool(T, T[tr].args) && InStore(T, T[tr].args)
    ensures forall val: Valuation :: Joined(T, val, T[tr].symb.And?, T[tr].args) == PropEval(T, val, tr)
  {
    assert WfTerm(T, tr);
  }

  lemma NothingJoined(T: seq<Pterm>, isAnd: bool, args: seq<PTRef>)
    requires WfTerms(T)
    ensures args[..0] == [] && forall val: Valuation :: Joined(T, val, isAnd, []) == Joined(T, val, isAnd, args[..0])
  {
  }

  /** What an argument stands for, by itself or by its own arguments. */
  lemma JoinedArg(T: seq<Pterm>, sr: Sym, subst: PTRef, arg: PTRef)
    requires WfTerms(T) && Equivalent(T, subst, arg) && (sr.And? || sr.Or?)
    ensures subst < |T| && arg < |T| && HasSortBool(T, subst)
    ensures forall val: Valuation :: Joined(T, val, sr.And?, [subst]) == PropEval(T, val, arg)
    ensures forall val: Valuation :: Joined(T, val, sr.And?, [arg]) == PropEval(T, val, arg)
    ensures T[subst].symb == sr ==>
              AllBool(T, T[subst].args) && forall val: Valuation :: Joined(T, val, sr.And?, T[subst].args) == PropEval(T, val, arg)
  {
    if T[subst].symb == sr {
      JoinedTerm(T, subst);
    }
    hide PropEval;
    assert subst in [subst] && arg in [arg];
  }

  method MergeAndOrArgs(logic: Logic, tr: PTRef, cache: map<PTRef, PTRef>, doNotMerge: set<PTRef>) returns (r: PTRef)
    requires logic.Valid() && tr < |logic.terms| && (logic.terms[tr].symb.And? || logic.terms[tr].symb.Or?)
    requires CacheOk(logic.terms, cache) && forall a | a in logic.terms[tr].args :: a in cache
    modifies logic
    ensures logic.Valid() && old(logic.terms) <= logic.terms && Equivalent(logic.terms, r, tr)
    ensures Flat(logic.terms, cache[tr := r], doNotMerge, tr)
  {
    hide Spliced, Changes, OrResult, AndResult, Joined, PropEval, Flat, Cached, WfTerms, ProperTerm, IteFree, Plain, OnlyVarsOf, CacheOk,
      AllTrue, SomeTrue;
    ghost var T := logic.terms;
    var newArgs, changed := GatherArgs(logic, tr, cache, doNotMerge);
    if !changed {
      r := tr;
    } else if logic.terms[tr].symb.And? {
      r := logic.MkAnd(newArgs);
    } else {
      r := logic.MkOr(newArgs);
    }
    FlatMade(T, logic.terms, cache, doNotMerge, tr, r);
    JoinedMeaning(T, T[tr].symb.And?, newArgs);
    MergedMeaning(T, logic.terms, tr, r);
  }

  lemma FlatMade(T: seq<Pterm>, T': seq<Pterm>, cache: map<PTRef, PTRef>, doNotMerge: set<PTRef>, tr: PTRef, r: PTRef)
    requires WfTerms(T) && T <= T' && tr < |T| && r < |T'| && (T[tr].symb.And? || T[tr].symb.Or?) && Cached(T, cache, T[tr].args)
    requires var sr, args := T[tr].symb, T[tr].args;
      var all := Spliced(T, cache, doNotMerge, sr, args);
      if !Changes(T, cache, doNotMerge, sr, args) then r == tr
      else if sr.And? then AndResult(T', all, r)
      else InStore(T', all) && OrResult(T', all, r)
    ensures Flat(T', cache[tr := r], doNotMerge, tr)
  {
    hide Spliced, Changes, OrResult, AndResult;
    TermIsWf(T, tr);
    SplicedGrows(T, T', cache, cache[tr := r], doNotMerge, T[tr].symb, T[tr].args);
  }

  lemma MergedMeaning(T: seq<Pterm>, T': seq<Pterm>, tr: PTRef, r: PTRef)
    requires WfTerms(T) && WfTerms(T') && T <= T' && tr < |T| && HasSortBool(T, tr) && r < |T'| && HasSortBool(T', r)
    requires forall val: Valuation :: PropEval(T', val, r) == PropEval(T, val, tr)
    ensures Equivalent(T', r, tr)
  {
    forall val: Valuation ensures PropEval(T', val, r) == PropEval(T', val, tr) {
      PropEvalPrefix(T, T', val, tr);
    }
  }

  lemma JoinedMeaning(T: seq<Pterm>, isAnd: bool, rs: seq<PTRef>)
    requires WfTerms(T) && InStore(T, rs)
    ensures forall val: Valuation :: Joined(T, val, isAnd, rs) == if isAnd then AllTrue(T, val, rs) else SomeTrue(T, val, rs)
  {
  }

  /** Rewrites a formula bottom-up over its DAG.  Which shared nodes are left alone does not
      affect the meaning of the result. */
  method RewriteMaxArity(logic: Logic, root: PTRef, doNotMerge: set<PTRef>) returns (r: PTRef)
    requires logic.Valid() && root < |logic.terms| && IsBooleanOperator(logic.terms[root].symb)
    modifies logic
    ensures logic.Valid() && old(logic.terms) <= logic.terms && Equivalent(logic.terms, r, root)
    ensures Flattens(logic.terms, doNotMerge, root, r)
  {
    hide Equivalent, PropEval, WfTerms, ProperTerm, CacheOk, Flat, FlatCache;
    ghost var T0 := logic.terms;
    var work: seq<PTRef> := [root];
    var cache: map<PTRef, PTRef> := map[];
    assert CacheOk(T0, cache) && FlatCache(T0, cache, doNotMerge) by { CacheEmpty(T0); }
    while work != []
      invariant logic.Valid() && T0 <= logic.terms && CacheOk(logic.terms, cache) && FlatCache(logic.terms, cache, doNotMerge)
      invariant Operators(T0, work)
      invariant root in cache || (work != [] && work[0] == root)
      decreases Refs(|T0|) - cache.Keys, Phase(work, cache.Keys), Depth(work, cache.Keys)
    {
      var tr := work[|work| - 1];
      if tr in cache {
        work := work[..|work| - 1];
        continue;
      }
      var unprocessed;
      ghost var open := Refs(|T0|) - cache.Keys;
      assert tr in open;
      unprocessed, work, cache := ScanArgs(logic, tr, work, cache, T0, doNotMerge);
      assert Refs(|T0|) - cache.Keys <= open;
      if unprocessed {
        assert Refs(|T0|) - cache.Keys == open || Refs(|T0|) - cache.Keys < open;
        continue;
      }
      work := work[..|work| - 1];
      ghost var T1 := logic.terms;
      var result := tr;
      if logic.terms[tr].symb.And? || logic.terms[tr].symb.Or? {
        result := MergeAndOrArgs(logic, tr, cache, doNotMerge);
      } else {
        SelfEquivalent(logic.terms, tr);
        SelfFlat(logic.terms, cache, doNotMerge, tr);
      }
      CacheAdds(T1, logic.terms, cache, tr, result);
      FlatAdds(T1, logic.terms, cache, doNotMerge, tr, result);
      cache := cache[tr := result];
      assert tr !in Refs(|T0|) - cache.Keys;
    }
    r := cache[root];
    CacheAt(logic.terms, cache, root);
  }

  predicate Operators(T: seq<Pterm>, work: seq<PTRef>) {
    forall i | 0 <= i < |work| :: work[i] < |T| && IsBooleanOperator(T[work[i]].symb)
  }

  lemma CacheEmpty(T: seq<Pterm>)
    requires WfTerms(T)
    ensures CacheOk(T, map[]) && forall doNotMerge :: FlatCache(T, map[], doNotMerge)
  {
  }

  lemma CacheAt(T: seq<Pterm>, cache: map<PTRef, PTRef>, k: PTRef)
    requires WfTerms(T) && CacheOk(T, cache) && k in cache
    ensures Equivalent(T, cache[k], k)
  {
  }

  lemma CacheAdds(T: seq<Pterm>, T': seq<Pterm>, cache: map<PTRef, PTRef>, tr: PTRef, result: PTRef)
    requires WfTerms(T) && WfTerms(T') && T <= T' && CacheOk(T, cache) && Equivalent(T', result, tr)
    ensures CacheOk(T', cache[tr := result])
  {
    hide Equivalent;
    CacheOkPrefix(T, T', cache);
  }

  lemma CacheOkPrefix(T: seq<Pterm>, T': seq<Pterm>, cache: map<PTRef, PTRef>)
    requires WfTerms(T) && WfTerms(T') && T <= T' && CacheOk(T, cache)
    ensures CacheOk(T', cache)
  {
    forall k | k in cache ensures Equivalent(T', cache[k], k) {
      EquivalentPrefix(T, T', cache[k], k);
    }
  }

  lemma TermIsWf(T: seq<Pterm>, r: PTRef)
    requires WfTerms(T) && r < |T|
    ensures WfTerm(T, r)
  {
  }

  lemma CachedSelf(T: seq<Pterm>, cache: map<PTRef, PTRef>, doNotMerge: set<PTRef>, tr: PTRef)
    requires tr in cache && FlatCache(T, cache, doNotMerge) && tr < |T| && !T[tr].symb.And? && !T[tr].symb.Or?
    ensures cache[tr := tr] == cache
  {
    hide Cached;
    assert Flat(T, cache, doNotMerge, tr);
  }

  lemma SelfFlat(T: seq<Pterm>, cache: map<PTRef, PTRef>, doNotMerge: set<PTRef>, tr: PTRef)
    requires tr < |T| && !T[tr].symb.And? && !T[tr].symb.Or?
    ensures Flat(T, cache[tr := tr], doNotMerge, tr)
  {
  }

  lemma SelfEquivalent(T: seq<Pterm>, r: PTRef)
    requires WfTerms(T) && r < |T| && HasSortBool(T, r)
    ensures Equivalent(T, r, r)
  {
  }

  /** Pushes the operators among the arguments that are not rewritten yet and records that atoms
      rewrite to themselves. */
  method ScanArgs(logic: Logic, tr: PTRef, work: seq<PTRef>, cache: map<PTRef, PTRef>, ghost T0: seq<Pterm>,
                  ghost doNotMerge: set<PTRef>)
    returns (unprocessed: bool, work': seq<PTRef>, cache': map<PTRef, PTRef>)
    requires logic.Valid() && T0 <= logic.terms && CacheOk(logic.terms, cache) && FlatCache(logic.terms, cache, doNotMerge)
    requires tr < |T0| && tr !in cache && IsBooleanOperator(T0[tr].symb)
    requires Operators(T0, work)
    ensures FlatCache(logic.terms, cache', doNotMerge)
    ensures CacheOk(logic.terms, cache') && cache.Keys <= cache'.Keys && tr !in cache'
    ensures work <= work' && Operators(T0, work')
    ensures !unprocessed ==> work' == work && forall a | a in logic.terms[tr].args :: a in cache'
    ensures unprocessed ==> |work'| > |work| && work'[|work'| - 1] < tr && work'[|work'| - 1] !in cache'
  {
    hide Equivalent, PropEval, CacheOk, WfTerms, ProperTerm, Flat, FlatCache;
    unprocessed, work', cache' := false, work, cache;
    assert WfTerm(logic.terms, tr) by { TermIsWf(logic.terms, tr); }
    var args := logic.terms[tr].args;
    for i := 0 to |args|
      invariant CacheOk(logic.terms, cache') && cache.Keys <= cache'.Keys && tr !in cache'
      invariant FlatCache(logic.terms, cache', doNotMerge)
      invariant work <= work' && Operators(T0, work')
      invariant !unprocessed ==> work' == work && forall k | 0 <= k < i :: args[k] in cache'
      invariant unprocessed ==> |work'| > |work| && work'[|work'| - 1] < tr && work'[|work'| - 1] !in cache'
    {
      assert args[i] < tr && HasSortBool(logic.terms, args[i]) && T0[args[i]] == logic.terms[args[i]];
      if IsBooleanOperator(logic.terms[args[i]].symb) {
        if args[i] !in cache' {
          work' := work' + [args[i]];
          unprocessed := true;
        }
      } else {
        SelfEquivalent(logic.terms, args[i]);
        CacheAdds(logic.terms, logic.terms, cache', args[i], args[i]);
        if args[i] !in cache' {
          SelfFlat(logic.terms, cache', doNotMerge, args[i]);
          FlatAdds(logic.terms, logic.terms, cache', doNotMerge, args[i], args[i]);
        } else {
          CachedSelf(logic.terms, cache', doNotMerge, args[i]);
        }
        cache' := cache'[args[i] := args[i]];
      }
    }
  }
}
