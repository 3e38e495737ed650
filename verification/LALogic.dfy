/** The simplifying constructors of linear arithmetic. */
module LinearArithmetic {
  import opened Vectors
  import opened LinearTerms

  /** A constant, or a monomial without superfluous factors. */
  predicate Clean(t: Term) {
    t.Const? || Reduced(t)
  }

  predicate CleanAll(ts: seq<Term>) {
    forall i | 0 <= i < |ts| :: Clean(ts[i])
  }

  predicate Linear(t: Term) {
    if t.Plus? then CleanAll(t.args) else Clean(t)
  }

  predicate LinearAll(ts: seq<Term>) {
    forall i | 0 <= i < |ts| :: Linear(ts[i])
  }

  predicate AllConst(ts: seq<Term>) {
    forall i | 0 <= i < |ts| :: ts[i].Const?
  }

  /** The sum of the values. */
  function Total(ts: seq<Term>, v: Valuation): real {
    if ts == [] then 0.0 else Total(ts[..|ts| - 1], v) + Eval(ts[|ts| - 1], v)
  }

  // ----- combining constants -----

  datatype Op = Sum | Product

  function Apply(op: Op, s: real, v: real): real {
    if op.Sum? then s + v else s * v
  }

  function Fold(op: Op, cs: seq<real>): real
    requires cs != []
  {
    if |cs| == 1 then cs[0] else Apply(op, Fold(op, cs[..|cs| - 1]), cs[|cs| - 1])
  }

  function Consts(ts: seq<Term>): seq<real> {
    if ts == [] then []
    else Consts(ts[..|ts| - 1]) + if ts[|ts| - 1].Const? then [ts[|ts| - 1].c] else []
  }

  function NonConsts(ts: seq<Term>): seq<Term> {
    if ts == [] then []
    else NonConsts(ts[..|ts| - 1]) + if ts[|ts| - 1].Const? then [] else [ts[|ts| - 1]]
  }

  lemma {:induction false} NonConstsMembers(ts: seq<Term>)
    ensures forall t :: t in NonConsts(ts) <==> t in ts && !t.Const?
    ensures forall i | 0 <= i < |NonConsts(ts)| :: !NonConsts(ts)[i].Const?
  {
    if ts != [] {
      var rest, t := ts[..|ts| - 1], ts[|ts| - 1];
      assert ts == rest + [t];
      NonConstsMembers(rest);
    }
    forall i | 0 <= i < |NonConsts(ts)| ensures !NonConsts(ts)[i].Const? {
      assert NonConsts(ts)[i] in NonConsts(ts);
    }
  }

  lemma Count(ts: seq<Term>)
    ensures |ts| == |Consts(ts)| + |NonConsts(ts)|
  {
    if ts != [] {
      Count(ts[..|ts| - 1]);
    }
  }

  lemma PartsSnoc(ts: seq<Term>, t: Term)
    ensures Consts(ts + [t]) == Consts(ts) + if t.Const? then [t.c] else []
    ensures NonConsts(ts + [t]) == NonConsts(ts) + if t.Const? then [] else [t]
  {
    assert (ts + [t])[..|ts|] == ts;
  }

  /** Several constants are replaced by one at the end. */
  function Combined(op: Op, ts: seq<Term>): seq<Term> {
    if |Consts(ts)| > 1 then NonConsts(ts) + [Const(Fold(op, Consts(ts)))] else ts
  }

  method SimplifyConstOp(op: Op, cs: seq<real>) returns (s: real)
    requires cs != []
    ensures s == Fold(op, cs)
  {
    s := cs[0];
    assert cs[..1] == [cs[0]];
    for i := 1 to |cs|
      invariant s == Fold(op, cs[..i])
    {
      assert cs[..i + 1][..i] == cs[..i];
      s := Apply(op, s, cs[i]);
    }
    assert cs[..|cs|] == cs;
  }

  method CombineConsts(op: Op, args: seq<Term>) returns (any: bool, args2: seq<Term>)
    ensures any <==> Consts(args) != []
    ensures args2 == Combined(op, args)
  {
    var consts: seq<real> := [];
    var others: seq<Term> := [];
    for i := 0 to |args|
      invariant consts == Consts(args[..i]) && others == NonConsts(args[..i])
    {
      assert args[..i + 1] == args[..i] + [args[i]];
      PartsSnoc(args[..i], args[i]);
      if args[i].Const? {
        consts := consts + [args[i].c];
      } else {
        others := others + [args[i]];
      }
    }
    assert args[..|args|] == args;
    any := consts != [];
    if |consts| > 1 {
      var s := SimplifyConstOp(op, consts);
      args2 := others + [Const(s)];
    } else {
      args2 := args;
    }
  }

  lemma FoldSnoc(op: Op, cs: seq<real>, c: real)
    ensures Fold(op, [c]) == c
    ensures cs != [] ==> Fold(op, cs + [c]) == Apply(op, Fold(op, cs), c)
  {
    assert (cs + [c])[..|cs|] == cs;
  }

  lemma {:induction false} SumParts(ts: seq<Term>, v: Valuation)
    requires Consts(ts) != []
    ensures SumVal(ts, v) == SumVal(NonConsts(ts), v) + Fold(Sum, Consts(ts))
  {
    hide Fold, MonoVal, SumVal, NonConsts;
    assert ts != [];
    hide Consts;
    var rest, t := ts[..|ts| - 1], ts[|ts| - 1];
    assert ts == rest + [t];
    PartsSnoc(rest, t);
    SumSnoc(rest, t, v);
    assert Consts(rest) + [] == Consts(rest) && NonConsts(rest) + [] == NonConsts(rest);
    if t.Const? {
      ConstVal(t.c, v);
      FoldSnoc(Sum, Consts(rest), t.c);
    }
    if Consts(rest) == [] {
      OnlyNonConsts(rest);
      assert t.Const? && Consts(ts) == [t.c];
    } else {
      SumParts(rest, v);
    }
    if !t.Const? {
      SumSnoc(NonConsts(rest), t, v);
    }
  }

  lemma {:induction false} OnlyNonConsts(ts: seq<Term>)
    requires Consts(ts) == []
    ensures NonConsts(ts) == ts
  {
    if ts != [] {
      OnlyNonConsts(ts[..|ts| - 1]);
    }
  }

  lemma CombinedSum(ts: seq<Term>, v: Valuation)
    ensures SumVal(Combined(Sum, ts), v) == SumVal(ts, v)
  {
    if |Consts(ts)| > 1 {
      var c := Const(Fold(Sum, Consts(ts)));
      SumParts(ts, v);
      SumSnoc(NonConsts(ts), c, v);
      assert MonoVal(c, v) == c.c;
    }
  }

  /** At most one constant is left. */
  lemma {:induction false} CombinedOne(op: Op, ts: seq<Term>)
    ensures |Consts(Combined(op, ts))| <= 1 && NonConsts(Combined(op, ts)) == NonConsts(ts)
    ensures Consts(Combined(op, ts)) != [] <==> Consts(ts) != []
  {
    if |Consts(ts)| > 1 {
      var c := Const(Fold(op, Consts(ts)));
      PartsSnoc(NonConsts(ts), c);
      NonConstsMembers(ts);
      NoConsts(NonConsts(ts));
    }
  }

  lemma {:induction false} NoConsts(ts: seq<Term>)
    requires forall i | 0 <= i < |ts| :: !ts[i].Const?
    ensures Consts(ts) == [] && NonConsts(ts) == ts
  {
    if ts != [] {
      var rest, t := ts[..|ts| - 1], ts[|ts| - 1];
      assert ts == rest + [t];
      NoConsts(rest);
      PartsSnoc(rest, t);
      hide Consts, NonConsts;
    }
  }

  // ----- sums -----

  /** What simplification leaves: a single term, or the operands of the operator. */
  datatype Simplified = Whole(t: Term) | Operands(args: seq<Term>)

  function SimplifiedVal(s: Simplified, v: Valuation): real {
    match s
    case Whole(t) => MonoVal(t, v)
    case Operands(args) => SumVal(args, v)
  }

  lemma DropZero(ts: seq<Term>, t: Term, v: Valuation)
    ensures SumVal(ts + [t], v) == if t == Const(0.0) then SumVal(ts, v) else SumVal(ts, v) + MonoVal(t, v)
  {
    SumSnoc(ts, t, v);
  }

  /** Adds up the constants and drops zeros. */
  method SimplifyConstSum(args: seq<Term>) returns (s: Simplified)
    requires CleanAll(args)
    ensures forall v: Valuation :: SimplifiedVal(s, v) == SumVal(args, v)
    ensures s.Whole? ==> Clean(s.t) && (AllConst(args) ==> s.t.Const?)
    ensures s.Operands? ==> CleanAll(s.args) && |Consts(s.args)| <= 1 && (s.args != [] ==> !AllConst(args))
  {
    hide SumVal, MonoVal;
    var any, args2 := CombineConsts(Sum, args);
    CombinedOne(Sum, args);
    CombinedClean(Sum, args);
    forall v: Valuation ensures SumVal(args2, v) == SumVal(args, v) {
      CombinedSum(args, v);
    }
    var argsNew: seq<Term> := [];
    if any {
      argsNew := DropZeros(args2);
      if argsNew == [] {
        s := Whole(Const(0.0));
        ZeroSum();
        return;
      }
    } else {
      argsNew := args2;
    }
    Count(argsNew);
    if |argsNew| == 1 {
      s := Whole(argsNew[0]);
      assert argsNew == [argsNew[0]];
      forall v: Valuation ensures SumVal(argsNew, v) == MonoVal(argsNew[0], v) {
        SumOne(argsNew[0], v);
      }
      assert argsNew[0] in argsNew;
    } else {
      s := Operands(argsNew);
      if argsNew != [] {
        assert NonConsts(argsNew)[0] in NonConsts(argsNew);
        NonConstsMembers(argsNew);
        assert NonConsts(argsNew)[0] in args2;
        NotAllConst(args, NonConsts(argsNew)[0]);
      }
    }
  }

  lemma NotAllConst(args: seq<Term>, t: Term)
    requires t in Combined(Sum, args) && !t.Const?
    ensures !AllConst(args)
  {
    NonConstsMembers(args);
    assert t in args;
  }

  lemma ZeroSum()
    ensures forall v: Valuation :: SumVal([], v) == 0.0 && MonoVal(Const(0.0), v) == 0.0
  {
  }

  lemma CombinedClean(op: Op, args: seq<Term>)
    requires CleanAll(args)
    ensures CleanAll(Combined(op, args))
    ensures AllConst(args) ==> AllConst(Combined(op, args))
  {
    NonConstsMembers(args);
    var r := Combined(op, args);
    forall i | 0 <= i < |r| ensures Clean(r[i]) && (AllConst(args) ==> r[i].Const?) {
      assert r[i] in r;
      assert r[i].Const? || r[i] in args;
    }
  }

  ghost predicate Dropped(args: seq<Term>, r: seq<Term>) {
    && CleanAll(r) && |Consts(r)| <= |Consts(args)| && (forall t :: t in r <==> t in args && t != Const(0.0))
    && forall v: Valuation :: SumVal(r, v) == SumVal(args, v)
  }

  lemma DropStep(args: seq<Term>, r: seq<Term>, t: Term)
    requires Dropped(args, r) && Clean(t)
    ensures Dropped(args + [t], if t == Const(0.0) then r else r + [t])
  {
    hide SumVal, MonoVal, Consts, NonConsts, Reduced;
    PartsSnoc(args, t);
    PartsSnoc(r, t);
    forall v: Valuation ensures SumVal(if t == Const(0.0) then r else r + [t], v) == SumVal(args + [t], v) {
      DropZero(args, t, v);
      DropZero(r, t, v);
    }
  }

  method DropZeros(args: seq<Term>) returns (r: seq<Term>)
    requires CleanAll(args)
    ensures Dropped(args, r)
  {
    hide Dropped, Clean;
    r := [];
    assert Dropped(args[..0], r) by { NothingDropped(args); }
    for i := 0 to |args|
      invariant Dropped(args[..i], r)
    {
      assert args[..i + 1] == args[..i] + [args[i]];
      DropStep(args[..i], r, args[i]);
      if args[i] != Const(0.0) {
        r := r + [args[i]];
      }
    }
    assert args[..|args|] == args;
  }

  lemma NothingDropped(args: seq<Term>)
    ensures Dropped(args[..0], [])
  {
    assert args[..0] == [];
  }

  // ----- collecting the coefficients of each variable -----

  /** The constants collected for each variable, with -1 for the constant part. */
  type Groups = map<int, seq<Term>>

  ghost predicate GroupsOk(keys: seq<int>, s2t: Groups) {
    && (forall i | 0 <= i < |keys| :: keys[i] >= -1 && keys[i] in s2t && s2t[keys[i]] != [] && AllConst(s2t[keys[i]]))
    && (forall k :: k in s2t <==> k in keys)
    && (forall i, j | 0 <= i < j < |keys| :: keys[i] != keys[j])
  }

  function GroupVal(keys: seq<int>, s2t: Groups, v: Valuation): real
    requires forall i | 0 <= i < |keys| :: keys[i] in s2t
  {
    if keys == [] then 0.0
    else GroupVal(keys[..|keys| - 1], s2t, v) + Total(s2t[keys[|keys| - 1]], v) * HeadVal(keys[|keys| - 1], v)
  }

  /** Other entries do not matter. */
  lemma {:induction false} GroupFrame(keys: seq<int>, s2t: Groups, s2t': Groups, v: Valuation)
    requires forall i | 0 <= i < |keys| :: keys[i] in s2t && keys[i] in s2t' && s2t'[keys[i]] == s2t[keys[i]]
    ensures GroupVal(keys, s2t', v) == GroupVal(keys, s2t, v)
  {
    if keys != [] {
      GroupFrame(keys[..|keys| - 1], s2t, s2t', v);
    }
  }

  lemma TotalSnoc(ts: seq<Term>, t: Term, v: Valuation)
    ensures Total(ts + [t], v) == Total(ts, v) + Eval(t, v)
  {
    assert (ts + [t])[..|ts|] == ts;
  }

  lemma DistributeRight(x: real, y: real, h: real)
    ensures (x + y) * h == x * h + y * h
  {
  }

  /** One more constant for a variable that has some. */
  lemma {:induction false} GroupGrows(keys: seq<int>, s2t: Groups, i: nat, c: real, v: Valuation)
    requires i < |keys| && (forall j | 0 <= j < |keys| :: keys[j] in s2t) && forall j, k | 0 <= j < k < |keys| :: keys[j] != keys[k]
    ensures forall j | 0 <= j < |keys| :: keys[j] in s2t[keys[i] := s2t[keys[i]] + [Const(c)]]
    ensures GroupVal(keys, s2t[keys[i] := s2t[keys[i]] + [Const(c)]], v) == GroupVal(keys, s2t, v) + c * HeadVal(keys[i], v)
  {
    hide Total, HeadVal;
    var n := |keys| - 1;
    var s2t' := s2t[keys[i] := s2t[keys[i]] + [Const(c)]];
    if i == n {
      GroupFrame(keys[..n], s2t, s2t', v);
      TotalSnoc(s2t[keys[n]], Const(c), v);
      ConstVal(c, v);
      DistributeRight(Total(s2t[keys[n]], v), c, HeadVal(keys[n], v));
    } else {
      GroupGrows(keys[..n], s2t, i, c, v);
    }
  }

  lemma ConstVal(c: real, v: Valuation)
    ensures Eval(Const(c), v) == c && MonoVal(Const(c), v) == c && SumVal([Const(c)], v) == c && Total([Const(c)], v) == c
  {
    assert HeadVal(-1, v) == 1.0;
    SumOne(Const(c), v);
    TotalSnoc([], Const(c), v);
    assert [] + [Const(c)] == [Const(c)];
  }

  lemma GroupStarts(keys: seq<int>, s2t: Groups, k: int, c: real, v: Valuation)
    requires (forall j | 0 <= j < |keys| :: keys[j] in s2t) && k !in keys
    ensures GroupVal(keys + [k], s2t[k := [Const(c)]], v) == GroupVal(keys, s2t, v) + c * HeadVal(k, v)
  {
    var s2t' := s2t[k := [Const(c)]];
    assert (keys + [k])[..|keys|] == keys;
    GroupFrame(keys, s2t, s2t', v);
    ConstVal(c, v);
  }

  /** The constant part has one constant for every constant collected, and a variable comes from a term with it. */
  ghost predicate GroupsFrom(ts: seq<Term>, s2t: Groups) {
    && (-1 in s2t ==> |s2t[-1]| == |Consts(ts)|)
    && (-1 !in s2t ==> Consts(ts) == [])
    && (forall k | k in s2t && k >= 0 :: NonConsts(ts) != [])
  }

  method CollectFactors(args: seq<Term>) returns (keys: seq<int>, s2t: Groups)
    requires CleanAll(args)
    ensures GroupsOk(keys, s2t) && GroupsFrom(args, s2t)
    ensures forall v: Valuation :: GroupVal(keys, s2t, v) == SumVal(args, v)
  {
    hide SumVal, MonoVal, Consts, GroupVal, HeadVal;
    keys, s2t := [], map[];
    NoGroups();
    for i := 0 to |args|
      invariant GroupsOk(keys, s2t) && GroupsFrom(args[..i], s2t)
      invariant forall v: Valuation :: GroupVal(keys, s2t, v) == SumVal(args[..i], v)
    {
      assert args[..i + 1] == args[..i] + [args[i]];
      var h, c := Head(args[i]), Fac(args[i]);
      CollectOne(args[..i], args[i], keys, s2t);
      if h !in s2t {
        keys, s2t := keys + [h], s2t[h := [Const(c)]];
      } else {
        s2t := s2t[h := s2t[h] + [Const(c)]];
      }
    }
    assert args[..|args|] == args;
  }

  lemma NoGroups()
    ensures forall v: Valuation :: GroupVal([], map[], v) == SumVal([], v)
    ensures Consts([]) == []
  {
  }

  lemma CollectOne(ts: seq<Term>, t: Term, keys: seq<int>, s2t: Groups)
    requires GroupsOk(keys, s2t) && GroupsFrom(ts, s2t) && Clean(t)
    requires forall v: Valuation :: GroupVal(keys, s2t, v) == SumVal(ts, v)
    ensures Head(t) !in s2t ==> CollectedInto(ts + [t], keys + [Head(t)], s2t[Head(t) := [Const(Fac(t))]])
    ensures Head(t) in s2t ==> CollectedInto(ts + [t], keys, s2t[Head(t) := s2t[Head(t)] + [Const(Fac(t))]])
  {
    hide SumVal, GroupVal, HeadVal, Consts, GroupsOk, GroupsFrom;
    if Head(t) !in s2t {
      CollectNew(ts, t, keys, s2t);
    } else {
      CollectMore(ts, t, keys, s2t);
    }
  }

  ghost predicate CollectedInto(ts: seq<Term>, keys: seq<int>, s2t: Groups) {
    GroupsOk(keys, s2t) && GroupsFrom(ts, s2t) && forall v: Valuation :: GroupVal(keys, s2t, v) == SumVal(ts, v)
  }

  lemma CollectNew(ts: seq<Term>, t: Term, keys: seq<int>, s2t: Groups)
    requires CollectedInto(ts, keys, s2t) && Clean(t) && Head(t) !in s2t
    ensures CollectedInto(ts + [t], keys + [Head(t)], s2t[Head(t) := [Const(Fac(t))]])
  {
    hide SumVal, GroupVal, HeadVal, Consts, NonConsts;
    HeadRange(t);
    PartsSnoc(ts, t);
    forall v: Valuation ensures GroupVal(keys + [Head(t)], s2t[Head(t) := [Const(Fac(t))]], v) == SumVal(ts + [t], v) {
      GroupStarts(keys, s2t, Head(t), Fac(t), v);
      SumSnoc(ts, t, v);
    }
  }

  lemma CollectMore(ts: seq<Term>, t: Term, keys: seq<int>, s2t: Groups)
    requires CollectedInto(ts, keys, s2t) && Clean(t) && Head(t) in s2t
    ensures CollectedInto(ts + [t], keys, s2t[Head(t) := s2t[Head(t)] + [Const(Fac(t))]])
  {
    hide SumVal, GroupVal, HeadVal, Consts, NonConsts;
    HeadRange(t);
    PartsSnoc(ts, t);
    var i :| 0 <= i < |keys| && keys[i] == Head(t);
    forall v: Valuation ensures GroupVal(keys, s2t[Head(t) := s2t[Head(t)] + [Const(Fac(t))]], v) == SumVal(ts + [t], v) {
      GroupGrows(keys, s2t, i, Fac(t), v);
      SumSnoc(ts, t, v);
    }
  }

  /** The stored sum: its arguments are sorted. */
  function MkSum(cid: real -> int, ts: seq<Term>): Term {
    Plus(SortBy(RefKey(cid), ts))
  }

  lemma SumStored(cid: real -> int, ts: seq<Term>)
    requires NormalArgs(ts) && |ts| >= 2
    ensures Normal(cid, MkSum(cid, ts)) && forall v: Valuation :: Eval(MkSum(cid, ts), v) == SumVal(ts, v)
  {
    hide SumVal;
    SortNormal(cid, ts);
    forall v: Valuation ensures SumVal(SortBy(RefKey(cid), ts), v) == SumVal(ts, v) {
      SumSorted(RefKey(cid), ts, v);
    }
  }

  /** Replaces inner sums by their arguments. */
  method FlattenSums(args: seq<Term>) returns (newArgs: seq<Term>)
    requires LinearAll(args)
    ensures CleanAll(newArgs) && (AllConst(args) ==> AllConst(newArgs))
    ensures AllConst(newArgs) ==> forall i | 0 <= i < |args| :: args[i].Plus? || args[i].Const?
    ensures forall v: Valuation :: SumVal(newArgs, v) == Total(args, v)
  {
    hide SumVal, MonoVal, Total, Reduced;
    newArgs := [];
    NothingSummed();
    for i := 0 to |args|
      invariant CleanAll(newArgs) && (AllConst(args) ==> AllConst(newArgs))
      invariant AllConst(newArgs) ==> forall k | 0 <= k < i :: args[k].Plus? || args[k].Const?
      invariant forall v: Valuation :: SumVal(newArgs, v) == Total(args[..i], v)
    {
      assert args[..i + 1] == args[..i] + [args[i]];
      ghost var before := newArgs;
      if args[i].Plus? {
        newArgs := newArgs + args[i].args;
      } else {
        newArgs := newArgs + [args[i]];
        assert newArgs[|before|] == args[i];
      }
      assert forall k | 0 <= k < |before| :: newArgs[k] == before[k];
      forall v: Valuation ensures SumVal(newArgs, v) == Total(args[..i + 1], v) {
        FlattenOne(before, args[..i], args[i], v);
      }
    }
    assert args[..|args|] == args;
  }

  lemma NothingSummed()
    ensures forall v: Valuation :: SumVal([], v) == 0.0 && Total([], v) == 0.0 && GroupVal([], map[], v) == 0.0
  {
  }

  lemma FlattenOne(newArgs: seq<Term>, args: seq<Term>, t: Term, v: Valuation)
    requires SumVal(newArgs, v) == Total(args, v)
    ensures SumVal(newArgs + if t.Plus? then t.args else [t], v) == Total(args + [t], v)
  {
    TotalSnoc(args, t, v);
    if t.Plus? {
      SumConcat(newArgs, t.args, v);
    } else {
      SumSnoc(newArgs, t, v);
    }
  }

  /** The monomial of a coefficient and a variable or of the constant part. */
  function MkMono(c: real, h: int): (t: Term)
    requires h >= -1 && c != 0.0
    ensures Reduced(t) && Head(t) == h && Fac(t) == c
  {
    if h == -1 then Const(c) else if c == 1.0 then Var(h) else Times(c, h)
  }

  lemma MonoPushed(ts: seq<Term>, keys: seq<int>, s2t: Groups, i: nat, c: real)
    requires GroupsOk(keys, s2t) && i < |keys| && NormalArgs(ts) && (forall t | t in ts :: Head(t) in keys[..i])
    requires forall v: Valuation :: Total(s2t[keys[i]], v) == c
    requires forall v: Valuation :: SumVal(ts, v) == GroupVal(keys[..i], s2t, v)
    ensures c == 0.0 ==> forall v: Valuation :: SumVal(ts, v) == GroupVal(keys[..i + 1], s2t, v)
    ensures c != 0.0 ==>
      && NormalArgs(ts + [MkMono(c, keys[i])]) && (forall t | t in ts + [MkMono(c, keys[i])] :: Head(t) in keys[..i + 1])
      && forall v: Valuation :: SumVal(ts + [MkMono(c, keys[i])], v) == GroupVal(keys[..i + 1], s2t, v)
  {
    hide SumVal, Total, HeadVal, Reduced;
    assert keys[..i + 1] == keys[..i] + [keys[i]] && keys[..i + 1][..i] == keys[..i];
    forall v: Valuation ensures GroupVal(keys[..i + 1], s2t, v) == SumVal(ts, v) + c * HeadVal(keys[i], v) {
    }
    if c != 0.0 {
      var m := MkMono(c, keys[i]);
      forall v: Valuation ensures SumVal(ts + [m], v) == SumVal(ts, v) + c * HeadVal(keys[i], v) {
        SumSnoc(ts, m, v);
      }
      HeadsDistinct(ts, keys, i, m);
    }
  }

  lemma HeadsDistinct(ts: seq<Term>, keys: seq<int>, i: nat, m: Term)
    requires i < |keys| && NormalArgs(ts) && Reduced(m) && Head(m) == keys[i]
    requires (forall j, k | 0 <= j < k < |keys| :: keys[j] != keys[k]) && forall t | t in ts :: Head(t) in keys[..i]
    ensures NormalArgs(ts + [m])
  {
    hide Reduced;
    var r := ts + [m];
    forall j, k | 0 <= j < k < |r| ensures Head(r[j]) != Head(r[k]) {
      assert r[j] == ts[j] && ts[j] in ts;
      if k == |ts| {
        var l :| 0 <= l < i && keys[..i][l] == Head(ts[j]);
      }
    }
  }

  /** One monomial for each variable with a coefficient that is not zero. */
  method MkNumPlus(cid: real -> int, args: seq<Term>) returns (r: Term)
    requires LinearAll(args)
    ensures Normal(cid, r) && (AllConst(args) ==> r.Const?)
    ensures forall v: Valuation :: Eval(r, v) == Total(args, v)
    decreases if AllConst(args) then 0 else 1
  {
    hide SumVal, MonoVal, Total, GroupVal, Reduced, NormalArgs, Normal, GroupsOk, GroupsFrom, HeadVal;
    var newArgs := FlattenSums(args);
    var s := SimplifyConstSum(newArgs);
    if s.Whole? {
      r := s.t;
      WholeSum(cid, r);
      return;
    }
    var keys, s2t := CollectFactors(s.args);
    KeysNonConst(s.args, keys, s2t);
    var sumArgs: seq<Term> := [];
    NothingSummed();
    NoneNormal(keys, s2t);
    for i := 0 to |keys|
      invariant NormalArgs(sumArgs) && forall t | t in sumArgs :: Head(t) in keys[..i]
      invariant |sumArgs| <= i && (keys != [] ==> !AllConst(args))
      invariant forall v: Valuation :: SumVal(sumArgs, v) == GroupVal(keys[..i], s2t, v)
    {
      KeyFacts(keys, s2t, i);
      var consts := s2t[keys[i]];
      var summed;
      if |consts| == 1 {
        summed := consts[0];
        OneConst(consts);
      } else {
        summed := MkNumPlus(cid, consts);
      }
      ConstValues(summed.c);
      MonoPushed(sumArgs, keys, s2t, i, summed.c);
      if summed.c == 0.0 {
        continue;
      }
      if keys[i] == -1 {
        sumArgs := sumArgs + [summed];
        continue;
      }
      if summed.c == 1.0 {
        sumArgs := sumArgs + [Var(keys[i])];
        continue;
      }
      sumArgs := sumArgs + [Times(summed.c, keys[i])];
    }
    assert keys[..|keys|] == keys;
    SmallSums(cid, sumArgs);
    if |sumArgs| == 0 {
      return Const(0.0);
    }
    if |sumArgs| == 1 {
      return sumArgs[0];
    }
    SumStored(cid, sumArgs);
    r := MkSum(cid, sumArgs);
  }

  lemma WholeSum(cid: real -> int, t: Term)
    requires Clean(t)
    ensures !t.Plus? && Normal(cid, t)
  {
  }

  lemma ConstValues(c: real)
    ensures forall v: Valuation :: Eval(Const(c), v) == c
  {
    forall v: Valuation ensures Eval(Const(c), v) == c {
      ConstVal(c, v);
    }
  }

  lemma OneConst(consts: seq<Term>)
    requires |consts| == 1 && AllConst(consts)
    ensures consts[0].Const? && forall v: Valuation :: Total(consts, v) == Eval(consts[0], v)
  {
    assert consts == [Const(consts[0].c)];
    forall v: Valuation ensures Total(consts, v) == Eval(consts[0], v) {
      ConstVal(consts[0].c, v);
    }
  }

  lemma NoneNormal(keys: seq<int>, s2t: Groups)
    ensures NormalArgs([]) && keys[..0] == [] && forall v: Valuation :: GroupVal([], s2t, v) == 0.0
  {
  }

  lemma KeyFacts(keys: seq<int>, s2t: Groups, i: nat)
    requires GroupsOk(keys, s2t) && i < |keys|
    ensures keys[i] >= -1 && keys[i] in s2t && s2t[keys[i]] != [] && AllConst(s2t[keys[i]]) && LinearAll(s2t[keys[i]])
  {
  }

  /** Something was collected only from a list that is not empty. */
  lemma KeysNonConst(ts: seq<Term>, keys: seq<int>, s2t: Groups)
    requires GroupsOk(keys, s2t) && GroupsFrom(ts, s2t)
    ensures keys != [] ==> ts != []
    ensures forall i | 0 <= i < |keys| :: keys[i] in s2t
  {
    if keys != [] {
      assert keys[0] in s2t && s2t[keys[0]] != [];
    }
  }

  lemma SmallSums(cid: real -> int, ts: seq<Term>)
    requires NormalArgs(ts)
    ensures |ts| == 0 ==> Normal(cid, Const(0.0)) && forall v: Valuation :: Eval(Const(0.0), v) == SumVal(ts, v)
    ensures |ts| == 1 ==> Normal(cid, ts[0]) && forall v: Valuation :: Eval(ts[0], v) == SumVal(ts, v)
  {
    if |ts| == 1 {
      assert ts == [ts[0]] && Reduced(ts[0]);
      forall v: Valuation ensures Eval(ts[0], v) == SumVal(ts, v) {
        SumOne(ts[0], v);
      }
    }
  }

  // ----- products -----

  function Prod(ts: seq<Term>, v: Valuation): real {
    if ts == [] then 1.0 else Prod(ts[..|ts| - 1], v) * Eval(ts[|ts| - 1], v)
  }

  lemma ProdSnoc(ts: seq<Term>, t: Term, v: Valuation)
    ensures Prod(ts + [t], v) == Prod(ts, v) * Eval(t, v)
  {
    assert (ts + [t])[..|ts|] == ts;
  }

  predicate NormalAll(cid: real -> int, ts: seq<Term>) {
    forall i | 0 <= i < |ts| :: Normal(cid, ts[i])
  }

  /** A factor after flattening: a constant, a variable or a sum. */
  predicate Factors(cid: real -> int, ts: seq<Term>) {
    forall i | 0 <= i < |ts| :: !ts[i].Times? && Normal(cid, ts[i])
  }

  /** The value of the constants and that of the other factor, if there is one. */
  function ConstPart(ts: seq<Term>): real {
    if Consts(ts) == [] then 1.0 else Fold(Product, Consts(ts))
  }

  function OtherVal(ts: seq<Term>, v: Valuation): real {
    if NonConsts(ts) == [] then 1.0 else Eval(NonConsts(ts)[0], v)
  }

  lemma ConstPartSnoc(ts: seq<Term>, t: Term)
    ensures ConstPart(ts + [t]) == if t.Const? then ConstPart(ts) * t.c else ConstPart(ts)
  {
    hide Fold, Consts;
    PartsSnoc(ts, t);
    assert Consts(ts) + [] == Consts(ts);
    if t.Const? {
      FoldSnoc(Product, Consts(ts), t.c);
      assert Consts(ts) == [] ==> Consts(ts + [t]) == [t.c];
    }
  }

  lemma OtherValSnoc(ts: seq<Term>, t: Term, v: Valuation)
    requires |NonConsts(ts + [t])| <= 1
    ensures |NonConsts(ts)| <= 1
    ensures t.Const? ==> OtherVal(ts + [t], v) == OtherVal(ts, v)
    ensures !t.Const? ==> OtherVal(ts, v) == 1.0 && OtherVal(ts + [t], v) == Eval(t, v)
  {
    hide NonConsts, Eval;
    PartsSnoc(ts, t);
    assert NonConsts(ts) + [] == NonConsts(ts);
  }

  lemma {:induction false} ProdSplit(ts: seq<Term>, v: Valuation)
    requires |NonConsts(ts)| <= 1
    ensures Prod(ts, v) == ConstPart(ts) * OtherVal(ts, v)
  {
    hide Eval, Consts, NonConsts;
    if ts != [] {
      var rest, t := ts[..|ts| - 1], ts[|ts| - 1];
      assert ts == rest + [t];
      ConstPartSnoc(rest, t);
      OtherValSnoc(rest, t, v);
      ProdSnoc(rest, t, v);
      hide Prod, ConstPart, OtherVal;
      ProdSplit(rest, v);
      if t.Const? {
        ConstVal(t.c, v);
        Swap(ConstPart(rest), OtherVal(rest, v), t.c);
      }
    } else {
      assert Consts(ts) == [] && NonConsts(ts) == [] by { NoConsts(ts); }
    }
  }

  lemma Swap(a: real, b: real, c: real)
    ensures (a * b) * c == (a * c) * b
    ensures a * (b * c) == (a * b) * c
  {
  }

  /** Replaces inner products by their two factors. */
  method FlattenProducts(cid: real -> int, args: seq<Term>) returns (fs: seq<Term>)
    requires NormalAll(cid, args) && args != []
    ensures Factors(cid, fs) && fs != [] && |NonConsts(fs)| == |NonConsts(args)|
    ensures HasPlus(fs) <==> HasPlus(args)
    ensures forall v: Valuation :: Prod(fs, v) == Prod(args, v)
  {
    hide Prod, Eval, Normal, NonConsts;
    fs := [];
    NoFactors();
    for i := 0 to |args|
      invariant Factors(cid, fs) && (i > 0 ==> fs != []) && |NonConsts(fs)| == |NonConsts(args[..i])|
      invariant HasPlus(fs) <==> HasPlus(args[..i])
      invariant forall v: Valuation :: Prod(fs, v) == Prod(args[..i], v)
    {
      assert args[..i + 1] == args[..i] + [args[i]];
      FactorStep(cid, fs, args[..i], args[i]);
      if args[i].Times? {
        fs := fs + [Const(args[i].k), Var(args[i].x)];
      } else {
        fs := fs + [args[i]];
      }
    }
    assert args[..|args|] == args;
  }

  ghost predicate HasPlus(ts: seq<Term>) {
    exists i | 0 <= i < |ts| :: ts[i].Plus?
  }

  lemma NoFactors()
    ensures forall v: Valuation :: Prod([], v) == 1.0
  {
  }

  lemma HasPlusSnoc(ts: seq<Term>, t: Term)
    ensures HasPlus(ts + [t]) <==> HasPlus(ts) || t.Plus?
  {
    if HasPlus(ts) {
      var i :| 0 <= i < |ts| && ts[i].Plus?;
      assert (ts + [t])[i].Plus?;
    }
    assert (ts + [t])[|ts|] == t;
  }

  /** The factors of a monomial or a sum. */
  function FactorsOf(t: Term): seq<Term> {
    if t.Times? then [Const(t.k), Var(t.x)] else [t]
  }

  lemma FactorStep(cid: real -> int, fs: seq<Term>, args: seq<Term>, t: Term)
    requires Factors(cid, fs) && |NonConsts(fs)| == |NonConsts(args)| && (HasPlus(fs) <==> HasPlus(args)) && Normal(cid, t)
    requires forall v: Valuation :: Prod(fs, v) == Prod(args, v)
    ensures var fs' := fs + FactorsOf(t);
      && Factors(cid, fs') && |NonConsts(fs')| == |NonConsts(args + [t])| && (HasPlus(fs') <==> HasPlus(args + [t]))
      && forall v: Valuation :: Prod(fs', v) == Prod(args + [t], v)
  {
    hide Prod, NonConsts, HasPlus, Eval, Normal, Factors;
    FactorShape(cid, fs, args, t);
    forall v: Valuation ensures Prod(fs + FactorsOf(t), v) == Prod(args + [t], v) {
      FactorValue(fs, args, t, v);
    }
  }

  lemma AppendTwo(fs: seq<Term>, a: Term, b: Term)
    ensures fs + [a, b] == fs + [a] + [b]
  {
  }

  lemma FactorValue(fs: seq<Term>, args: seq<Term>, t: Term, v: Valuation)
    requires Prod(fs, v) == Prod(args, v)
    ensures Prod(fs + FactorsOf(t), v) == Prod(args + [t], v)
  {
    hide Prod, Eval;
    ProdSnoc(args, t, v);
    if t.Times? {
      AppendTwo(fs, Const(t.k), Var(t.x));
      SplitProduct(fs, t, v);
    } else {
      ProdSnoc(fs, t, v);
    }
  }

  lemma FactorShape(cid: real -> int, fs: seq<Term>, args: seq<Term>, t: Term)
    requires Factors(cid, fs) && |NonConsts(fs)| == |NonConsts(args)| && (HasPlus(fs) <==> HasPlus(args)) && Normal(cid, t)
    ensures var fs' := fs + FactorsOf(t);
      && Factors(cid, fs') && |NonConsts(fs')| == |NonConsts(args + [t])| && (HasPlus(fs') <==> HasPlus(args + [t]))
  {
    hide NonConsts, HasPlus, Normal, Factors;
    PartsSnoc(args, t);
    HasPlusSnoc(args, t);
    if t.Times? {
      AppendTwo(fs, Const(t.k), Var(t.x));
      FactorNormal(cid, t);
      FactorSnoc(cid, fs, Const(t.k));
      FactorSnoc(cid, fs + [Const(t.k)], Var(t.x));
    } else {
      FactorSnoc(cid, fs, t);
    }
  }

  lemma FactorSnoc(cid: real -> int, fs: seq<Term>, t: Term)
    requires Factors(cid, fs) && !t.Times? && Normal(cid, t)
    ensures Factors(cid, fs + [t]) && (HasPlus(fs + [t]) <==> HasPlus(fs) || t.Plus?)
    ensures |NonConsts(fs + [t])| == |NonConsts(fs)| + if t.Const? then 0 else 1
  {
    hide Normal, HasPlus, NonConsts;
    PartsSnoc(fs, t);
    HasPlusSnoc(fs, t);
  }

  lemma FactorNormal(cid: real -> int, t: Term)
    requires t.Times?
    ensures Normal(cid, Const(t.k)) && Normal(cid, Var(t.x))
  {
  }

  lemma SplitProduct(fs: seq<Term>, t: Term, v: Valuation)
    requires t.Times?
    ensures Prod(fs + [Const(t.k)] + [Var(t.x)], v) == Prod(fs, v) * Eval(t, v)
  {
    hide Prod, HeadVal;
    ProdSnoc(fs, Const(t.k), v);
    ProdSnoc(fs + [Const(t.k)], Var(t.x), v);
    ConstVal(t.k, v);
    Swap(Prod(fs, v), t.k, HeadVal(t.x, v));
  }

  lemma CombinedProduct(ts: seq<Term>)
    ensures ConstPart(Combined(Product, ts)) == ConstPart(ts)
    ensures |Consts(ts)| > 1 ==> Consts(Combined(Product, ts)) == [ConstPart(ts)]
  {
    hide Fold;
    if |Consts(ts)| > 1 {
      var c := Const(Fold(Product, Consts(ts)));
      PartsSnoc(NonConsts(ts), c);
      NonConstsMembers(ts);
      NoConsts(NonConsts(ts));
      assert [] + [c.c] == [c.c];
      FoldSnoc(Product, [], c.c);
    }
  }

  datatype OptTerm = NoTerm | SomeTerm(t: Term)

  /** What the scan of the factors finds: the constant unless it is one, the sum, and the variable. */
  ghost predicate Sorted(ts: seq<Term>, con: OptTerm, plus: OptTerm, others: seq<Term>) {
    && con == (if Consts(ts) == [] || Consts(ts)[0] == 1.0 then NoTerm else SomeTerm(Const(Consts(ts)[0])))
    && NonConsts(ts) == others + (if plus.SomeTerm? then [plus.t] else [])
    && (plus.SomeTerm? ==> plus.t.Plus?) && (forall i | 0 <= i < |others| :: !others[i].Plus?)
    && (Consts(ts) != [] ==> Consts(ts)[0] != 0.0)
  }

  method SortFactors(ts: seq<Term>) returns (zero: bool, con: OptTerm, plus: OptTerm, others: seq<Term>)
    requires |Consts(ts)| <= 1 && |NonConsts(ts)| <= 1
    ensures zero <==> Consts(ts) == [0.0]
    ensures !zero ==> Sorted(ts, con, plus, others)
  {
    hide Consts, NonConsts, Sorted;
    zero, con, plus, others := false, NoTerm, NoTerm, [];
    NothingSorted(ts);
    for i := 0 to |ts|
      invariant !zero && Sorted(ts[..i], con, plus, others)
    {
      SortStep(ts, i, con, plus, others);
      if ts[i] == Const(0.0) {
        zero := true;
        return;
      }
      if ts[i] != Const(1.0) {
        if ts[i].Plus? {
          plus := SomeTerm(ts[i]);
        } else if ts[i].Const? {
          con := SomeTerm(ts[i]);
        } else {
          others := others + [ts[i]];
        }
      }
    }
    assert ts[..|ts|] == ts;
    NotZero(ts, con, plus, others);
  }

  lemma NotZero(ts: seq<Term>, con: OptTerm, plus: OptTerm, others: seq<Term>)
    requires Sorted(ts, con, plus, others)
    ensures Consts(ts) != [0.0]
  {
  }

  /** The next factor, when there are at most one constant and one other factor. */
  lemma SortStep(ts: seq<Term>, i: nat, con: OptTerm, plus: OptTerm, others: seq<Term>)
    requires |Consts(ts)| <= 1 && |NonConsts(ts)| <= 1 && i < |ts| && Sorted(ts[..i], con, plus, others)
    ensures ts[i] == Const(0.0) ==> Consts(ts) == [0.0]
    ensures ts[i] == Const(1.0) ==> Sorted(ts[..i + 1], con, plus, others)
    ensures ts[i].Plus? ==> Sorted(ts[..i + 1], con, SomeTerm(ts[i]), others)
    ensures ts[i].Const? && ts[i].c != 0.0 && ts[i].c != 1.0 ==> Sorted(ts[..i + 1], SomeTerm(ts[i]), plus, others)
    ensures !ts[i].Const? && !ts[i].Plus? ==> Sorted(ts[..i + 1], con, plus, others + [ts[i]])
  {
    hide Consts, NonConsts, Sorted;
    var p, t := ts[..i], ts[i];
    assert ts[..i + 1] == p + [t];
    PrefixParts(ts, i + 1);
    if t.Const? {
      PartsSnoc(p, t);
      SortConst(p, t, con, plus, others);
    } else {
      SortOther(p, t, con, plus, others);
    }
  }

  lemma SortConst(p: seq<Term>, t: Term, con: OptTerm, plus: OptTerm, others: seq<Term>)
    requires t.Const? && |Consts(p + [t])| <= 1 && Sorted(p, con, plus, others)
    ensures Consts(p + [t]) == [t.c]
    ensures t.c == 1.0 ==> Sorted(p + [t], con, plus, others)
    ensures t.c != 0.0 && t.c != 1.0 ==> Sorted(p + [t], SomeTerm(t), plus, others)
  {
    hide Consts, NonConsts;
    PartsSnoc(p, t);
    assert Consts(p) == [] && Consts(p + [t]) == [t.c];
    assert NonConsts(p + [t]) == NonConsts(p);
  }

  lemma SortOther(p: seq<Term>, t: Term, con: OptTerm, plus: OptTerm, others: seq<Term>)
    requires !t.Const? && |NonConsts(p + [t])| <= 1 && Sorted(p, con, plus, others)
    ensures t.Plus? ==> Sorted(p + [t], con, SomeTerm(t), others)
    ensures !t.Plus? ==> Sorted(p + [t], con, plus, others + [t])
  {
    hide Consts, NonConsts;
    PartsSnoc(p, t);
    assert NonConsts(p) == [] && NonConsts(p + [t]) == [t];
    assert Consts(p + [t]) == Consts(p);
    assert others == [] && plus.NoTerm?;
  }

  lemma NothingSorted(ts: seq<Term>)
    ensures Sorted(ts[..0], NoTerm, NoTerm, [])
  {
    assert ts[..0] == [];
  }

  lemma {:induction false} PrefixParts(ts: seq<Term>, i: nat)
    requires i <= |ts|
    ensures Consts(ts[..i]) <= Consts(ts) && NonConsts(ts[..i]) <= NonConsts(ts)
    decreases |ts| - i
  {
    hide Consts, NonConsts;
    if i < |ts| {
      assert ts[..i + 1] == ts[..i] + [ts[i]];
      PartsSnoc(ts[..i], ts[i]);
      PrefixParts(ts, i + 1);
    } else {
      assert ts[..i] == ts;
    }
  }

  /** What remains of the factors: nothing, a single term, or a variable and its coefficient. */
  ghost predicate Multiplied(cid: real -> int, ts: seq<Term>, r: seq<Term>) {
    var c := ConstPart(ts);
    && |r| <= 2
    && (|r| == 0 ==> c == 1.0 && NonConsts(ts) == [])
    && (|r| == 1 ==> Normal(cid, r[0]) && forall v: Valuation :: Eval(r[0], v) == c * OtherVal(ts, v))
    && (|r| == 2 ==> r[0].Var? && r[1] == Const(c) && c != 0.0 && c != 1.0 && NonConsts(ts) == [r[0]])
  }

  lemma OneConstPart(ts: seq<Term>)
    requires |Consts(ts)| <= 1
    ensures ConstPart(ts) == if Consts(ts) == [] then 1.0 else Consts(ts)[0]
  {
    if Consts(ts) != [] {
      assert Consts(ts) == [Consts(ts)[0]];
    }
  }

  lemma FactorIn(cid: real -> int, ts: seq<Term>, t: Term)
    requires Factors(cid, ts) && t in NonConsts(ts)
    ensures Normal(cid, t) && (t.Var? || t.Plus?)
  {
    NonConstsMembers(ts);
    var i :| 0 <= i < |ts| && ts[i] == t;
  }

  /** At most one constant and one other factor: what multiplying without distribution gives. */
  lemma MultipliedPlainly(cid: real -> int, ts: seq<Term>, con: OptTerm, plus: OptTerm, others: seq<Term>)
    requires Factors(cid, ts) && |Consts(ts)| <= 1 && |NonConsts(ts)| <= 1 && Sorted(ts, con, plus, others)
    ensures con.NoTerm? && plus.NoTerm? ==> Multiplied(cid, ts, others)
    ensures con.NoTerm? && plus.SomeTerm? ==> Multiplied(cid, ts, others + [plus.t])
    ensures con.SomeTerm? && plus.NoTerm? ==> Multiplied(cid, ts, others + [con.t])
  {
    hide Consts, NonConsts, Fold, Normal, Factors;
    OneConstPart(ts);
    hide ConstPart;
    if NonConsts(ts) != [] {
      FactorIn(cid, ts, NonConsts(ts)[0]);
    }
    if con.SomeTerm? && NonConsts(ts) == [] {
      ConstNormal(cid, con.t.c);
    }
  }

  lemma ConstNormal(cid: real -> int, c: real)
    ensures Normal(cid, Const(c)) && forall v: Valuation :: Eval(Const(c), v) == c * 1.0
  {
    ConstValues(c);
  }

  lemma MultipliedSum(cid: real -> int, ts: seq<Term>, con: Term, plus: Term, others: seq<Term>, r: Term)
    requires |Consts(ts)| <= 1 && |NonConsts(ts)| <= 1 && Sorted(ts, SomeTerm(con), SomeTerm(plus), others)
    requires Normal(cid, r) && forall v: Valuation :: Eval(r, v) == con.c * Eval(plus, v)
    ensures others == [] && Multiplied(cid, ts, others + [r])
  {
    hide Consts, NonConsts, Fold, Normal, Eval;
    OneConstPart(ts);
    assert others + [r] == [r];
  }

  lemma TotalScaled(ts: seq<Term>, c: real, t: Term, p: Term, v: Valuation, rest: seq<Term>)
    requires Total(ts, v) == c * SumVal(rest, v) && Eval(t, v) == c * MonoVal(p, v)
    ensures Total(ts + [t], v) == c * SumVal(rest + [p], v)
  {
    hide Total, SumVal, MonoVal, Eval;
    TotalSnoc(ts, t, v);
    SumSnoc(rest, p, v);
    Distribute(c, SumVal(rest, v), MonoVal(p, v));
  }

  lemma PairFacts(cid: real -> int, con: Term, p: Term)
    requires con.Const? && Mono(p) && Normal(cid, p)
    ensures NormalAll(cid, [con, p]) && |NonConsts([con, p])| <= 1 && !HasPlus([con, p])
    ensures forall v: Valuation :: Prod([con, p], v) == con.c * MonoVal(p, v)
  {
    assert [con, p] == [con] + [p] && [con] == [] + [con];
    PartsSnoc([con], p);
    PartsSnoc([], con);
    forall v: Valuation ensures Prod([con, p], v) == con.c * MonoVal(p, v) {
      ProdSnoc([con], p, v);
      ProdSnoc([], con, v);
      ConstVal(con.c, v);
    }
  }

  /** Drops ones, ends on zero, and distributes the constant over a sum. */
  method SimplifyConstTimes(cid: real -> int, ts: seq<Term>) returns (zero: bool, newArgs: seq<Term>)
    requires Factors(cid, ts) && |Consts(ts)| <= 1 && |NonConsts(ts)| <= 1
    ensures zero ==> ConstPart(ts) == 0.0
    ensures !zero ==> Multiplied(cid, ts, newArgs)
    decreases if HasPlus(ts) then 1 else 0, 0
  {
    hide Consts, NonConsts, Multiplied, Prod, Eval, SumVal, MonoVal, Total, Factors, ConstPart, Normal, NormalAll, HasPlus;
    var con, plus, others;
    zero, con, plus, others := SortFactors(ts);
    newArgs := others;
    OneConstPart(ts);
    if zero {
      return;
    }
    MultipliedPlainly(cid, ts, con, plus, others);
    if con.NoTerm? && plus.NoTerm? {
    } else if con.NoTerm? {
      newArgs := newArgs + [plus.t];
    } else if plus.NoTerm? {
      newArgs := newArgs + [con.t];
    } else {
      PlusFactor(cid, ts, plus.t);
      var p := plus.t.args;
      var sumArgs: seq<Term> := [];
      NothingSummed();
      for i := 0 to |p|
        invariant |sumArgs| == i && forall k | 0 <= k < i :: Normal(cid, sumArgs[k])
        invariant forall v: Valuation :: Total(sumArgs, v) == con.t.c * SumVal(p[..i], v)
      {
        assert p[..i + 1] == p[..i] + [p[i]];
        ReducedNormal(cid, p, i);
        PairFacts(cid, con.t, p[i]);
        var t := MkNumTimes(cid, [con.t, p[i]]);
        forall v: Valuation ensures Total(sumArgs + [t], v) == con.t.c * SumVal(p[..i + 1], v) {
          TotalScaled(sumArgs, con.t.c, t, p[i], v, p[..i]);
        }
        sumArgs := sumArgs + [t];
      }
      assert p[..|p|] == p;
      AllLinear(cid, sumArgs);
      var sum := MkNumPlus(cid, sumArgs);
      forall v: Valuation ensures Eval(sum, v) == con.t.c * Eval(plus.t, v) {
        PlusVal(plus.t, v);
      }
      MultipliedSum(cid, ts, con.t, plus.t, others, sum);
      newArgs := newArgs + [sum];
    }
  }

  lemma PlusVal(t: Term, v: Valuation)
    requires t.Plus?
    ensures Eval(t, v) == SumVal(t.args, v)
  {
  }

  lemma PlusFactor(cid: real -> int, ts: seq<Term>, t: Term)
    requires Factors(cid, ts) && t in NonConsts(ts) && t.Plus?
    ensures HasPlus(ts) && Normal(cid, t) && NormalArgs(t.args)
  {
    NonConstsMembers(ts);
    var i :| 0 <= i < |ts| && ts[i] == t;
  }

  lemma ReducedNormal(cid: real -> int, ts: seq<Term>, i: nat)
    requires NormalArgs(ts) && i < |ts|
    ensures Mono(ts[i]) && Normal(cid, ts[i]) && Fac(ts[i]) != 0.0
  {
    assert Reduced(ts[i]);
  }

  lemma AllLinear(cid: real -> int, ts: seq<Term>)
    requires forall i | 0 <= i < |ts| :: Normal(cid, ts[i])
    ensures LinearAll(ts)
  {
    forall i | 0 <= i < |ts| ensures Linear(ts[i]) {
      assert Normal(cid, ts[i]);
    }
  }

  /** The product of constants and at most one other factor. */
  method MkNumTimes(cid: real -> int, args: seq<Term>) returns (r: Term)
    requires NormalAll(cid, args) && args != [] && |NonConsts(args)| <= 1
    ensures Normal(cid, r)
    ensures forall v: Valuation :: Eval(r, v) == Prod(args, v)
    decreases if HasPlus(args) then 1 else 0, 1
  {
    hide Consts, NonConsts, Multiplied, Prod, Eval, Factors, ConstPart, OtherVal, Normal, NormalAll, HasPlus;
    var fs := FlattenProducts(cid, args);
    var any, args2 := CombineConsts(Product, fs);
    ProductParts(cid, fs);
    var newArgs;
    if !any {
      newArgs := fs;
    } else {
      var zero;
      zero, newArgs := SimplifyConstTimes(cid, args2);
      if zero {
        ZeroTimes(cid, fs);
        return Const(0.0);
      }
      if newArgs == [] {
        OneTimes(cid, fs, args2);
        return Const(1.0);
      }
    }
    ProductStored(cid, fs, args2, newArgs);
    if |newArgs| == 1 {
      r := newArgs[0];
    } else {
      r := Times(newArgs[1].c, newArgs[0].x);
    }
  }

  /** Combining the constants keeps the product and leaves at most one of them. */
  lemma ProductParts(cid: real -> int, fs: seq<Term>)
    requires Factors(cid, fs) && |NonConsts(fs)| <= 1 && fs != []
    ensures var ts := Combined(Product, fs);
      && Factors(cid, ts) && |Consts(ts)| <= 1 && NonConsts(ts) == NonConsts(fs) && (HasPlus(ts) ==> HasPlus(fs))
      && ConstPart(ts) == ConstPart(fs) && (Consts(fs) == [] ==> ts == fs && Multiplied(cid, ts, fs))
    ensures forall v: Valuation :: Prod(fs, v) == ConstPart(fs) * OtherVal(fs, v)
  {
    hide Prod, Eval, Normal, Fold, Factors, Combined, ConstPart, OtherVal, HasPlus;
    CombinedOne(Product, fs);
    CombinedProduct(fs);
    CombinedFactors(cid, fs);
    forall v: Valuation ensures Prod(fs, v) == ConstPart(fs) * OtherVal(fs, v) {
      ProdSplit(fs, v);
    }
    if Consts(fs) == [] {
      OnlyNonConsts(fs);
      SingleFactor(cid, fs);
    }
  }

  lemma CombinedFactors(cid: real -> int, fs: seq<Term>)
    requires Factors(cid, fs)
    ensures Factors(cid, Combined(Product, fs)) && (HasPlus(Combined(Product, fs)) ==> HasPlus(fs))
    ensures Consts(fs) == [] ==> Combined(Product, fs) == fs
  {
    hide Normal, Eval, Fold;
    NonConstsMembers(fs);
    var ts := Combined(Product, fs);
    forall i | 0 <= i < |ts| ensures !ts[i].Times? && Normal(cid, ts[i]) && (ts[i].Plus? ==> ts[i] in fs) {
      assert ts[i] in ts;
      assert ts[i].Const? || ts[i] in fs;
      if ts[i].Const? {
        ConstNormal(cid, ts[i].c);
      }
    }
  }

  lemma SingleFactor(cid: real -> int, fs: seq<Term>)
    requires Factors(cid, fs) && Consts(fs) == [] && NonConsts(fs) == fs && |fs| == 1
    ensures Multiplied(cid, fs, fs)
  {
    hide Normal, Eval, Consts, NonConsts;
  }

  lemma ZeroTimes(cid: real -> int, fs: seq<Term>)
    requires ConstPart(fs) == 0.0 && forall v: Valuation :: Prod(fs, v) == ConstPart(fs) * OtherVal(fs, v)
    ensures Normal(cid, Const(0.0)) && forall v: Valuation :: Eval(Const(0.0), v) == Prod(fs, v)
  {
    hide Prod, ConstPart, OtherVal, Eval;
    ConstValues(0.0);
    forall v: Valuation ensures Eval(Const(0.0), v) == Prod(fs, v) {
      assert 0.0 * OtherVal(fs, v) == 0.0;
    }
  }

  lemma OneTimes(cid: real -> int, fs: seq<Term>, ts: seq<Term>)
    requires Multiplied(cid, ts, []) && ConstPart(ts) == ConstPart(fs) && NonConsts(ts) == NonConsts(fs)
    requires forall v: Valuation :: Prod(fs, v) == ConstPart(fs) * OtherVal(fs, v)
    ensures Normal(cid, Const(1.0)) && forall v: Valuation :: Eval(Const(1.0), v) == Prod(fs, v)
  {
    hide Prod, ConstPart, Eval, NonConsts;
    ConstValues(1.0);
  }

  lemma ProductStored(cid: real -> int, fs: seq<Term>, ts: seq<Term>, r: seq<Term>)
    requires Multiplied(cid, ts, r) && ConstPart(ts) == ConstPart(fs) && NonConsts(ts) == NonConsts(fs) && r != []
    requires forall v: Valuation :: Prod(fs, v) == ConstPart(fs) * OtherVal(fs, v)
    ensures 1 <= |r| <= 2
    ensures |r| == 1 ==> Normal(cid, r[0]) && forall v: Valuation :: Eval(r[0], v) == Prod(fs, v)
    ensures |r| == 2 ==> r[0].Var? && r[1].Const? && Normal(cid, Times(r[1].c, r[0].x))
                         && forall v: Valuation :: Eval(Times(r[1].c, r[0].x), v) == Prod(fs, v)
  {
    hide Prod, ConstPart, NonConsts, Eval, Normal;
    if |r| == 2 {
      StoredPair(cid, r[1].c, r[0].x);
    }
  }

  lemma StoredPair(cid: real -> int, c: real, x: nat)
    requires c != 0.0 && c != 1.0
    ensures Normal(cid, Times(c, x)) && forall v: Valuation :: Eval(Times(c, x), v) == c * Eval(Var(x), v)
  {
  }

  // ----- negation and division -----

  /** The monomial with its factor multiplied by c. */
  function Scaled(c: real, t: Term): Term
    requires c != 0.0 && Clean(t)
  {
    if t.Const? then Const(c * t.c) else MkMono(c * Fac(t), Head(t))
  }

  lemma NonZeroProduct(a: real, b: real)
    requires a != 0.0 && b != 0.0
    ensures a * b != 0.0
  {
  }

  lemma ScaledFacts(cid: real -> int, c: real, t: Term)
    requires c != 0.0 && Clean(t)
    ensures Head(Scaled(c, t)) == Head(t) && Fac(Scaled(c, t)) == c * Fac(t) && Normal(cid, Scaled(c, t)) && Mono(Scaled(c, t))
    ensures Reduced(t) ==> Reduced(Scaled(c, t))
    ensures Scaled(c, t).Const? <==> t.Const?
    ensures forall v: Valuation :: MonoVal(Scaled(c, t), v) == c * MonoVal(t, v)
  {
    if Fac(t) != 0.0 {
      NonZeroProduct(c, Fac(t));
    }
    forall v: Valuation ensures MonoVal(Scaled(c, t), v) == c * MonoVal(t, v) {
      Swap(c, Fac(t), HeadVal(Head(t), v));
    }
  }

  /** A normal form with the value of the scaled monomial is the scaled monomial. */
  lemma IsScaled(cid: real -> int, c: real, t: Term, r: Term)
    requires c != 0.0 && Clean(t) && Normal(cid, r) && forall v: Valuation :: Eval(r, v) == c * MonoVal(t, v)
    ensures r == Scaled(c, t)
  {
    hide MonoVal, Scaled;
    ScaledFacts(cid, c, t);
    forall v: Valuation ensures Eval(r, v) == Eval(Scaled(c, t), v) {
      assert Eval(Scaled(c, t), v) == MonoVal(Scaled(c, t), v);
    }
    NormalFormsUnique(cid, r, Scaled(c, t));
  }

  /** All arguments of a sum are scaled. */
  ghost predicate AllScaled(c: real, ts: seq<Term>, rs: seq<Term>)
    requires c != 0.0
  {
    |rs| == |ts| && CleanAll(ts) && forall i | 0 <= i < |ts| :: rs[i] == Scaled(c, ts[i])
  }

  lemma {:induction false} ScaledSum(c: real, ts: seq<Term>, rs: seq<Term>, v: Valuation, cid: real -> int)
    requires c != 0.0 && AllScaled(c, ts, rs)
    ensures SumVal(rs, v) == c * SumVal(ts, v)
  {
    hide Scaled, MonoVal, Clean;
    if ts != [] {
      var n := |ts| - 1;
      ScaledSum(c, ts[..n], rs[..n], v, cid);
      ScaledFacts(cid, c, ts[n]);
      Distribute(c, SumVal(ts[..n], v), MonoVal(ts[n], v));
    }
  }

  lemma ScaledNormal(cid: real -> int, c: real, ts: seq<Term>, rs: seq<Term>)
    requires c != 0.0 && AllScaled(c, ts, rs) && NormalArgs(ts)
    ensures NormalArgs(rs) && forall i | 0 <= i < |ts| :: Head(rs[i]) == Head(ts[i]) && Fac(rs[i]) == c * Fac(ts[i])
    ensures forall v: Valuation :: SumVal(rs, v) == c * SumVal(ts, v)
  {
    hide Scaled, Reduced, SumVal;
    forall i | 0 <= i < |ts| ensures Reduced(rs[i]) && Head(rs[i]) == Head(ts[i]) && Fac(rs[i]) == c * Fac(ts[i]) {
      ScaledFacts(cid, c, ts[i]);
    }
    forall v: Valuation ensures SumVal(rs, v) == c * SumVal(ts, v) {
      ScaledSum(c, ts, rs, v, cid);
    }
  }

  method MkNumNeg(cid: real -> int, t: Term) returns (r: Term)
    requires Normal(cid, t)
    ensures Normal(cid, r) && (t.Plus? <==> r.Plus?) && (t.Const? <==> r.Const?)
    ensures forall v: Valuation :: Eval(r, v) == -1.0 * Eval(t, v)
    ensures !t.Plus? ==> r == Scaled(-1.0, t)
    decreases t.Plus?
  {
    hide SumVal, MonoVal, Prod, NormalArgs, NonConsts;
    if t.Plus? {
      var args: seq<Term> := [];
      for i := 0 to |t.args|
        invariant |args| == i && forall k | 0 <= k < i :: Clean(t.args[k]) && args[k] == Scaled(-1.0, t.args[k])
      {
        ReducedNormal(cid, t.args, i);
        var arg := MkNumNeg(cid, t.args[i]);
        args := args + [arg];
      }
      ScaledNormal(cid, -1.0, t.args, args);
      SumStored(cid, args);
      r := MkSum(cid, args);
    } else if t.Const? {
      r := Const(-t.c);
      NegatedConst(t.c);
    } else {
      PairFacts(cid, Const(-1.0), t);
      r := MkNumTimes(cid, [Const(-1.0), t]);
      IsScaled(cid, -1.0, t, r);
      ScaledFacts(cid, -1.0, t);
    }
  }

  lemma NegatedConst(c: real)
    ensures forall v: Valuation :: Eval(Const(-c), v) == -1.0 * Eval(Const(c), v)
    ensures Scaled(-1.0, Const(c)) == Const(-c)
  {
    ConstValues(c);
    ConstValues(-c);
  }

  datatype Quotient = DivisionByZero | Done(t: Term)

  /** Division by a constant. */
  method MkNumDiv(cid: real -> int, a: Term, b: Term) returns (r: Quotient)
    requires Normal(cid, a) && b.Const?
    ensures r.DivisionByZero? <==> b.c == 0.0
    ensures r.Done? ==> Normal(cid, r.t) && forall v: Valuation :: Eval(r.t, v) == 1.0 / b.c * Eval(a, v)
  {
    hide Prod, Normal, Eval, NonConsts;
    if b.c == 0.0 {
      return DivisionByZero;
    }
    if a.Const? {
      var q := a.c / b.c;
      QuotientValue(a.c, b.c);
      ConstNormal(cid, q);
      r := Done(Const(q));
    } else if b.c == 1.0 {
      r := Done(a);
    } else {
      FlippedPair(cid, a, 1.0 / b.c);
      var t := MkNumTimes(cid, [a, Const(1.0 / b.c)]);
      r := Done(t);
    }
  }

  lemma QuotientValue(a: real, b: real)
    requires b != 0.0
    ensures a / b == 1.0 / b * a
    ensures forall v: Valuation :: Eval(Const(a / b), v) == 1.0 / b * Eval(Const(a), v)
  {
    ConstValues(a);
    ConstValues(a / b);
  }

  lemma FlippedPair(cid: real -> int, a: Term, c: real)
    requires Normal(cid, a) && !a.Const?
    ensures NormalAll(cid, [a, Const(c)]) && |NonConsts([a, Const(c)])| <= 1
    ensures forall v: Valuation :: Prod([a, Const(c)], v) == c * Eval(a, v)
  {
    hide Eval, Prod, NonConsts, Normal;
    assert [a, Const(c)] == [a] + [Const(c)] && [a] == [] + [a];
    PartsSnoc([a], Const(c));
    PartsSnoc([], a);
    ConstNormal(cid, c);
    NoConsts([]);
    assert forall v: Valuation :: Prod([], v) == 1.0 by { NoFactors(); }
    forall v: Valuation ensures Prod([a, Const(c)], v) == c * Eval(a, v) {
      ProdSnoc([a], Const(c), v);
      ProdSnoc([], a, v);
      ConstVal(c, v);
    }
  }

  // ----- canonical inequalities -----

  /** The variable with the smallest reference has the factor 1 or -1. */
  ghost predicate LeadUnit(ts: seq<Term>) {
    forall t | t in ts && !t.Const? && (forall u | u in ts && !u.Const? :: Head(t) <= Head(u)) :: Fac(t) == 1.0 || Fac(t) == -1.0
  }

  /** A product becomes the variable or its negation. */
  method NormalizeMul(cid: real -> int, mul: Term) returns (r: Term)
    requires mul.Times? && Normal(cid, mul)
    ensures r == if mul.k < 0.0 then Times(-1.0, mul.x) else Var(mul.x)
    ensures exists k: real :: k > 0.0 && ScaledBy(k, mul, r)
  {
    if mul.k < 0.0 {
      r := MkNumNeg(cid, Var(mul.x));
      assert -mul.k > 0.0 && ScaledBy(-mul.k, mul, r);
    } else {
      r := Var(mul.x);
      assert mul.k > 0.0 && ScaledBy(mul.k, mul, r);
    }
  }

  ghost predicate ScaledBy(k: real, t: Term, r: Term) {
    forall v: Valuation :: Eval(t, v) == k * Eval(r, v)
  }

  /** The position of the first argument that is not a constant. */
  lemma FirstVariable(cid: real -> int, ts: seq<Term>, i: nat)
    requires RefSorted(cid, ts) && i < |ts| && !ts[i].Const? && (forall j | 0 <= j < i :: ts[j].Const?) && NormalArgs(ts)
    ensures forall u | u in ts && !u.Const? :: Head(ts[i]) <= Head(u)
    ensures Fac(ts[i]) == 1.0 || Fac(ts[i]) == -1.0 ==> LeadUnit(ts)
  {
    forall u | u in ts && !u.Const? ensures Head(ts[i]) <= Head(u) {
      var j :| 0 <= j < |ts| && ts[j] == u;
      assert Ref(cid, ts[i]) <= Ref(cid, ts[j]);
    }
    if Fac(ts[i]) == 1.0 || Fac(ts[i]) == -1.0 {
      forall t | t in ts && !t.Const? && (forall u | u in ts && !u.Const? :: Head(t) <= Head(u)) ensures t == ts[i] {
        var j :| 0 <= j < |ts| && ts[j] == t;
        assert ts[i] in ts;
        assert Head(ts[i]) == Head(ts[j]);
      }
    }
  }

  lemma LeadScaled(c: real, ts: seq<Term>, rs: seq<Term>, i: nat)
    requires c > 0.0 && |rs| == |ts| && NormalArgs(ts) && forall j | 0 <= j < |ts| :: Head(rs[j]) == Head(ts[j]) && Fac(rs[j]) == c * Fac(ts[j])
    requires NormalArgs(rs)
    requires i < |ts| && !ts[i].Const? && (forall u | u in ts && !u.Const? :: Head(ts[i]) <= Head(u))
    requires Fac(rs[i]) == 1.0 || Fac(rs[i]) == -1.0
    ensures LeadUnit(rs)
  {
    hide Reduced;
    forall t | t in rs && !t.Const? && (forall u | u in rs && !u.Const? :: Head(t) <= Head(u)) ensures t == rs[i] {
      var j :| 0 <= j < |rs| && rs[j] == t;
      HeadsTell(rs, ts, j);
      HeadsTell(rs, ts, i);
      assert ts[j] in ts && rs[i] in rs;
      assert Head(rs[j]) == Head(rs[i]);
    }
  }

  lemma HeadsTell(rs: seq<Term>, ts: seq<Term>, j: nat)
    requires NormalArgs(rs) && NormalArgs(ts) && j < |rs| && j < |ts| && Head(rs[j]) == Head(ts[j])
    ensures rs[j].Const? <==> ts[j].Const?
  {
    assert Reduced(rs[j]) && Reduced(ts[j]);
  }

  /** Divides by the absolute value of the factor of the first variable. */
  method NormalizeSum(cid: real -> int, sum: Term) returns (r: Term)
    requires sum.Plus? && Normal(cid, sum)
    ensures r.Plus? && Normal(cid, r) && LeadUnit(r.args)
    ensures exists k: real :: k > 0.0 && ScaledBy(k, sum, r)
  {
    hide SumVal, MonoVal, NormalArgs, LeadUnit, Reduced, SortBy, RefSorted;
    var args := SortBy(RefKey(cid), sum.args);
    SortNormal(cid, sum.args);
    SameSorted(cid, sum.args);
    var i := 0;
    while i < |args| && args[i].Const?
      invariant 0 <= i <= |args| && forall j | 0 <= j < i :: args[j].Const?
    {
      i := i + 1;
    }
    TwoConstants(args, i);
    FirstVariable(cid, args, i);
    if args[i].Var? {
      // the first variable has an implicit unit factor
      assert ScaledBy(1.0, sum, sum);
      return sum;
    }
    ReducedNormal(cid, args, i);
    var k := if args[i].k < 0.0 then -args[i].k else args[i].k;
    UnitFactor(k, args[i].k);
    r := DividedSum(cid, args, k, i);
    assert ScaledBy(k, sum, r) by { PlusSame(sum, args, k, r); }
  }

  lemma PlusSame(sum: Term, args: seq<Term>, k: real, r: Term)
    requires sum.Plus? && sum.args == args && ScaledBy(k, Plus(args), r)
    ensures ScaledBy(k, sum, r)
  {
  }

  /** Divides every argument by k unless k is one, and stores the sum. */
  method DividedSum(cid: real -> int, args: seq<Term>, k: real, ghost i: nat) returns (r: Term)
    requires k > 0.0 && NormalArgs(args) && |args| >= 2
    requires i < |args| && !args[i].Const? && forall u | u in args && !u.Const? :: Head(args[i]) <= Head(u)
    requires Fac(args[i]) == k || Fac(args[i]) == -k
    ensures r.Plus? && Normal(cid, r) && LeadUnit(r.args) && ScaledBy(k, Plus(args), r)
  {
    hide SumVal, MonoVal, NormalArgs, LeadUnit, Normal, Eval, Scaled, Clean, Reduced, ScaledBy, SortBy, Fac, Head;
    UnitFactor(k, Fac(args[i]));
    var newArgs: seq<Term> := args;
    UnitScaled(cid, args);
    if k != 1.0 {
      newArgs := DivideAll(cid, args, k);
    }
    r := MkSum(cid, newArgs);
    DividedFacts(cid, args, k, i, newArgs);
  }

  method DivideAll(cid: real -> int, args: seq<Term>, k: real) returns (newArgs: seq<Term>)
    requires k > 0.0 && NormalArgs(args) && 1.0 / k != 0.0 && CleanAll(args)
    ensures AllScaled(1.0 / k, args, newArgs)
  {
    hide MonoVal, NormalArgs, Normal, Eval, Scaled, Clean, Reduced;
    newArgs := [];
    for j := 0 to |args|
      invariant |newArgs| == j && forall l | 0 <= l < j :: newArgs[l] == Scaled(1.0 / k, args[l])
    {
      ReducedNormal(cid, args, j);
      var q := MkNumDiv(cid, args[j], Const(k));
      DividedMono(cid, args[j], k, q.t);
      newArgs := newArgs + [q.t];
    }
  }

  lemma DividedFacts(cid: real -> int, args: seq<Term>, k: real, i: nat, newArgs: seq<Term>)
    requires k > 0.0 && 1.0 / k > 0.0 && AllScaled(1.0 / k, args, newArgs) && NormalArgs(args) && |args| >= 2
    requires i < |args| && !args[i].Const? && forall u | u in args && !u.Const? :: Head(args[i]) <= Head(u)
    requires 1.0 / k * Fac(args[i]) == 1.0 || 1.0 / k * Fac(args[i]) == -1.0
    ensures Normal(cid, MkSum(cid, newArgs)) && LeadUnit(MkSum(cid, newArgs).args) && ScaledBy(k, Plus(args), MkSum(cid, newArgs))
  {
    hide SumVal, NormalArgs, LeadUnit, Normal, Eval, Scaled, Clean, ScaledBy, SortBy, Fac, Head;
    ScaledNormal(cid, 1.0 / k, args, newArgs);
    LeadScaled(1.0 / k, args, newArgs, i);
    SumStored(cid, newArgs);
    LeadSorted(cid, newArgs);
    SumScaledBack(k, 1.0 / k, args, newArgs, Plus(args), MkSum(cid, newArgs));
  }

  lemma SumScaledBack(k: real, c: real, args: seq<Term>, newArgs: seq<Term>, sum: Term, r: Term)
    requires k > 0.0 && c == 1.0 / k && sum.Plus? && sum.args == args
    requires forall v: Valuation :: SumVal(newArgs, v) == c * SumVal(args, v)
    requires forall v: Valuation :: Eval(r, v) == SumVal(newArgs, v)
    ensures ScaledBy(k, sum, r)
  {
    hide SumVal;
    forall v: Valuation ensures Eval(sum, v) == k * Eval(r, v) {
      Swap(k, c, SumVal(args, v));
    }
  }

  lemma UnitFactor(k: real, f: real)
    requires k > 0.0 && (f == k || f == -k)
    ensures 1.0 / k > 0.0 && (1.0 / k * f == 1.0 || 1.0 / k * f == -1.0)
  {
  }

  lemma UnitScaled(cid: real -> int, ts: seq<Term>)
    requires NormalArgs(ts)
    ensures CleanAll(ts) && forall i | 0 <= i < |ts| :: ts[i] == Scaled(1.0, ts[i])
  {
    forall i | 0 <= i < |ts| ensures Clean(ts[i]) && ts[i] == Scaled(1.0, ts[i]) {
      assert Reduced(ts[i]);
    }
  }

  lemma DividedMono(cid: real -> int, t: Term, k: real, r: Term)
    requires k > 0.0 && Mono(t) && Clean(t) && Normal(cid, r) && forall v: Valuation :: Eval(r, v) == 1.0 / k * Eval(t, v)
    ensures r == Scaled(1.0 / k, t)
  {
    hide MonoVal;
    assert forall v: Valuation :: Eval(t, v) == MonoVal(t, v);
    IsScaled(cid, 1.0 / k, t, r);
  }

  /** At most one of the arguments is a constant, so the search ends at another one. */
  lemma TwoConstants(ts: seq<Term>, i: nat)
    requires |ts| >= 2 && NormalArgs(ts) && i <= |ts| && (forall j | 0 <= j < i :: ts[j].Const?)
    ensures i < |ts|
  {
    assert Head(ts[0]) != Head(ts[1]);
  }

  /** Sorted arguments stay as they are. */
  lemma SameSorted(cid: real -> int, ts: seq<Term>)
    requires NormalArgs(ts) && RefSorted(cid, ts)
    ensures SortBy(RefKey(cid), ts) == ts
  {
    SortNormal(cid, ts);
    RefsDistinct(cid, ts);
    RefsDistinct(cid, SortBy(RefKey(cid), ts));
    SortedUnique(cid, SortBy(RefKey(cid), ts), ts);
  }

  lemma LeadSorted(cid: real -> int, ts: seq<Term>)
    requires LeadUnit(ts)
    ensures LeadUnit(SortBy(RefKey(cid), ts))
  {
  }

  datatype Atom = TrueAtom | FalseAtom | Leq(bound: real, sum: Term)

  /** The inequality after normalization: a constant on the left, variables on the right, and the
      variable with the smallest reference with factor 1 or -1. */
  ghost predicate NormalLeq(cid: real -> int, a: Atom) {
    a.Leq? ==> Normal(cid, a.sum) && !a.sum.Const? && NonConsts(ArgsOf(a.sum)) == ArgsOf(a.sum) && LeadUnit(ArgsOf(a.sum))
  }

  /** The inequality divides the difference of the sides by a positive number. */
  ghost predicate LeqScaled(k: real, l: Term, r: Term, a: Atom)
    requires a.Leq?
  {
    forall v: Valuation :: Eval(r, v) - Eval(l, v) == k * (Eval(a.sum, v) - a.bound)
  }

  /** The atom stands for l <= r. */
  ghost predicate IsLeq(cid: real -> int, l: Term, r: Term, a: Atom) {
    && NormalLeq(cid, a)
    && (a.TrueAtom? ==> exists d: real :: d >= 0.0 && ConstantGap(d, l, r))
    && (a.FalseAtom? ==> exists d: real :: d < 0.0 && ConstantGap(d, l, r))
    && (a.Leq? ==> exists k: real :: k > 0.0 && LeqScaled(k, l, r, a))
  }

  ghost predicate ConstantGap(d: real, l: Term, r: Term) {
    forall v: Valuation :: Eval(r, v) - Eval(l, v) == d
  }

  /** The meaning of an atom. */
  ghost predicate AtomHolds(a: Atom, v: Valuation) {
    match a
    case TrueAtom => true
    case FalseAtom => false
    case Leq(b, t) => b <= Eval(t, v)
  }

  /** It is true in exactly the valuations where l <= r. */
  lemma LeqMeaning(cid: real -> int, l: Term, r: Term, a: Atom, v: Valuation)
    requires IsLeq(cid, l, r, a)
    ensures AtomHolds(a, v) <==> Eval(l, v) <= Eval(r, v)
  {
    hide Eval, NormalLeq, LeqScaled;
    match a {
      case TrueAtom =>
        var d: real :| d >= 0.0 && ConstantGap(d, l, r);
        assert Eval(r, v) - Eval(l, v) == d;
      case FalseAtom =>
        var d: real :| d < 0.0 && ConstantGap(d, l, r);
        assert Eval(r, v) - Eval(l, v) == d;
      case Leq(b, t) =>
        var k: real :| k > 0.0 && LeqScaled(k, l, r, a);
        LeqCase(cid, l, r, a, k, v);
    }
  }

  lemma LeqCase(cid: real -> int, l: Term, r: Term, a: Atom, k: real, v: Valuation)
    requires a.Leq? && k > 0.0 && LeqScaled(k, l, r, a)
    ensures a.bound <= Eval(a.sum, v) <==> Eval(l, v) <= Eval(r, v)
  {
    hide Eval;
    SignKept(k, Eval(a.sum, v) - a.bound);
  }

  lemma SignKept(k: real, d: real)
    requires k > 0.0
    ensures k * d >= 0.0 <==> d >= 0.0
  {
    if d < 0.0 {
      assert k * -d > 0.0;
    }
  }

  // ----- building the inequality -----

  /** Right side minus left side, in normal form. */
  method Difference(cid: real -> int, lhs: Term, rhs: Term) returns (d: Term)
    requires Normal(cid, lhs) && Normal(cid, rhs)
    ensures Normal(cid, d) && forall v: Valuation :: Eval(d, v) == Eval(rhs, v) - Eval(lhs, v)
  {
    hide Normal, Eval;
    ConstValues(0.0);
    if lhs == Const(0.0) {
      return rhs;
    }
    var neg := MkNumNeg(cid, lhs);
    if rhs == Const(0.0) {
      return neg;
    }
    AllLinear(cid, [rhs, neg]);
    d := MkNumPlus(cid, [rhs, neg]);
    forall v: Valuation ensures Total([rhs, neg], v) == Eval(rhs, v) + Eval(neg, v) {
      TwoTerms(rhs, neg, v);
    }
  }

  lemma TwoTerms(a: Term, b: Term, v: Valuation)
    ensures Total([a, b], v) == Eval(a, v) + Eval(b, v)
  {
    assert [a, b] == [] + [a] + [b];
    TotalSnoc([] + [a], b, v);
    TotalSnoc([], a, v);
  }

  /** Moves the constant of a normalized term to the other side. */
  method SplitBound(cid: real -> int, sum: Term) returns (bound: real, t: Term)
    requires Normal(cid, sum) && !sum.Const? && LeadUnit(ArgsOf(sum))
    ensures NormalLeq(cid, Leq(bound, t)) && forall v: Valuation :: Eval(sum, v) == Eval(t, v) - bound
  {
    hide SumVal, LeadUnit, NormalArgs, RefSorted, Consts, NonConsts, Eval, Reduced, MonoVal;
    bound, t := 0.0, sum;
    ArgsNormal(cid, sum);
    if sum.Plus? {
      var any, _ := CombineConsts(Sum, sum.args);
      var nonconst := Variables(sum.args);
      ConstAlone(cid, sum.args);
      if any {
        var c := Consts(sum.args)[0];
        var neg := MkNumNeg(cid, Const(c));
        bound := -c;
        if |nonconst| == 1 {
          t := nonconst[0];
        } else {
          t := MkSum(cid, nonconst);
        }
        BoundSplit(cid, sum, nonconst, c, t);
      } else {
        OnlyNonConsts(sum.args);
      }
    } else {
      MonoAlone(sum);
    }
  }

  method Variables(args: seq<Term>) returns (r: seq<Term>)
    ensures r == NonConsts(args)
  {
    r := [];
    for i := 0 to |args|
      invariant r == NonConsts(args[..i])
    {
      assert args[..i + 1] == args[..i] + [args[i]];
      PartsSnoc(args[..i], args[i]);
      if !args[i].Const? {
        r := r + [args[i]];
      }
    }
    assert args[..|args|] == args;
  }

  lemma MonoAlone(t: Term)
    requires Mono(t) && !t.Const?
    ensures NonConsts(ArgsOf(t)) == ArgsOf(t)
  {
    NoConsts([t]);
  }

  /** The arguments without the constant: still sorted and normal, and at most one constant is dropped. */
  lemma {:induction false} ConstAlone(cid: real -> int, ts: seq<Term>)
    requires NormalArgs(ts) && RefSorted(cid, ts)
    ensures |Consts(ts)| <= 1 && NormalArgs(NonConsts(ts)) && RefSorted(cid, NonConsts(ts))
    ensures (exists t :: t in ts && t.Const?) ==> Consts(ts) != []
    ensures Consts(ts) != [] ==> exists t :: t in ts && t.Const?
  {
    hide Reduced;
    if ts != [] {
      var rest, t := ts[..|ts| - 1], ts[|ts| - 1];
      assert ts == rest + [t];
      ConstAlone(cid, rest);
      PartsSnoc(rest, t);
      hide Consts, NonConsts;
      assert Consts(rest) + [] == Consts(rest) && NonConsts(rest) + [] == NonConsts(rest);
      LastOfAll(cid, rest, t);
    }
  }

  lemma LastOfAll(cid: real -> int, rest: seq<Term>, t: Term)
    requires NormalArgs(rest + [t]) && RefSorted(cid, rest + [t])
    ensures t.Const? ==> forall u | u in rest :: !u.Const?
    ensures NormalArgs(NonConsts(rest)) && RefSorted(cid, NonConsts(rest)) ==>
              NormalArgs(NonConsts(rest) + [t]) && RefSorted(cid, NonConsts(rest) + [t])
  {
    hide Reduced, NonConsts;
    var ts := rest + [t];
    assert ts[|rest|] == t;
    forall u | u in rest ensures Head(u) != Head(t) && Ref(cid, u) <= Ref(cid, t) {
      var i :| 0 <= i < |rest| && rest[i] == u;
      assert ts[i] == u;
    }
    var vs := NonConsts(rest);
    NonConstsMembers(rest);
    forall i | 0 <= i < |vs| ensures vs[i] in rest {
      assert vs[i] in vs;
    }
    assert Reduced(ts[|rest|]);
  }

  lemma BoundSplit(cid: real -> int, sum: Term, vs: seq<Term>, c: real, t: Term)
    requires sum.Plus? && Normal(cid, sum) && LeadUnit(sum.args) && vs == NonConsts(sum.args) && Consts(sum.args) == [c]
    requires NormalArgs(vs) && RefSorted(cid, vs)
    requires t == if |vs| == 1 then vs[0] else MkSum(cid, vs)
    ensures NormalLeq(cid, Leq(-c, t)) && forall v: Valuation :: Eval(sum, v) == Eval(t, v) - -c
  {
    hide SumVal, Consts, NonConsts, Reduced, MonoVal, LeadUnit;
    Count(sum.args);
    SameSorted(cid, vs);
    LeadWithoutConst(sum.args, vs);
    NonConstsMembers(sum.args);
    AllVariables(vs);
    if |vs| == 1 {
      SmallSums(cid, vs);
      ReducedNormal(cid, vs, 0);
      assert vs == [vs[0]] && !t.Const?;
      assert ArgsOf(t) == vs;
    } else {
      SumStored(cid, vs);
      assert ArgsOf(t) == vs;
      assert Normal(cid, t);
    }
    FoldSnoc(Sum, [], c);
    forall v: Valuation ensures Eval(sum, v) == Eval(t, v) - -c {
      SumParts(sum.args, v);
    }
  }

  lemma AllVariables(vs: seq<Term>)
    requires forall i | 0 <= i < |vs| :: !vs[i].Const?
    ensures NonConsts(vs) == vs && (|vs| == 1 ==> !vs[0].Const?)
  {
    NoConsts(vs);
  }

  lemma LeadWithoutConst(ts: seq<Term>, vs: seq<Term>)
    requires LeadUnit(ts) && vs == NonConsts(ts)
    ensures LeadUnit(vs)
  {
    NonConstsMembers(ts);
    forall t | t in vs && !t.Const? && (forall u | u in vs && !u.Const? :: Head(t) <= Head(u)) ensures Fac(t) == 1.0 || Fac(t) == -1.0 {
      assert forall u | u in ts && !u.Const? :: u in vs;
    }
  }

  /** The normalized inequality for lhs <= rhs. */
  method MkNumLeq(cid: real -> int, lhs: Term, rhs: Term) returns (a: Atom)
    requires Normal(cid, lhs) && Normal(cid, rhs)
    ensures IsLeq(cid, lhs, rhs, a)
    ensures forall v: Valuation :: AtomHolds(a, v) <==> Eval(lhs, v) <= Eval(rhs, v)
  {
    hide Normal, Eval, LeadUnit, NormalLeq, ScaledBy, LeqScaled, ConstantGap, IsLeq, AtomHolds, NonConsts;
    if lhs.Const? && rhs.Const? {
      a := if lhs.c <= rhs.c then TrueAtom else FalseAtom;
      ConstantsCompared(cid, lhs, rhs, a);
    } else {
      var sum := Difference(cid, lhs, rhs);
      if sum.Const? {
        a := if sum.c < 0.0 then FalseAtom else TrueAtom;
        ConstantDifference(cid, lhs, rhs, sum, a);
      } else {
        var s := sum;
        assert ScaledBy(1.0, sum, sum) by { ScaledByOne(sum); }
        VariableLead(sum);
        if sum.Times? {
          s := NormalizeMul(cid, sum);
          UnitLead(cid, s);
        } else if sum.Plus? {
          s := NormalizeSum(cid, sum);
        }
        ghost var k: real :| k > 0.0 && ScaledBy(k, sum, s);
        var bound, t := SplitBound(cid, s);
        a := Leq(bound, t);
        DifferenceScaled(cid, lhs, rhs, sum, s, k, a);
      }
    }
    forall v: Valuation ensures AtomHolds(a, v) <==> Eval(lhs, v) <= Eval(rhs, v) {
      LeqMeaning(cid, lhs, rhs, a, v);
    }
  }

  lemma ScaledByOne(t: Term)
    ensures ScaledBy(1.0, t, t)
  {
  }

  lemma VariableLead(t: Term)
    ensures t.Var? ==> LeadUnit(ArgsOf(t))
  {
  }

  lemma UnitLead(cid: real -> int, t: Term)
    requires t.Var? || (t.Times? && t.k == -1.0)
    ensures Normal(cid, t) && LeadUnit(ArgsOf(t)) && !t.Const?
  {
  }

  lemma ConstantsCompared(cid: real -> int, lhs: Term, rhs: Term, a: Atom)
    requires lhs.Const? && rhs.Const? && a == if lhs.c <= rhs.c then TrueAtom else FalseAtom
    ensures IsLeq(cid, lhs, rhs, a)
  {
    ConstValues(lhs.c);
    ConstValues(rhs.c);
    assert ConstantGap(rhs.c - lhs.c, lhs, rhs);
  }

  lemma ConstantDifference(cid: real -> int, lhs: Term, rhs: Term, d: Term, a: Atom)
    requires d.Const? && a == (if d.c < 0.0 then FalseAtom else TrueAtom)
    requires forall v: Valuation :: Eval(d, v) == Eval(rhs, v) - Eval(lhs, v)
    ensures IsLeq(cid, lhs, rhs, a)
  {
    ConstValues(d.c);
    assert ConstantGap(d.c, lhs, rhs);
  }

  lemma DifferenceScaled(cid: real -> int, lhs: Term, rhs: Term, d: Term, s: Term, k: real, a: Atom)
    requires k > 0.0 && ScaledBy(k, d, s) && a.Leq? && NormalLeq(cid, a)
    requires forall v: Valuation :: Eval(d, v) == Eval(rhs, v) - Eval(lhs, v)
    requires forall v: Valuation :: Eval(s, v) == Eval(a.sum, v) - a.bound
    ensures IsLeq(cid, lhs, rhs, a)
  {
    hide Eval, NormalLeq;
    assert LeqScaled(k, lhs, rhs, a);
  }

  // ----- the inequality is canonical -----

  /** The first of several variables, whose factor is 1 or -1. */
  lemma LeadOf(cid: real -> int, a: Atom)
    requires a.Leq? && NormalLeq(cid, a)
    ensures var ts := ArgsOf(a.sum);
      && ts != [] && NormalArgs(ts) && RefSorted(cid, ts) && Head(ts[0]) >= 0 && (Fac(ts[0]) == 1.0 || Fac(ts[0]) == -1.0)
      && (forall u | u in ts :: Head(ts[0]) <= Head(u)) && Co(ts, -1) == 0.0 && Co(ts, Head(ts[0])) == Fac(ts[0])
    ensures forall v: Valuation :: Eval(a.sum, v) == SumVal(ArgsOf(a.sum), v)
  {
    hide SumVal, Eval, Reduced, Co, NonConsts, Normal, ArgsOf;
    var ts := ArgsOf(a.sum);
    ArgsNormal(cid, a.sum);
    SomeArgs(cid, a.sum);
    NoConstHeads(ts);
    assert ts[0] in ts;
    FirstVariable(cid, ts, 0);
    CoPresent(ts, 0);
    CoAbsent(ts, -1);
  }

  lemma SomeArgs(cid: real -> int, t: Term)
    requires Normal(cid, t) && !t.Const?
    ensures ArgsOf(t) != []
  {
  }

  lemma NoConstHeads(ts: seq<Term>)
    requires NonConsts(ts) == ts && NormalArgs(ts)
    ensures forall t | t in ts :: Head(t) >= 0 && !t.Const?
  {
    NonConstsMembers(ts);
    hide NonConsts;
    forall t | t in ts ensures Head(t) >= 0 && !t.Const? {
      var i :| 0 <= i < |ts| && ts[i] == t;
      assert Reduced(ts[i]);
    }
  }

  /** An inequality that is not a truth value does not compare a constant difference. */
  lemma NotConstant(cid: real -> int, l: Term, r: Term, a: Atom, d: real)
    requires a.Leq? && NormalLeq(cid, a) && exists k: real :: k > 0.0 && LeqScaled(k, l, r, a)
    ensures !ConstantGap(d, l, r)
  {
    hide Eval, SumVal, NormalLeq, Co;
    LeadOf(cid, a);
    var ts := ArgsOf(a.sum);
    var k: real :| k > 0.0 && LeqScaled(k, l, r, a);
    var x := Head(ts[0]);
    SumAtUnit(ts, x);
    SumAtZero(ts);
    var unit: Valuation, none: Valuation := Unit(x), [];
    assert Eval(r, unit) - Eval(l, unit) == k * (Eval(a.sum, unit) - a.bound);
    assert Eval(r, none) - Eval(l, none) == k * (Eval(a.sum, none) - a.bound);
    Distribute(k, Eval(a.sum, none) - a.bound, Fac(ts[0]));
    NonZeroProduct(k, Fac(ts[0]));
  }

  lemma DividedOut(k: real, x: real, m: real, y: real)
    requires k > 0.0 && k * x == m * y
    ensures x == m / k * y
  {
    assert k * (m / k * y) == m * y;
    CancelReal(k, x, m / k * y);
  }

  lemma CancelReal(k: real, x: real, y: real)
    requires k > 0.0 && k * x == k * y
    ensures x == y
  {
    Distribute(k, x, -y);
    if x != y {
      NonZeroProduct(k, x - y);
    }
  }

  lemma BoundsCancel(m: real, x: real, b: real, y: real, c: real)
    requires x - b == m * (y - c) && 0.0 - b == m * (0.0 - c)
    ensures x == m * y
  {
    Distribute(m, y, -c);
  }

  /** Normalized sums that are proportional up to their bounds are equal up to their bounds. */
  lemma RatioIsOne(cid: real -> int, a1: Atom, a2: Atom, m: real)
    requires a1.Leq? && a2.Leq? && NormalLeq(cid, a1) && NormalLeq(cid, a2) && m > 0.0
    requires forall v: Valuation :: Eval(a1.sum, v) - a1.bound == m * (Eval(a2.sum, v) - a2.bound)
    ensures m == 1.0 && Eval(a1.sum, []) == 0.0 && Eval(a2.sum, []) == 0.0
  {
    hide SumVal, Eval, ArgsOf, NormalLeq, Leading;
    LeadingSum(cid, a1);
    LeadingSum(cid, a2);
    var s, t := ArgsOf(a1.sum), ArgsOf(a2.sum);
    ShiftedSums(a1, a2, s, t, m);
    SameLead(s, t, m);
  }

  /** The first variable has the smallest reference and the factor 1 or -1. */
  ghost predicate Leading(ts: seq<Term>) {
    && ts != [] && NormalArgs(ts) && (Fac(ts[0]) == 1.0 || Fac(ts[0]) == -1.0)
    && forall u | u in ts :: Head(ts[0]) <= Head(u)
  }

  lemma LeadingSum(cid: real -> int, a: Atom)
    requires a.Leq? && NormalLeq(cid, a)
    ensures Leading(ArgsOf(a.sum)) && Eval(a.sum, []) == 0.0
    ensures forall v: Valuation :: Eval(a.sum, v) == SumVal(ArgsOf(a.sum), v)
  {
    hide NormalLeq, Eval, SumVal, Co, ArgsOf;
    LeadOf(cid, a);
    SumAtZero(ArgsOf(a.sum));
  }

  lemma ShiftedSums(a1: Atom, a2: Atom, s: seq<Term>, t: seq<Term>, m: real)
    requires a1.Leq? && a2.Leq? && Eval(a1.sum, []) == 0.0 && Eval(a2.sum, []) == 0.0
    requires forall v: Valuation :: Eval(a1.sum, v) - a1.bound == m * (Eval(a2.sum, v) - a2.bound)
    requires forall v: Valuation :: Eval(a1.sum, v) == SumVal(s, v) && Eval(a2.sum, v) == SumVal(t, v)
    ensures forall v: Valuation :: SumVal(s, v) == m * SumVal(t, v)
  {
    hide SumVal, Eval;
    assert Eval(a1.sum, []) - a1.bound == m * (Eval(a2.sum, []) - a2.bound);
    forall v: Valuation ensures SumVal(s, v) == m * SumVal(t, v) {
      assert Eval(a1.sum, v) - a1.bound == m * (Eval(a2.sum, v) - a2.bound);
      BoundsCancel(m, Eval(a1.sum, v), a1.bound, Eval(a2.sum, v), a2.bound);
    }
  }

  lemma SameInequality(cid: real -> int, a1: Atom, a2: Atom, m: real)
    requires a1.Leq? && a2.Leq? && NormalLeq(cid, a1) && NormalLeq(cid, a2) && m > 0.0
    requires forall v: Valuation :: Eval(a1.sum, v) - a1.bound == m * (Eval(a2.sum, v) - a2.bound)
    ensures a1 == a2
  {
    hide Eval, Normal, LeadUnit;
    RatioIsOne(cid, a1, a2, m);
    assert Eval(a1.sum, []) - a1.bound == 1.0 * (Eval(a2.sum, []) - a2.bound);
    forall v: Valuation ensures Eval(a1.sum, v) == Eval(a2.sum, v) {
      assert Eval(a1.sum, v) - a1.bound == 1.0 * (Eval(a2.sum, v) - a2.bound);
    }
    NormalFormsUnique(cid, a1.sum, a2.sum);
  }

  /** Proportional sums have the same first variable, so their ratio is one. */
  lemma SameLead(s: seq<Term>, t: seq<Term>, m: real)
    requires m > 0.0 && Leading(s) && Leading(t) && forall v: Valuation :: SumVal(s, v) == m * SumVal(t, v)
    ensures m == 1.0
  {
    hide Co, Reduced, SumVal;
    Proportional(s, t, m);
    HeadRange(s[0]);
    HeadRange(t[0]);
    CoPresent(s, 0);
    CoPresent(t, 0);
    if forall u | u in t :: Head(u) != Head(s[0]) {
      CoAbsent(t, Head(s[0]));
    }
    if forall u | u in s :: Head(u) != Head(t[0]) {
      CoAbsent(s, Head(t[0]));
    }
    assert Head(s[0]) == Head(t[0]);
    assert Fac(s[0]) == m * Fac(t[0]);
  }

  /** Differences that are positive multiples of each other give the same inequality. */
  lemma LeqCanonical(cid: real -> int, l1: Term, r1: Term, a1: Atom, l2: Term, r2: Term, a2: Atom, c: real)
    requires IsLeq(cid, l1, r1, a1) && IsLeq(cid, l2, r2, a2) && c > 0.0
    requires forall v: Valuation :: Eval(r1, v) - Eval(l1, v) == c * (Eval(r2, v) - Eval(l2, v))
    ensures a1 == a2
  {
    hide Eval, NormalLeq, ConstantGap;
    if a2.Leq? {
      if a1.Leq? {
        BothInequalities(cid, l1, r1, a1, l2, r2, a2, c);
      } else {
        var d: real :| ConstantGap(d, l1, r1);
        GapDivided(c, d, l1, r1, l2, r2);
        NotConstant(cid, l2, r2, a2, d / c);
        assert false;
      }
    } else {
      var d: real :| ConstantGap(d, l2, r2) && (d < 0.0 <==> a2.FalseAtom?);
      GapMultiplied(c, d, l1, r1, l2, r2);
      if a1.Leq? {
        NotConstant(cid, l1, r1, a1, c * d);
        assert false;
      } else {
        var e: real :| ConstantGap(e, l1, r1) && (e < 0.0 <==> a1.FalseAtom?);
        OneGap(e, c * d, l1, r1);
      }
    }
  }

  lemma OneGap(d: real, e: real, l: Term, r: Term)
    requires ConstantGap(d, l, r) && ConstantGap(e, l, r)
    ensures d == e
  {
    hide Eval;
    assert Eval(r, []) - Eval(l, []) == d;
  }

  lemma GapMultiplied(c: real, d: real, l1: Term, r1: Term, l2: Term, r2: Term)
    requires c > 0.0 && ConstantGap(d, l2, r2)
    requires forall v: Valuation :: Eval(r1, v) - Eval(l1, v) == c * (Eval(r2, v) - Eval(l2, v))
    ensures ConstantGap(c * d, l1, r1) && (c * d < 0.0 <==> d < 0.0)
  {
    hide Eval;
    SignKept(c, d);
  }

  lemma BothInequalities(cid: real -> int, l1: Term, r1: Term, a1: Atom, l2: Term, r2: Term, a2: Atom, c: real)
    requires IsLeq(cid, l1, r1, a1) && IsLeq(cid, l2, r2, a2) && c > 0.0 && a1.Leq? && a2.Leq?
    requires forall v: Valuation :: Eval(r1, v) - Eval(l1, v) == c * (Eval(r2, v) - Eval(l2, v))
    ensures a1 == a2
  {
    hide Eval, NormalLeq;
    var k1: real :| k1 > 0.0 && LeqScaled(k1, l1, r1, a1);
    var k2: real :| k2 > 0.0 && LeqScaled(k2, l2, r2, a2);
    forall v: Valuation ensures Eval(a1.sum, v) - a1.bound == c * k2 / k1 * (Eval(a2.sum, v) - a2.bound) {
      Swap(c, k2, Eval(a2.sum, v) - a2.bound);
      DividedOut(k1, Eval(a1.sum, v) - a1.bound, c * k2, Eval(a2.sum, v) - a2.bound);
    }
    PositiveRatio(c, k1, k2);
    SameInequality(cid, a1, a2, c * k2 / k1);
  }

  lemma PositiveRatio(c: real, k1: real, k2: real)
    requires c > 0.0 && k1 > 0.0 && k2 > 0.0
    ensures c * k2 / k1 > 0.0
  {
    SignKept(c, -k2);
    UnitFactor(k1, k1);
    SignKept(1.0 / k1, -(c * k2));
    assert c * k2 / k1 == 1.0 / k1 * (c * k2);
  }

  lemma GapDivided(c: real, d: real, l1: Term, r1: Term, l2: Term, r2: Term)
    requires c > 0.0 && ConstantGap(d, l1, r1)
    requires forall v: Valuation :: Eval(r1, v) - Eval(l1, v) == c * (Eval(r2, v) - Eval(l2, v))
    ensures ConstantGap(d / c, l2, r2)
  {
    hide Eval;
    forall v: Valuation ensures Eval(r2, v) - Eval(l2, v) == d / c {
      DividedOut(c, Eval(r2, v) - Eval(l2, v), d, 1.0);
    }
  }

  /** In particular the inequality of c * l and c * r is that of l and r. */
  lemma LeqOfMultiples(cid: real -> int, l: Term, r: Term, a: Atom, cl: Term, cr: Term, ca: Atom, c: real)
    requires IsLeq(cid, l, r, a) && IsLeq(cid, cl, cr, ca) && c > 0.0 && ScaledBy(c, cl, l) && ScaledBy(c, cr, r)
    ensures ca == a
  {
    hide Eval, IsLeq;
    forall v: Valuation ensures Eval(cr, v) - Eval(cl, v) == c * (Eval(r, v) - Eval(l, v)) {
      Distribute(c, Eval(r, v), -Eval(l, v));
    }
    LeqCanonical(cid, cl, cr, ca, l, r, a, c);
  }

  /** The same inequality stands only for differences that are positive multiples of each other. */
  lemma LeqSeparates(cid: real -> int, l1: Term, r1: Term, l2: Term, r2: Term, a: Atom) returns (c: real)
    requires a.Leq? && IsLeq(cid, l1, r1, a) && IsLeq(cid, l2, r2, a)
    ensures c > 0.0 && forall v: Valuation :: Eval(r1, v) - Eval(l1, v) == c * (Eval(r2, v) - Eval(l2, v))
  {
    hide Eval, NormalLeq;
    var k1: real :| k1 > 0.0 && LeqScaled(k1, l1, r1, a);
    var k2: real :| k2 > 0.0 && LeqScaled(k2, l2, r2, a);
    c := k1 / k2;
    PositiveRatio(1.0, k2, k1);
    forall v: Valuation ensures Eval(r1, v) - Eval(l1, v) == c * (Eval(r2, v) - Eval(l2, v)) {
      Swap(c, k2, Eval(a.sum, v) - a.bound);
    }
  }
}
