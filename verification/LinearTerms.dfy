/** Linear terms over the rationals and their normal form.

    A product of a constant and a variable is stored once whatever the order of its factors, so it is
    represented by the two.  Sums are stored with sorted arguments. */
module LinearTerms {
  import opened Vectors

  datatype Term = Const(c: real) | Var(x: nat) | Times(k: real, x: nat) | Plus(args: seq<Term>)

  /** Values of the variables; those not listed are zero. */
  type Valuation = seq<real>

  function Look(v: Valuation, x: nat): real {
    if x < |v| then v[x] else 0.0
  }

  /** A monomial: anything but a sum. */
  predicate Mono(t: Term) {
    !t.Plus?
  }

  /** The variable of a monomial, -1 for a constant. */
  function Head(t: Term): int {
    match t
    case Var(x) => x
    case Times(_, x) => x
    case _ => -1
  }

  function Fac(t: Term): real {
    match t
    case Const(c) => c
    case Times(k, _) => k
    case _ => 1.0
  }

  function HeadVal(h: int, v: Valuation): real {
    if h < 0 then 1.0 else Look(v, h)
  }

  function MonoVal(t: Term, v: Valuation): real {
    Fac(t) * HeadVal(Head(t), v)
  }

  function SumVal(ts: seq<Term>, v: Valuation): real {
    if ts == [] then 0.0 else SumVal(ts[..|ts| - 1], v) + MonoVal(ts[|ts| - 1], v)
  }

  function Eval(t: Term, v: Valuation): real {
    if t.Plus? then SumVal(t.args, v) else MonoVal(t, v)
  }

  // ----- the order of the arguments of a sum -----

  /** References of the stored terms: those of the constants are anywhere among those of the variables. */
  function Ref(cid: real -> int, t: Term): int {
    if t.Const? then 2 * cid(t.c) + 1 else 2 * Head(t)
  }

  predicate RefSorted(cid: real -> int, ts: seq<Term>) {
    forall i, j | 0 <= i < j < |ts| :: Ref(cid, ts[i]) <= Ref(cid, ts[j])
  }

  function RefKey(cid: real -> int): Term -> int {
    t => Ref(cid, t)
  }

  // ----- the normal form -----

  /** No zero monomials, and variables without a factor one. */
  predicate Reduced(t: Term) {
    Mono(t) && Fac(t) != 0.0 && (t.Times? ==> t.k != 1.0)
  }

  predicate DistinctHeads(ts: seq<Term>) {
    forall i, j | 0 <= i < j < |ts| :: Head(ts[i]) != Head(ts[j])
  }

  /** Each variable at most once, at most one constant, no zero coefficient. */
  predicate NormalArgs(ts: seq<Term>) {
    (forall i | 0 <= i < |ts| :: Reduced(ts[i])) && DistinctHeads(ts)
  }

  predicate Normal(cid: real -> int, t: Term) {
    match t
    case Const(_) => true
    case Plus(args) => |args| >= 2 && NormalArgs(args) && RefSorted(cid, args)
    case _ => Reduced(t)
  }

  // ----- values of sums -----

  lemma SumSnoc(ts: seq<Term>, t: Term, v: Valuation)
    ensures SumVal(ts + [t], v) == SumVal(ts, v) + MonoVal(t, v)
  {
    assert (ts + [t])[..|ts|] == ts;
  }

  lemma {:induction false} SumConcat(a: seq<Term>, b: seq<Term>, v: Valuation)
    ensures SumVal(a + b, v) == SumVal(a, v) + SumVal(b, v)
  {
    if b == [] {
      assert a + b == a;
    } else {
      var b', t := b[..|b| - 1], b[|b| - 1];
      assert a + b == (a + b') + [t] && b == b' + [t];
      SumConcat(a, b', v);
      SumSnoc(a + b', t, v);
    }
  }

  lemma SumOne(t: Term, v: Valuation)
    ensures SumVal([t], v) == MonoVal(t, v)
  {
    SumSnoc([], t, v);
    assert [] + [t] == [t];
  }

  lemma {:induction false} SumInserted(key: Term -> int, t: Term, ts: seq<Term>, v: Valuation)
    ensures SumVal(InsertBy(key, t, ts), v) == MonoVal(t, v) + SumVal(ts, v)
  {
    SumOne(t, v);
    if ts != [] && key(t) > key(ts[0]) {
      SumInserted(key, t, ts[1..], v);
      SumConcat([ts[0]], InsertBy(key, t, ts[1..]), v);
      SumConcat([ts[0]], ts[1..], v);
      assert ts == [ts[0]] + ts[1..];
    } else {
      SumConcat([t], ts, v);
    }
  }

  /** Sorting keeps the value. */
  lemma {:induction false} SumSorted(key: Term -> int, ts: seq<Term>, v: Valuation)
    ensures SumVal(SortBy(key, ts), v) == SumVal(ts, v)
  {
    if ts != [] {
      SumSorted(key, ts[1..], v);
      SumInserted(key, ts[0], SortBy(key, ts[1..]), v);
      SumConcat([ts[0]], ts[1..], v);
      SumOne(ts[0], v);
      assert ts == [ts[0]] + ts[1..];
    }
  }

  // ----- sorting -----

  lemma {:induction false} InsertDistinct(key: Term -> int, t: Term, ts: seq<Term>)
    requires DistinctHeads(ts) && forall u | u in ts :: Head(u) != Head(t)
    ensures DistinctHeads(InsertBy(key, t, ts))
  {
    if ts != [] && key(t) > key(ts[0]) {
      InsertDistinct(key, t, ts[1..]);
      var r := InsertBy(key, t, ts[1..]);
      forall i | 0 <= i < |r| ensures Head(ts[0]) != Head(r[i]) {
        assert r[i] in r && ts[0] in ts;
        assert r[i] != t ==> r[i] in ts[1..];
      }
    }
  }

  lemma {:induction false} SortDistinct(key: Term -> int, ts: seq<Term>)
    requires DistinctHeads(ts)
    ensures DistinctHeads(SortBy(key, ts))
  {
    if ts != [] {
      SortDistinct(key, ts[1..]);
      forall u | u in SortBy(key, ts[1..]) ensures Head(u) != Head(ts[0]) {
        assert u in ts[1..];
      }
      InsertDistinct(key, ts[0], SortBy(key, ts[1..]));
    }
  }

  /** Sorting normal arguments gives normal arguments. */
  lemma SortNormal(cid: real -> int, ts: seq<Term>)
    requires NormalArgs(ts)
    ensures NormalArgs(SortBy(RefKey(cid), ts)) && RefSorted(cid, SortBy(RefKey(cid), ts))
  {
    var key := RefKey(cid);
    var r := SortBy(key, ts);
    SortSorted(key, ts);
    SortDistinct(key, ts);
    forall i | 0 <= i < |r| ensures Reduced(r[i]) {
      assert r[i] in r;
    }
    assert forall i | 0 <= i < |r| :: key(r[i]) == Ref(cid, r[i]);
  }

  // ----- coefficients -----

  /** The coefficient of a variable, or the constant part for -1. */
  function Co(ts: seq<Term>, h: int): real {
    if ts == [] then 0.0
    else Co(ts[..|ts| - 1], h) + if Head(ts[|ts| - 1]) == h then Fac(ts[|ts| - 1]) else 0.0
  }

  function Unit(x: nat): (v: Valuation)
    ensures forall y: nat :: Look(v, y) == if y == x then 1.0 else 0.0
  {
    seq(x + 1, i => if i == x then 1.0 else 0.0)
  }

  lemma {:induction false} SumAtUnit(ts: seq<Term>, x: nat)
    ensures SumVal(ts, Unit(x)) == Co(ts, -1) + Co(ts, x)
  {
    if ts != [] {
      SumAtUnit(ts[..|ts| - 1], x);
      MonoAt(ts[|ts| - 1], x);
    }
  }

  lemma MonoAt(t: Term, x: nat)
    ensures MonoVal(t, Unit(x)) == if Head(t) == -1 || Head(t) == x then Fac(t) else 0.0
    ensures MonoVal(t, []) == if Head(t) == -1 then Fac(t) else 0.0
  {
    HeadRange(t);
    assert HeadVal(Head(t), Unit(x)) == if Head(t) == -1 || Head(t) == x then 1.0 else 0.0;
    assert HeadVal(Head(t), []) == if Head(t) == -1 then 1.0 else 0.0;
  }

  lemma HeadRange(t: Term)
    ensures Head(t) >= -1
  {
  }

  lemma {:induction false} SumAtZero(ts: seq<Term>)
    ensures SumVal(ts, []) == Co(ts, -1)
  {
    if ts != [] {
      SumAtZero(ts[..|ts| - 1]);
      MonoAt(ts[|ts| - 1], 0);
    }
  }

  lemma {:induction false} CoAbsent(ts: seq<Term>, h: int)
    requires forall t | t in ts :: Head(t) != h
    ensures Co(ts, h) == 0.0
  {
    if ts != [] {
      assert ts[|ts| - 1] in ts;
      CoAbsent(ts[..|ts| - 1], h);
    }
  }

  lemma {:induction false} CoPresent(ts: seq<Term>, i: nat)
    requires DistinctHeads(ts) && i < |ts|
    ensures Co(ts, Head(ts[i])) == Fac(ts[i])
  {
    var k := |ts| - 1;
    if i == k {
      forall t | t in ts[..k] ensures Head(t) != Head(ts[k]) {
        var j :| 0 <= j < k && ts[..k][j] == t;
      }
      CoAbsent(ts[..k], Head(ts[k]));
    } else {
      CoPresent(ts[..k], i);
    }
  }

  /** The monomials of a term in normal form. */
  function ArgsOf(t: Term): seq<Term> {
    if t == Const(0.0) then [] else if t.Plus? then t.args else [t]
  }

  lemma ArgsNormal(cid: real -> int, t: Term)
    requires Normal(cid, t)
    ensures NormalArgs(ArgsOf(t)) && RefSorted(cid, ArgsOf(t)) && forall v: Valuation :: Eval(t, v) == SumVal(ArgsOf(t), v)
  {
    forall v: Valuation ensures Eval(t, v) == SumVal(ArgsOf(t), v) {
      SumOne(t, v);
      assert HeadVal(-1, v) == 1.0;
    }
  }

  /** Proportional terms have proportional coefficients. */
  lemma Proportional(a: seq<Term>, b: seq<Term>, k: real)
    requires forall v: Valuation :: SumVal(a, v) == k * SumVal(b, v)
    ensures forall h | h >= -1 :: Co(a, h) == k * Co(b, h)
  {
    hide SumVal, Co;
    SumAtZero(a);
    SumAtZero(b);
    assert SumVal(a, []) == k * SumVal(b, []);
    forall h | h >= -1 ensures Co(a, h) == k * Co(b, h) {
      if h >= 0 {
        SumAtUnit(a, h);
        SumAtUnit(b, h);
        assert SumVal(a, Unit(h)) == k * SumVal(b, Unit(h));
        Distribute(k, Co(b, -1), Co(b, h));
      }
    }
  }

  lemma Distribute(k: real, x: real, y: real)
    ensures k * (x + y) == k * x + k * y
  {
  }

  // ----- uniqueness of normal forms -----

  lemma SameMonomial(t: Term, u: Term)
    requires Reduced(t) && Reduced(u) && Head(t) == Head(u) && Fac(t) == Fac(u)
    ensures t == u
  {
  }

  lemma SameMembers(a: seq<Term>, b: seq<Term>, t: Term)
    requires NormalArgs(a) && NormalArgs(b) && t in a && forall h | h >= -1 :: Co(a, h) == Co(b, h)
    ensures t in b
  {
    var i :| 0 <= i < |a| && a[i] == t;
    CoPresent(a, i);
    HeadRange(t);
    if forall u | u in b :: Head(u) != Head(t) {
      CoAbsent(b, Head(t));
    }
    var j :| 0 <= j < |b| && Head(b[j]) == Head(t);
    CoPresent(b, j);
    SameMonomial(t, b[j]);
  }

  lemma RefsDistinct(cid: real -> int, ts: seq<Term>)
    requires NormalArgs(ts) && RefSorted(cid, ts)
    ensures forall i, j | 0 <= i < j < |ts| :: Ref(cid, ts[i]) < Ref(cid, ts[j])
  {
    forall i, j | 0 <= i < j < |ts| ensures Ref(cid, ts[i]) < Ref(cid, ts[j]) {
      assert Reduced(ts[i]) && Reduced(ts[j]);
    }
  }

  lemma FirstMember(ts: seq<Term>)
    ensures ts != [] ==> ts[0] in ts
  {
  }

  lemma {:induction false} SortedUnique(cid: real -> int, a: seq<Term>, b: seq<Term>)
    requires forall i, j | 0 <= i < j < |a| :: Ref(cid, a[i]) < Ref(cid, a[j])
    requires forall i, j | 0 <= i < j < |b| :: Ref(cid, b[i]) < Ref(cid, b[j])
    requires forall t :: t in a <==> t in b
    ensures a == b
    decreases |a|
  {
    FirstMember(a);
    FirstMember(b);
    if a != [] && b != [] {
      assert a[0] in b && b[0] in a;
      var i :| 0 <= i < |b| && b[i] == a[0];
      var j :| 0 <= j < |a| && a[j] == b[0];
      assert a[0] == b[0];
      assert a == [a[0]] + a[1..] && b == [b[0]] + b[1..];
      forall t ensures t in a[1..] <==> t in b[1..] {
        assert t in a <==> t == a[0] || t in a[1..];
        assert t in b <==> t == b[0] || t in b[1..];
      }
      SortedUnique(cid, a[1..], b[1..]);
    }
  }

  lemma SameCoefficients(cid: real -> int, a: seq<Term>, b: seq<Term>)
    requires NormalArgs(a) && NormalArgs(b) && RefSorted(cid, a) && RefSorted(cid, b)
    requires forall h | h >= -1 :: Co(a, h) == Co(b, h)
    ensures a == b
  {
    RefsDistinct(cid, a);
    RefsDistinct(cid, b);
    forall t ensures t in a <==> t in b {
      if t in a {
        SameMembers(a, b, t);
      }
      if t in b {
        SameMembers(b, a, t);
      }
    }
    SortedUnique(cid, a, b);
  }

  /** Normal forms with the same value under every valuation are the same term. */
  lemma NormalFormsUnique(cid: real -> int, t: Term, u: Term)
    requires Normal(cid, t) && Normal(cid, u) && forall v: Valuation :: Eval(t, v) == Eval(u, v)
    ensures t == u
  {
    ArgsNormal(cid, t);
    ArgsNormal(cid, u);
    var a, b := ArgsOf(t), ArgsOf(u);
    forall v: Valuation ensures SumVal(a, v) == 1.0 * SumVal(b, v) {
      assert Eval(t, v) == Eval(u, v);
    }
    Proportional(a, b, 1.0);
    SameCoefficients(cid, a, b);
    assert |a| >= 2 <==> t.Plus?;
    assert |b| >= 2 <==> u.Plus?;
  }
}
