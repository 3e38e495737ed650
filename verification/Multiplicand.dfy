/** The least factor that turns a list of rationals into integers. */
module Multiplicand {
  import opened Rationals
  import opened WordArithmetic
  import opened FastRationals

  ghost predicate AllDivide(ds: seq<int>, x: int) {
    forall i | 0 <= i < |ds| :: Divides(ds[i], x)
  }

  ghost function Dens(reals: seq<Q>): (r: seq<int>)
    ensures |r| == |reals| && forall i | 0 <= i < |r| :: r[i] == reals[i].den
  {
    seq(|reals|, i requires 0 <= i < |reals| => reals[i].den)
  }

  /** The product of q and x is an integer. */
  ghost predicate MakesInteger(q: Q, x: int) {
    q.den > 0 && Mul(q, Q(x, 1)).den == 1
  }

  ghost predicate MakesIntegers(reals: seq<Q>, x: int) {
    forall i | 0 <= i < |reals| :: MakesInteger(reals[i], x)
  }

  /** That is so exactly when the denominator divides x. */
  lemma MakesIntegerExactly(q: Q, x: int)
    requires Lowest(q)
    ensures MakesInteger(q, x) <==> Divides(q.den, x)
  {
    hide Coprime, Gcd, Canon;
    CanonLowest(q.num * x, q.den * 1);
    var c := Mul(q, Q(x, 1));
    if c.den == 1 {
      assert Times(q.den, c.num) == q.num * x;
      CoprimeDivides(q.den, q.num, x);
    }
    if Divides(q.den, x) {
      var k: int :| Times(q.den, k) == x;
      IntegerLowest(q.num * k);
      assert (q.num * k) * q.den == q.num * x by { assert (q.num * k) * q.den == q.num * (q.den * k); }
      IsCanon(Q(q.num * k, 1), q.num * x, q.den * 1);
    }
  }

  /** What remains of the denominator d once a factor m is in place: the denominator of m/d. */
  lemma RemainingDen(m: int, d: int, z: int)
    requires m > 0 && d > 0
    ensures Div(Q(m, 1), Q(d, 1)).den > 0
    ensures Divides(d, m * z) <==> Divides(Div(Q(m, 1), Q(d, 1)).den, z)
  {
    hide Coprime, Gcd;
    assert Div(Q(m, 1), Q(d, 1)) == Canon(m * 1, 1 * d);
    CanonLowest(m, d);
    GcdReduces(m, d);
    var g := Gcd(m, d);
    FactorAtMost(g, d / g, d);
    DividesScaled(g, m / g, d / g, z);
  }

  lemma RemainingSmaller(m: int, d: int)
    requires m > 0 && d > 0
    ensures Div(Q(m, 1), Q(d, 1)).den <= d
  {
    hide Gcd, Coprime;
    GcdReduces(m, d);
    QuotientFits(d, Gcd(m, d));
  }

  lemma DividesScaled(g: int, p: int, q: int, z: int)
    requires g > 0 && Coprime(p, q)
    ensures Divides(g * q, (g * p) * z) <==> Divides(q, z)
  {
    hide Coprime;
    if Divides(g * q, (g * p) * z) {
      var k: int :| Times(g * q, k) == (g * p) * z;
      assert (q * k) * g == (p * z) * g;
      CancelFactor(q * k, p * z, g);
      assert Times(q, k) == p * z;
      CoprimeDivides(q, p, z);
    }
    if Divides(q, z) {
      var k: int :| Times(q, k) == z;
      assert Times(g * q, p * k) == (g * p) * z by { assert (g * q) * (p * k) == (g * p) * (q * k); }
    }
  }

  /** The common multiples of the original denominators are the multiples of mult by common
      multiples of the remaining ones. */
  ghost predicate Collected(all: seq<int>, mult: int, ds: seq<int>) {
    && mult > 0 && (forall i | 0 <= i < |ds| :: ds[i] > 0)
    && forall x: int :: AllDivide(all, x) <==> Composed(mult, ds, x)
  }

  /** x is the product of mult and a common multiple of ds. */
  ghost predicate Composed(mult: int, ds: seq<int>, x: int) {
    exists y: int :: Times(mult, y) == x && AllDivide(ds, y)
  }

  lemma SameMembers(ds: seq<int>, es: seq<int>, x: int)
    requires forall d :: d in ds <==> d in es
    ensures AllDivide(ds, x) == AllDivide(es, x)
  {
    forall i | 0 <= i < |es| && AllDivide(ds, x) ensures Divides(es[i], x) {
      assert es[i] in es;
    }
    forall i | 0 <= i < |ds| && AllDivide(es, x) ensures Divides(ds[i], x) {
      assert ds[i] in ds;
    }
  }

  lemma CollectedSame(all: seq<int>, mult: int, ds: seq<int>, es: seq<int>)
    requires Collected(all, mult, ds) && forall d :: d in ds <==> d in es
    ensures Collected(all, mult, es)
  {
    forall i | 0 <= i < |es| ensures es[i] > 0 {
      assert es[i] in es;
    }
    forall x: int ensures AllDivide(all, x) <==> Composed(mult, es, x) {
      forall y: int ensures AllDivide(ds, y) == AllDivide(es, y) {
        SameMembers(ds, es, y);
      }
    }
  }

  /** Moving a factor m from the remaining denominators to mult. */
  lemma CollectedStep(all: seq<int>, mult: int, ds: seq<int>, m: int, es: seq<int>)
    requires Collected(all, mult, ds) && m > 0 && (forall i | 0 <= i < |es| :: es[i] > 0)
    requires forall y: int :: AllDivide(ds, y) <==> Composed(m, es, y)
    ensures Collected(all, mult * m, es)
  {
    hide AllDivide, Times;
    assert mult * m > 0;
    forall x: int ensures AllDivide(all, x) <==> Composed(mult * m, es, x) {
      if AllDivide(all, x) {
        var y: int :| Times(mult, y) == x && AllDivide(ds, y);
        var z: int :| Times(m, z) == y && AllDivide(es, z);
        TimesTwice(mult, m, z);
      }
      if z: int :| Times(mult * m, z) == x && AllDivide(es, z) {
        TimesTwice(mult, m, z);
        assert Composed(m, es, Times(m, z));
        assert Composed(mult, ds, x);
      }
    }
  }

  lemma TimesTwice(a: int, b: int, z: int)
    ensures Times(a * b, z) == Times(a, Times(b, z))
  {
  }

  /** Shortening one more denominator. */
  lemma Shortened(m: int, ds: seq<int>, d: int, es: seq<int>)
    requires m > 0 && d > 0
    requires forall z: int :: AllDivide(es, z) <==> AllDivide(ds, Times(m, z))
    ensures Div(Q(m, 1), Q(d, 1)).den > 0
    ensures var n := Div(Q(m, 1), Q(d, 1)).den;
      forall z: int :: AllDivide(if n != 1 then es + [n] else es, z) <==> AllDivide(ds + [d], Times(m, z))
  {
    hide AllDivide, Div, Coprime, Divides;
    RemainingDen(m, d, 0);
    var n := Div(Q(m, 1), Q(d, 1)).den;
    forall z: int ensures AllDivide(if n != 1 then es + [n] else es, z) <==> AllDivide(ds + [d], Times(m, z)) {
      RemainingDen(m, d, z);
      AllDivideMore(ds, d, Times(m, z));
      AllDivideMore(es, n, z);
      OneDivides(z);
    }
  }

  lemma OneDivides(z: int)
    ensures Divides(1, z)
  {
    assert Times(1, z) == z;
  }

  // ----- lists of numbers -----

  ghost predicate AllValid(xs: seq<FastRational>)
    reads xs
  {
    forall x | x in xs :: x.Valid()
  }

  ghost function Values(xs: seq<FastRational>): (r: seq<Q>)
    requires AllValid(xs)
    reads xs
    ensures |r| == |xs| && forall i | 0 <= i < |r| :: r[i] == xs[i].Value() && Lowest(r[i])
  {
    if xs == [] then [] else Values(xs[..|xs| - 1]) + [xs[|xs| - 1].Value()]
  }

  /** The positive integers that the objects of a list hold. */
  type Held = map<FastRational, int>

  ghost predicate Holds(xs: seq<FastRational>, held: Held)
    reads xs
  {
    forall x | x in xs :: x in held && held[x] > 0 && x.Valid() && x.Value() == Q(held[x], 1)
  }

  predicate Distinct(xs: seq<FastRational>) {
    forall i, j | 0 <= i < j < |xs| :: xs[i] != xs[j]
  }

  ghost function Nums(xs: seq<FastRational>, held: Held): (r: seq<int>)
    requires forall x | x in xs :: x in held
    ensures |r| == |xs| && forall i | 0 <= i < |r| :: r[i] == held[xs[i]]
  {
    seq(|xs|, i requires 0 <= i < |xs| => assert xs[i] in xs; held[xs[i]])
  }

  lemma DistinctInserted(x: FastRational, xs: seq<FastRational>, i: nat)
    requires Distinct(xs) && x !in xs && i <= |xs|
    ensures Distinct(xs[..i] + [x] + xs[i..]) && forall y :: y in xs[..i] + [x] + xs[i..] <==> y == x || y in xs
  {
    var ys := xs[..i] + [x] + xs[i..];
    assert xs == xs[..i] + xs[i..];
    forall k, l | 0 <= k < l < |ys| ensures ys[k] != ys[l] {
      assert k != i ==> ys[k] == xs[if k < i then k else k - 1] && ys[k] in xs;
      assert l != i ==> ys[l] == xs[if l < i then l else l - 1] && ys[l] in xs;
    }
  }

  /** Inserts x before the first element that is not smaller. */
  method InsertDen(x: FastRational, xs: seq<FastRational>, ghost held: Held) returns (ys: seq<FastRational>)
    requires Holds([x], held) && Holds(xs, held) && Distinct(xs) && x !in xs
    modifies {x} + set y | y in xs
    ensures Holds(ys, held) && Distinct(ys) && |ys| == |xs| + 1 && forall y :: y in ys <==> y == x || y in xs
  {
    hide Lowest, Cmp, FastRational.Valid;
    var i := 0;
    assert x in [x];
    while i < |xs|
      invariant i <= |xs| && Holds(xs, held) && Holds([x], held)
    {
      assert x in [x] && xs[i] in xs;
      var c := x.Compare(xs[i]);
      if c <= 0 {
        break;
      }
      i := i + 1;
    }
    DistinctInserted(x, xs, i);
    ys := xs[..i] + [x] + xs[i..];
    assert x in [x];
  }

  method SortDens(xs: seq<FastRational>, ghost held: Held) returns (ys: seq<FastRational>)
    requires Holds(xs, held) && Distinct(xs)
    modifies set y | y in xs
    ensures Holds(ys, held) && Distinct(ys) && |ys| == |xs| && forall y :: y in ys <==> y in xs
  {
    hide Lowest, FastRational.Valid;
    ys := [];
    for i := 0 to |xs|
      invariant Holds(ys, held) && Holds(xs, held) && Distinct(ys) && |ys| == i && forall y :: y in ys <==> y in xs[..i]
    {
      NotBefore(xs, i);
      assert xs[..i + 1] == xs[..i] + [xs[i]];
      assert xs[i] in xs;
      assert forall y | y in ys :: y in xs;
      ys := InsertDen(xs[i], ys, held);
    }
    assert xs[..|xs|] == xs;
  }

  lemma NotBefore(xs: seq<FastRational>, i: nat)
    requires Distinct(xs) && i < |xs|
    ensures xs[i] !in xs[..i] && forall y | y in xs[..i] :: y in xs
  {
    assert xs == xs[..i] + xs[i..];
  }

  /** Two elements of a list hold the same number. */
  method SameNum(xs: seq<FastRational>, x: FastRational, y: FastRational, ghost held: Held) returns (same: bool)
    requires Holds(xs, held) && x in xs && y in xs
    modifies x, y
    ensures Holds(xs, held) && (same <==> held[x] == held[y])
  {
    hide Lowest, FastRational.Valid;
    same := x.Equals(y);
  }

  /** Some element of ys holds d. */
  ghost predicate HeldIn(ys: seq<FastRational>, held: Held, d: int) {
    exists i | 0 <= i < |ys| :: ys[i] in held && held[ys[i]] == d
  }

  /** The elements of ys are elements of xs, and they hold all its numbers. */
  ghost predicate Represented(xs: seq<FastRational>, ys: seq<FastRational>, held: Held) {
    && (forall y | y in ys :: y in xs)
    && forall x | x in xs :: x in held && HeldIn(ys, held, held[x])
  }

  lemma HeldInMore(ys: seq<FastRational>, held: Held, d: int, x: FastRational)
    ensures HeldIn(ys, held, d) ==> HeldIn(ys + [x], held, d)
    ensures x in held && held[x] == d ==> HeldIn(ys + [x], held, d)
  {
    var zs := ys + [x];
    assert zs[|ys|] == x;
    if HeldIn(ys, held, d) {
      var i :| 0 <= i < |ys| && ys[i] in held && held[ys[i]] == d;
      assert zs[i] == ys[i];
    }
  }

  lemma RepresentedMore(xs: seq<FastRational>, ys: seq<FastRational>, held: Held, x: FastRational, same: bool)
    requires Represented(xs, ys, held) && x in held && (same ==> HeldIn(ys, held, held[x]))
    ensures Represented(xs + [x], if same then ys else ys + [x], held)
  {
    hide HeldIn;
    forall u | u in xs + [x] ensures u in held && HeldIn(if same then ys else ys + [x], held, held[u]) {
      HeldInMore(ys, held, held[u], x);
    }
  }

  /** Keeps the first of every run of equal numbers. */
  method UniqDens(xs: seq<FastRational>, ghost held: Held) returns (ys: seq<FastRational>)
    requires Holds(xs, held) && Distinct(xs)
    modifies set y | y in xs
    ensures Holds(xs, held) && Distinct(ys) && |ys| <= |xs| && (xs != [] ==> ys != []) && Represented(xs, ys, held)
  {
    hide Lowest, FastRational.Valid, Represented, Holds;
    ys := [];
    assert Represented(xs[..0], ys, held) by { NoneRepresented(xs, held); }
    for i := 0 to |xs|
      invariant Holds(xs, held) && Distinct(ys) && |ys| <= i && (i > 0 ==> ys != []) && (forall y | y in ys :: y in xs[..i])
      invariant Represented(xs[..i], ys, held)
    {
      NotBefore(xs, i);
      assert xs[..i + 1] == xs[..i] + [xs[i]];
      assert xs[i] in xs;
      HoldsAt(xs, held, xs[i]);
      var same := false;
      if ys != [] {
        assert ys[|ys| - 1] in ys && ys[|ys| - 1] in xs;
        HoldsAt(xs, held, ys[|ys| - 1]);
        same := SameNum(xs, xs[i], ys[|ys| - 1], held);
      }
      RepresentedMore(xs[..i], ys, held, xs[i], same);
      if !same {
        ys := ys + [xs[i]];
      }
    }
    assert xs[..|xs|] == xs;
  }

  lemma HoldsAt(xs: seq<FastRational>, held: Held, x: FastRational)
    requires Holds(xs, held) && x in xs
    ensures x in held && held[x] > 0 && x.Valid() && x.Value() == Q(held[x], 1)
  {
  }

  lemma NoneRepresented(xs: seq<FastRational>, held: Held)
    ensures Represented(xs[..0], [], held)
  {
    assert xs[..0] == [];
  }

  lemma NothingDivides()
    ensures forall z: int :: AllDivide([], z)
  {
  }

  lemma LastTwo(rest: seq<int>, a: int, b: int, es: seq<int>, y: int)
    requires a > 0 && b > 0
    requires forall z: int :: AllDivide(es, z) <==> AllDivide(rest, Times(Lcm(a, b), z))
    ensures AllDivide((rest + [b]) + [a], y) <==> Composed(Lcm(a, b), es, y)
  {
    hide Coprime, Gcd, Lcm, AllDivide;
    LcmExact(a, b, y);
    AllDivideMore(rest, b, y);
    AllDivideMore(rest + [b], a, y);
  }

  lemma AllDivideMore(ds: seq<int>, d: int, x: int)
    ensures AllDivide(ds + [d], x) <==> AllDivide(ds, x) && Divides(d, x)
  {
    if AllDivide(ds + [d], x) {
      assert (ds + [d])[|ds|] == d;
      forall i | 0 <= i < |ds| ensures Divides(ds[i], x) {
        assert (ds + [d])[i] == ds[i];
      }
    }
  }

  lemma CollectedStart(reals: seq<Q>, dens: seq<int>)
    requires forall i | 0 <= i < |reals| :: Lowest(reals[i])
    requires forall d :: d in dens <==> d != 1 && d in Dens(reals)
    ensures Collected(Dens(reals), 1, dens)
  {
    hide Coprime;
    var all := Dens(reals);
    forall i | 0 <= i < |dens| ensures dens[i] > 0 {
      assert dens[i] in dens;
    }
    forall x: int ensures AllDivide(all, x) <==> Composed(1, dens, x) {
      assert Times(1, x) == x;
      forall i | 0 <= i < |dens| && AllDivide(all, x) ensures Divides(dens[i], x) {
        assert dens[i] in dens;
      }
      forall i | 0 <= i < |all| && AllDivide(dens, x) ensures Divides(all[i], x) {
        assert all[i] in all;
        assert all[i] != 1 ==> all[i] in dens;
      }
    }
  }

  lemma CollectedPositive(all: seq<int>, mult: int, ds: seq<int>)
    requires Collected(all, mult, ds)
    ensures mult > 0 && forall i | 0 <= i < |ds| :: ds[i] > 0
  {
  }

  lemma LastOne(all: seq<int>, mult: int, ds: seq<int>)
    requires Collected(all, mult, ds) && |ds| == 1
    ensures Collected(all, mult * ds[0], [])
  {
    forall y: int ensures AllDivide(ds, y) <==> Composed(ds[0], [], y) {
      if AllDivide(ds, y) {
        assert Divides(ds[0], y);
        var z: int :| Times(ds[0], z) == y;
        assert AllDivide([], z);
      }
    }
    CollectedStep(all, mult, ds, ds[0], []);
  }

  lemma CollectedAll(all: seq<int>, mult: int)
    requires Collected(all, mult, [])
    ensures mult > 0 && forall x: int :: AllDivide(all, x) <==> Divides(mult, x)
  {
    forall x: int ensures AllDivide(all, x) <==> Divides(mult, x) {
      if Divides(mult, x) {
        var y: int :| Times(mult, y) == x;
        assert AllDivide([], y);
      }
    }
  }

  /** The denominator of m divided by x.  It can always be read: a quotient of words has no greater
      denominator than x, and any other quotient is exact. */
  method RemainingDenominator(m: FastRational, x: FastRational, ghost k: int, ghost d: int) returns (n: FastRational)
    requires m.Valid() && m.Value() == Q(k, 1) && x.Valid() && x.Value() == Q(d, 1) && k > 0 && d > 0
    modifies m, x
    ensures m.Valid() && m.Value() == Q(k, 1) && x.Valid() && x.Value() == Q(d, 1)
    ensures fresh(n) && n.Valid() && n.Value() == Q(Div(Q(k, 1), Q(d, 1)).den, 1)
  {
    hide Coprime, Div, Canon;
    RemainingDen(k, d, 0);
    RemainingSmaller(k, d);
    var q := new FastRational.FromWord(0);
    Division(q, m, x);
    var defined;
    defined, n := GetDen(q);
  }

  method IsOne(n: FastRational) returns (r: bool)
    requires n.Valid()
    modifies n
    ensures n.Valid() && n.Value() == old(n.Value()) && (r <==> n.Value() == Q(1, 1))
  {
    var one := new FastRational.FromWord(1);
    r := n.Equals(one);
  }

  /** One round: the last two denominators are replaced by their least common multiple, which
      shortens the others. */
  method Round(dens: seq<FastRational>, ghost held: Held) returns (m: FastRational, es: seq<FastRational>, ghost held': Held)
    requires Holds(dens, held) && Distinct(dens) && |dens| >= 2
    modifies set x | x in dens
    ensures fresh(m) && m.Valid() && m.Value().den == 1 && m.Value().num > 0
    ensures Holds(es, held') && Distinct(es) && |es| <= |dens| - 2 && (forall e | e in es :: fresh(e)) && m !in es
    ensures (forall x | x in dens :: x in held) && (forall e | e in es :: e in held')
    ensures forall y: int :: AllDivide(Nums(dens, held), y) <==> Composed(m.Value().num, Nums(es, held'), y)
  {
    hide Coprime, Gcd, Lcm, Div, AllDivide, Divides, Lowest, FastRational.Valid, Nums, Shortening, Composed;
    ghost var ds := Nums(dens, held);
    var a, b := dens[|dens| - 1], dens[|dens| - 2];
    assert a in dens && b in dens && held[a] > 0 && held[b] > 0;
    LcmExact(held[a], held[b], 0);
    m := LcmRationals(a, b);
    ghost var k := Lcm(held[a], held[b]);
    es, held' := [], map[];
    NothingShortened(k, ds);
    for j := 0 to |dens| - 2
      invariant Holds(dens, held) && m.Valid() && m.Value() == Q(k, 1) && fresh(m)
      invariant Holds(es, held') && Distinct(es) && |es| <= j && (forall e | e in es :: fresh(e) && e in held') && m !in es
      invariant Shortening(k, ds, j, Nums(es, held'))
    {
      es, held' := ShortenOne(m, dens, j, k, held, es, held');
    }
    RoundDone(dens, held, ds, k, Nums(es, held'));
  }

  /** The numbers kept so far have z as a common multiple exactly when the first j have k * z. */
  ghost predicate Shortening(k: int, ds: seq<int>, j: nat, es: seq<int>)
    requires j <= |ds|
  {
    forall z: int :: AllDivide(es, z) <==> AllDivide(ds[..j], Times(k, z))
  }

  lemma NothingShortened(k: int, ds: seq<int>)
    ensures Nums([], map[]) == [] && Shortening(k, ds, 0, [])
  {
    NothingDivides();
  }

  /** Shortens the j-th denominator and keeps it unless it is one. */
  method ShortenOne(m: FastRational, dens: seq<FastRational>, j: nat, ghost k: int, ghost held: Held, es: seq<FastRational>, ghost heldEs: Held)
    returns (es': seq<FastRational>, ghost held': Held)
    requires Holds(dens, held) && j < |dens| && m.Valid() && m.Value() == Q(k, 1) && k > 0 && m !in dens && m !in es
    requires Holds(es, heldEs) && Distinct(es) && (forall e | e in es :: e !in dens && e in heldEs) && (forall x | x in dens :: x in held)
    requires Shortening(k, Nums(dens, held), j, Nums(es, heldEs))
    modifies m, set x | x in dens
    ensures Holds(dens, held) && m.Valid() && m.Value() == Q(k, 1)
    ensures Holds(es', held') && Distinct(es') && |es'| <= |es| + 1 && (forall e | e in es' :: e in held' && (e in es || fresh(e))) && m !in es'
    ensures Shortening(k, Nums(dens, held), j + 1, Nums(es', held'))
  {
    hide Coprime, Gcd, Div, AllDivide, Divides, Lowest, FastRational.Valid, Nums;
    assert dens[j] in dens;
    ghost var d := held[dens[j]];
    RemainingDen(k, d, 0);
    var n := RemainingDenominator(m, dens[j], k, d);
    var one := IsOne(n);
    es', held' := es, heldEs;
    ShortenedOne(k, dens, held, j, d, Nums(es, heldEs));
    if !one {
      held' := heldEs[n := Div(Q(k, 1), Q(d, 1)).den];
      es' := es + [n];
      HeldMore(es, heldEs, held', n);
    }
  }

  lemma ShortenedOne(k: int, dens: seq<FastRational>, held: Held, j: nat, d: int, es: seq<int>)
    requires k > 0 && d > 0 && j < |dens| && (forall x | x in dens :: x in held) && held[dens[j]] == d
    requires Shortening(k, Nums(dens, held), j, es)
    ensures Div(Q(k, 1), Q(d, 1)).den > 0
    ensures var n := Div(Q(k, 1), Q(d, 1)).den; Shortening(k, Nums(dens, held), j + 1, if n != 1 then es + [n] else es)
  {
    hide AllDivide, Div;
    var ds := Nums(dens, held);
    assert ds[..j + 1] == ds[..j] + [d];
    Shortened(k, ds[..j], d, es);
  }

  lemma RoundDone(dens: seq<FastRational>, held: Held, ds: seq<int>, k: int, es: seq<int>)
    requires |dens| >= 2 && (forall x | x in dens :: x in held && held[x] > 0) && ds == Nums(dens, held)
    requires dens[|dens| - 1] in held && dens[|dens| - 2] in held && held[dens[|dens| - 1]] > 0 && held[dens[|dens| - 2]] > 0
    requires k == Lcm(held[dens[|dens| - 1]], held[dens[|dens| - 2]]) && Shortening(k, ds, |ds| - 2, es)
    ensures forall y: int :: AllDivide(ds, y) <==> Composed(k, es, y)
  {
    hide Lcm, AllDivide;
    var a, b := ds[|ds| - 1], ds[|ds| - 2];
    var rest := ds[..|ds| - 2];
    assert ds == (rest + [b]) + [a];
    forall y: int ensures AllDivide(ds, y) <==> Composed(k, es, y) {
      LastTwo(rest, a, b, es, y);
    }
  }

  lemma HeldMore(xs: seq<FastRational>, held: Held, held': Held, n: FastRational)
    requires (forall x | x in xs :: x in held) && n !in xs && n in held' && held' == held[n := held'[n]]
    ensures (forall x | x in xs + [n] :: x in held') && Nums(xs + [n], held') == Nums(xs, held) + [held'[n]]
    ensures Distinct(xs) ==> Distinct(xs + [n])
  {
    forall i | 0 <= i < |xs| ensures held'[xs[i]] == held[xs[i]] && xs[i] != n {
      assert xs[i] in xs;
    }
  }

  /** Numbers that are held by some element of the shorter list. */
  lemma CollectedUniq(all: seq<int>, mult: int, xs: seq<FastRational>, ys: seq<FastRational>, held: Held)
    requires (forall x | x in xs :: x in held) && Collected(all, mult, Nums(xs, held)) && Represented(xs, ys, held)
    ensures (forall y | y in ys :: y in held) && Collected(all, mult, Nums(ys, held))
  {
    hide Collected;
    var ds, es := Nums(xs, held), Nums(ys, held);
    forall d ensures d in ds <==> d in es {
      if d in ds {
        var i :| 0 <= i < |ds| && ds[i] == d;
        assert xs[i] in xs;
        var j :| 0 <= j < |ys| && ys[j] in held && held[ys[j]] == d;
        assert es[j] == d;
      }
      if d in es {
        var j :| 0 <= j < |es| && es[j] == d;
        assert ys[j] in ys;
        var i :| 0 <= i < |xs| && xs[i] == ys[j];
        assert ds[i] == d;
      }
    }
    CollectedSame(all, mult, ds, es);
  }

  lemma CollectedSorted(all: seq<int>, mult: int, xs: seq<FastRational>, ys: seq<FastRational>, held: Held)
    requires (forall x | x in xs :: x in held) && Collected(all, mult, Nums(xs, held)) && forall y :: y in ys <==> y in xs
    ensures (forall y | y in ys :: y in held) && Collected(all, mult, Nums(ys, held))
  {
    hide Collected;
    forall x | x in xs ensures HeldIn(ys, held, held[x]) {
      assert x in ys;
      var i :| 0 <= i < |ys| && ys[i] == x;
    }
    CollectedUniq(all, mult, xs, ys, held);
  }

  /** All denominators that matter can be read. */
  ghost predicate AllReadable(reals: seq<FastRational>)
    requires AllValid(reals)
    reads reals
  {
    forall i | 0 <= i < |reals| :: reals[i].Value().den != 1 ==> Readable(reals[i])
  }

  /** Reads the denominators of the numbers that are not integers; the first that cannot be read ends it. */
  method ReadDens(reals: seq<FastRational>) returns (defined: bool, dens: seq<FastRational>, ghost held: Held)
    requires AllValid(reals)
    ensures defined <==> AllReadable(reals)
    ensures Holds(dens, held) && Distinct(dens) && (forall x | x in dens :: fresh(x) && x in held)
    ensures defined ==> forall d :: d in Nums(dens, held) <==> d != 1 && d in Dens(Values(reals))
  {
    hide Lowest, FastRational.Valid, Nums, Holds;
    ghost var all := Dens(Values(reals));
    defined, dens, held := true, [], map[];
    NothingHeld();
    for i := 0 to |reals|
      invariant defined && forall j | 0 <= j < i :: reals[j].Value().den != 1 ==> Readable(reals[j])
      invariant Holds(dens, held) && Distinct(dens) && (forall x | x in dens :: fresh(x) && x in held)
      invariant forall d :: d in Nums(dens, held) <==> d != 1 && d in all[..i]
    {
      assert reals[i] in reals;
      assert all[..i + 1] == all[..i] + [all[i]];
      var integer := reals[i].IsInteger();
      if !integer {
        var ok, d := GetDen(reals[i]);
        if !ok {
          defined := false;
          return;
        }
        DenPositive(reals[i].Value());
        ghost var was, heldWas := dens, held;
        held := held[d := all[i]];
        dens := dens + [d];
        HeldMore(was, heldWas, held, d);
        HoldsMore(was, heldWas, held, d);
      }
    }
    assert all[..|reals|] == all;
  }

  lemma DenPositive(q: Q)
    requires Lowest(q)
    ensures q.den > 0
  {
  }

  lemma NothingHeld()
    ensures Nums([], map[]) == [] && Holds([], map[])
  {
  }

  lemma HoldsMore(xs: seq<FastRational>, held: Held, held': Held, n: FastRational)
    requires Holds(xs, held) && n !in xs && n in held' && held' == held[n := held'[n]]
    requires held'[n] > 0 && n.Valid() && n.Value() == Q(held'[n], 1)
    ensures Holds(xs + [n], held')
  {
  }

  /** The common multiples of all denominators are exactly the multiples of the result.  It is defined
      exactly when all denominators that matter can be read. */
  method GetMultiplicand(reals: seq<FastRational>) returns (defined: bool, mult: FastRational)
    requires AllValid(reals)
    ensures defined <==> AllReadable(reals)
    ensures fresh(mult) && mult.Valid() && mult.Value().den == 1
    ensures defined ==> mult.Value().num > 0
                        && forall x: int :: AllDivide(Dens(Values(reals)), x) <==> Divides(mult.Value().num, x)
    ensures defined ==> MakesIntegers(Values(reals), mult.Value().num)
                        && forall x: int | x > 0 && MakesIntegers(Values(reals), x) :: mult.Value().num <= x
  {
    hide Coprime, AllDivide, Collected, Lowest, FastRational.Valid, Nums, Holds, Distinct, MakesIntegers;
    ghost var all := Dens(Values(reals));
    mult := new FastRational.FromWord(1);
    var dens;
    ghost var held;
    defined, dens, held := ReadDens(reals);
    if !defined {
      return;
    }
    CollectedStart(Values(reals), Nums(dens, held));
    while |dens| > 0
      invariant Holds(dens, held) && Distinct(dens) && (forall x | x in dens :: fresh(x) && x in held) && mult !in dens
      invariant fresh(mult) && mult.Valid() && mult.Value().den == 1
      invariant Collected(all, mult.Value().num, Nums(dens, held))
      decreases |dens|
    {
      dens, held := TakeOut(mult, dens, held, all);
    }
    NoNums(held);
    assert dens == [];
    CollectedAll(all, mult.Value().num);
    LeastMultiplicand(Values(reals), mult.Value().num);
  }

  /** Sorts, removes repetitions, and multiplies the only denominator or the least common multiple of
      two of them into mult. */
  method TakeOut(mult: FastRational, dens0: seq<FastRational>, ghost held0: Held, ghost all: seq<int>)
    returns (dens: seq<FastRational>, ghost held: Held)
    requires Holds(dens0, held0) && Distinct(dens0) && (forall x | x in dens0 :: x in held0) && mult !in dens0 && dens0 != []
    requires mult.Valid() && mult.Value().den == 1 && Collected(all, mult.Value().num, Nums(dens0, held0))
    modifies mult, set x | x in dens0
    ensures Holds(dens, held) && Distinct(dens) && (forall x | x in dens :: fresh(x) && x in held) && mult !in dens
    ensures mult.Valid() && mult.Value().den == 1 && Collected(all, mult.Value().num, Nums(dens, held))
    ensures |dens| < |dens0|
  {
    hide Coprime, AllDivide, Collected, Lowest, FastRational.Valid, Nums, Holds, Distinct;
    ghost var k := mult.Value().num;
    var sorted := SortDens(dens0, held0);
    CollectedSorted(all, k, dens0, sorted, held0);
    var uniq := UniqDens(sorted, held0);
    CollectedUniq(all, k, sorted, uniq, held0);
    HoldsSome(sorted, uniq, held0);
    CollectedPositive(all, k, Nums(uniq, held0));
    if |uniq| == 1 {
      HoldsFirst(uniq, held0);
      LastOne(all, k, Nums(uniq, held0));
      MulIntegers(k, held0[uniq[0]]);
      MultiplicationAssign(mult, uniq[0]);
      dens, held := [], held0;
      NoNums(held0);
    } else {
      var m;
      m, dens, held := Round(uniq, held0);
      HoldsPositive(dens, held);
      CollectedStep(all, k, Nums(uniq, held0), m.Value().num, Nums(dens, held));
      MulIntegers(k, m.Value().num);
      MultiplicationAssign(mult, m);
    }
  }

  lemma HoldsSome(xs: seq<FastRational>, ys: seq<FastRational>, held: Held)
    requires Holds(xs, held) && forall y | y in ys :: y in xs
    ensures Holds(ys, held) && forall y | y in ys :: y in held
  {
  }

  lemma HoldsFirst(xs: seq<FastRational>, held: Held)
    requires Holds(xs, held) && |xs| == 1
    ensures xs[0] in held && xs[0].Valid() && xs[0].Value() == Q(held[xs[0]], 1) && held[xs[0]] > 0
    ensures (forall x | x in xs :: x in held) && Nums(xs, held) == [held[xs[0]]]
  {
    assert xs[0] in xs;
  }

  lemma HoldsPositive(xs: seq<FastRational>, held: Held)
    requires Holds(xs, held) && forall x | x in xs :: x in held
    ensures forall i | 0 <= i < |Nums(xs, held)| :: Nums(xs, held)[i] > 0
  {
    assert forall i | 0 <= i < |xs| :: xs[i] in xs;
  }

  lemma NoNums(held: Held)
    ensures Nums([], held) == [] && Distinct([]) && Holds([], held)
  {
  }

  /** The result makes every rational an integer, and no smaller positive factor does. */
  lemma LeastMultiplicand(reals: seq<Q>, mult: int)
    requires forall i | 0 <= i < |reals| :: Lowest(reals[i])
    requires mult > 0 && forall x: int :: AllDivide(Dens(reals), x) <==> Divides(mult, x)
    ensures MakesIntegers(reals, mult) && forall x: int | x > 0 && MakesIntegers(reals, x) :: mult <= x
  {
    hide Coprime, Mul;
    assert Times(mult, 1) == mult;
    assert AllDivide(Dens(reals), mult);
    forall i | 0 <= i < |reals| ensures MakesInteger(reals[i], mult) {
      MakesIntegerExactly(reals[i], mult);
      assert Divides(Dens(reals)[i], mult);
    }
    forall x: int | x > 0 && MakesIntegers(reals, x) ensures mult <= x {
      forall i | 0 <= i < |reals| ensures Divides(Dens(reals)[i], x) {
        MakesIntegerExactly(reals[i], x);
      }
      assert AllDivide(Dens(reals), x);
      var k: int :| Times(mult, k) == x;
      FactorAtMost(mult, k, x);
    }
  }
}