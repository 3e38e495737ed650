/** Exact rational numbers in lowest terms. */
module Rationals {

  datatype Q = Q(num: int, den: int)

  function Abs(x: int): (r: nat)
    ensures r == x || r == -x
  {
    if x < 0 then -x else x
  }

  function Gcd(a: nat, b: nat): (g: nat)
    ensures a > 0 || b > 0 ==> g > 0
    decreases b
  {
    if b == 0 then a else Gcd(b, a % b)
  }

  /** Bezout's identity characterises coprime numbers. */
  ghost predicate Coprime(a: int, b: int) {
    exists x: int, y: int :: Bezout(a, b, x, y) == 1
  }

  function Bezout(a: int, b: int, x: int, y: int): int {
    a * x + b * y
  }

  ghost predicate Divides(d: int, x: int) {
    exists k: int :: Times(d, k) == x
  }

  function Times(d: int, k: int): int {
    d * k
  }

  ghost predicate Lowest(q: Q) {
    q.den > 0 && Coprime(q.num, q.den)
  }

  // ----- greatest common divisors -----

  lemma {:induction false} GcdBezout(a: nat, b: nat) returns (x: int, y: int)
    ensures Bezout(a, b, x, y) == Gcd(a, b)
    decreases b
  {
    if b == 0 {
      x, y := 1, 0;
    } else {
      var u, v := GcdBezout(b, a % b);
      x, y := v, u - (a / b) * v;
      calc {
        Bezout(a, b, x, y);
        a * v + b * (u - (a / b) * v);
        b * u + (a - b * (a / b)) * v;
        { assert a - b * (a / b) == a % b; }
        b * u + (a % b) * v;
      }
    }
  }

  lemma {:induction false} GcdDivides(a: nat, b: nat) returns (p: nat, q: nat)
    ensures a == Gcd(a, b) * p && b == Gcd(a, b) * q
    decreases b
  {
    if b == 0 {
      p, q := 1, 0;
    } else {
      var u, v := GcdDivides(b, a % b);
      p, q := (a / b) * u + v, u;
      Combined(Gcd(a, b), u, v, a / b, a, b, a % b);
    }
  }

  lemma Combined(g: int, u: int, v: int, k: int, a: int, b: int, r: int)
    requires b == g * u && r == g * v && a == b * k + r
    ensures a == g * (k * u + v)
  {
    assert (g * u) * k == g * (k * u);
  }

  lemma DivExact(g: int, p: int, a: int)
    requires g > 0 && a == g * p
    ensures a / g == p && a % g == 0
  {
    var q, r := a / g, a % g;
    assert a == g * q + r && 0 <= r < g;
    assert g * (p - q) == r;
    assert p - q >= 1 ==> g * (p - q) >= g;
    assert p - q <= -1 ==> g * (p - q) <= -g;
  }

  /** Dividing by the greatest common divisor leaves coprime numbers. */
  lemma GcdReduces(n: int, d: int)
    requires n != 0 || d > 0
    requires d >= 0
    ensures Gcd(Abs(n), d) > 0
    ensures var g := Gcd(Abs(n), d);
      n == g * (n / g) && d == g * (d / g) && n % g == 0 && d % g == 0 && Coprime(n / g, d / g)
  {
    var g := Gcd(Abs(n), d);
    var p, q := GcdDivides(Abs(n), d);
    var x, y := GcdBezout(Abs(n), d);
    var n': int, x': int := p, x;
    if n < 0 {
      n', x' := 0 - n', -x;
      NegFactor(g, p, n);
      assert p * x == n' * x';
    }
    ScaledBezout(g, p, q, x, y);
    DivExact(g, n', n);
    DivExact(g, q, d);
    assert Bezout(n', q, x', y) == 1;
  }

  lemma NegFactor(g: int, p: int, n: int)
    requires -n == g * p
    ensures n == g * (0 - p)
  {
  }

  lemma ScaledBezout(g: int, p: int, q: int, x: int, y: int)
    requires g > 0 && Bezout(g * p, g * q, x, y) == g
    ensures p * x + q * y == 1
  {
    assert (g * p) * x + (g * q) * y == g * (p * x + q * y);
    CancelOne(g, p * x + q * y);
  }

  lemma CancelOne(g: int, z: int)
    requires g > 0 && g * z == g
    ensures z == 1
  {
    assert z <= 0 ==> g * z <= 0;
    assert z >= 2 ==> g * z >= g * 2;
  }

  lemma GcdIsOne(a: nat, b: nat)
    requires Coprime(a, b)
    ensures Gcd(a, b) == 1
  {
    var x: int, y: int :| Bezout(a, b, x, y) == 1;
    var p, q := GcdDivides(a, b);
    var g := Gcd(a, b);
    assert g * (p * x + q * y) == 1 by {
      assert (g * p) * x + (g * q) * y == g * (p * x + q * y);
    }
    UnitFactor(g, p * x + q * y);
  }

  lemma UnitFactor(g: nat, z: int)
    requires g * z == 1
    ensures g == 1 && z == 1
  {
    assert z <= 0 ==> g * z <= 0;
    assert z >= 1 && g >= 2 ==> g * z >= 2 * z;
  }

  lemma CoprimeAbs(a: int, b: int)
    requires Coprime(a, b)
    ensures Coprime(Abs(a), b) && Coprime(-a, b) && Coprime(b, a)
  {
    var x: int, y: int :| Bezout(a, b, x, y) == 1;
    assert Bezout(-a, b, -x, y) == 1 by {
      assert (-a) * (-x) == a * x;
    }
    assert Bezout(b, a, y, x) == 1;
  }

  lemma CoprimeShift(a: int, b: int, k: int)
    requires Coprime(a, b)
    ensures Coprime(a + k * b, b)
  {
    var x: int, y: int :| Bezout(a, b, x, y) == 1;
    assert Bezout(a + k * b, b, x, y - k * x) == 1 by {
      assert (a + k * b) * x + b * (y - k * x) == a * x + b * y;
    }
  }

  lemma CoprimeFactor(a: int, k: int, b: int)
    requires Coprime(a * k, b)
    ensures Coprime(a, b)
  {
    var x: int, y: int :| Bezout(a * k, b, x, y) == 1;
    assert Bezout(a, b, k * x, y) == 1 by {
      assert (a * k) * x == a * (k * x);
    }
  }

  lemma CoprimeProduct(a: int, b: int, c: int)
    requires Coprime(a, c) && Coprime(b, c)
    ensures Coprime(a * b, c)
  {
    var x: int, y: int :| Bezout(a, c, x, y) == 1;
    var u: int, v: int :| Bezout(b, c, u, v) == 1;
    var w := a * x * v + b * u * y + c * y * v;
    calc {
      1;
      (a * x + c * y) * (b * u + c * v);
      (a * b) * (x * u) + c * w;
    }
    assert Bezout(a * b, c, x * u, w) == 1;
  }

  /** Gauss: a coprime factor can be dropped from a divisibility. */
  lemma CoprimeDivides(d: int, a: int, b: int)
    requires Coprime(a, d) && Divides(d, a * b)
    ensures Divides(d, b)
  {
    var x: int, y: int :| Bezout(a, d, x, y) == 1;
    var k: int :| Times(d, k) == a * b;
    calc {
      b;
      b * (a * x + d * y);
      (a * b) * x + d * (b * y);
      d * (k * x + b * y);
    }
    assert Times(d, k * x + b * y) == b;
  }

  // ----- lowest terms -----

  /** The fraction n/d in lowest terms. */
  function Canon(n: int, d: int): (q: Q)
    requires d > 0
  {
    var g := Gcd(Abs(n), d);
    Q(n / g, d / g)
  }

  ghost predicate SameFraction(q: Q, n: int, d: int) {
    q.num * d == n * q.den
  }

  lemma CanonLowest(n: int, d: int)
    requires d > 0
    ensures Lowest(Canon(n, d)) && SameFraction(Canon(n, d), n, d)
  {
    GcdReduces(n, d);
    var g := Gcd(Abs(n), d);
    var n', d' := n / g, d / g;
    assert d' <= 0 ==> g * d' <= 0;
    assert n' * (g * d') == (g * n') * d';
  }

  /** A fraction has only one form in lowest terms. */
  lemma LowestUnique(p: Q, q: Q)
    requires Lowest(p) && Lowest(q) && p.num * q.den == q.num * p.den
    ensures p == q
  {
    var k := LowestDivides(p, q);
    var l := LowestDivides(q, p);
    assert p.den == p.den * (k * l) by {
      assert (p.den * k) * l == p.den * (k * l);
    }
    CancelOne(p.den, k * l);
    assert k <= 0 ==> p.den * k <= 0;
    UnitFactor(k, l);
    assert p.num * p.den == q.num * p.den;
    CancelFactor(p.num, q.num, p.den);
  }

  lemma CancelFactor(a: int, b: int, d: int)
    requires d != 0 && a * d == b * d
    ensures a == b
  {
    assert a != b ==> (a - b) * d != 0;
  }

  lemma LowestDivides(p: Q, q: Q) returns (k: int)
    requires Lowest(p) && p.num * q.den == q.num * p.den
    ensures q.den == p.den * k
  {
    var x: int, y: int :| Bezout(p.num, p.den, x, y) == 1;
    k := q.num * x + q.den * y;
    calc {
      q.den;
      q.den * (p.num * x + p.den * y);
      (p.num * q.den) * x + p.den * (q.den * y);
      (q.num * p.den) * x + p.den * (q.den * y);
      p.den * k;
    }
  }

  /** What is in lowest terms and equal to n/d is the canonical form of n/d. */
  lemma IsCanon(q: Q, n: int, d: int)
    requires d > 0 && Lowest(q) && SameFraction(q, n, d)
    ensures q == Canon(n, d)
  {
    CanonLowest(n, d);
    var c := Canon(n, d);
    assert (q.num * c.den) * d == (c.num * q.den) * d by {
      calc {
        (q.num * c.den) * d;
        (q.num * d) * c.den;
        (n * q.den) * c.den;
        (n * c.den) * q.den;
        (c.num * d) * q.den;
        (c.num * q.den) * d;
      }
    }
    CancelFactor(q.num * c.den, c.num * q.den, d);
    LowestUnique(q, c);
  }

  // ----- arithmetic -----

  function Add(a: Q, b: Q): (r: Q)
    requires a.den > 0 && b.den > 0
  {
    assert a.den * b.den > 0;
    Canon(a.num * b.den + b.num * a.den, a.den * b.den)
  }

  function Neg(a: Q): (r: Q) {
    Q(-a.num, a.den)
  }

  function Sub(a: Q, b: Q): (r: Q)
    requires a.den > 0 && b.den > 0
  {
    assert a.den * b.den > 0;
    Canon(a.num * b.den - b.num * a.den, a.den * b.den)
  }

  function Mul(a: Q, b: Q): (r: Q)
    requires a.den > 0 && b.den > 0
  {
    assert a.den * b.den > 0;
    Canon(a.num * b.num, a.den * b.den)
  }

  function Inv(a: Q): (r: Q)
    requires a.num != 0
  {
    if a.num > 0 then Q(a.den, a.num) else Q(-a.den, -a.num)
  }

  function Div(a: Q, b: Q): (r: Q)
    requires a.den > 0 && b.den > 0 && b.num != 0
  {
    Mul(a, Inv(b))
  }

  function Cmp(a: Q, b: Q): (r: int) {
    var x, y := a.num * b.den, b.num * a.den;
    if x < y then -1 else if x > y then 1 else 0
  }

  // ----- the numbers these operations compute -----

  function ToReal(q: Q): (r: real)
    requires q.den != 0
  {
    q.num as real / q.den as real
  }

  lemma FractionReal(n: int, d: int, m: int, e: int)
    requires d != 0 && e != 0
    ensures ToReal(Q(n, d)) == ToReal(Q(m, e)) <==> n * e == m * d
  {
    var x, y := ToReal(Q(n, d)), ToReal(Q(m, e));
    assert x * d as real == n as real && y * e as real == m as real;
    assert (n * e) as real == n as real * e as real && (m * d) as real == m as real * d as real;
    assert (x - y) * (d as real * e as real) == (n * e - m * d) as real;
    assert x != y ==> (x - y) * (d as real * e as real) != 0.0;
  }

  /** Distinct fractions in lowest terms are distinct numbers. */
  lemma RealInjective(p: Q, q: Q)
    requires Lowest(p) && Lowest(q)
    ensures ToReal(p) == ToReal(q) <==> p == q
  {
    FractionReal(p.num, p.den, q.num, q.den);
    if ToReal(p) == ToReal(q) {
      LowestUnique(p, q);
    }
  }

  lemma CanonReal(n: int, d: int)
    requires d > 0
    ensures Lowest(Canon(n, d)) && ToReal(Canon(n, d)) == n as real / d as real
  {
    CanonLowest(n, d);
    FractionReal(Canon(n, d).num, Canon(n, d).den, n, d);
  }

  /** Sums, differences, products, quotients, opposites and inverses are those of the real numbers. */
  lemma AddExact(a: Q, b: Q)
    requires Lowest(a) && Lowest(b)
    ensures Lowest(Add(a, b)) && ToReal(Add(a, b)) == ToReal(a) + ToReal(b)
    ensures Lowest(Sub(a, b)) && ToReal(Sub(a, b)) == ToReal(a) - ToReal(b)
  {
    hide Canon, Coprime;
    var n, m, d := a.num * b.den, b.num * a.den, a.den * b.den;
    assert d > 0;
    CanonReal(n + m, d);
    CanonReal(n - m, d);
    CastProduct(a.num, b.den);
    CastProduct(b.num, a.den);
    CastProduct(a.den, b.den);
    RealSum(a.num as real, a.den as real, b.num as real, b.den as real);
    assert (n + m) as real == n as real + m as real && (n - m) as real == n as real - m as real;
  }

  lemma CastProduct(x: int, y: int)
    ensures (x * y) as real == x as real * y as real
  {
  }

  lemma RealSum(n: real, d: real, m: real, e: real)
    requires d != 0.0 && e != 0.0
    ensures d * e != 0.0
    ensures (n * e + m * d) / (d * e) == n / d + m / e
    ensures (n * e - m * d) / (d * e) == n / d - m / e
    ensures (n * m) / (d * e) == (n / d) * (m / e)
  {
    var x, y := n / d, m / e;
    assert n == x * d && m == y * e;
    assert n * e == x * (d * e) && m * d == y * (d * e);
    assert n * m == (x * y) * (d * e);
    QuotientIs(x * (d * e) + y * (d * e), d * e, x + y);
    QuotientIs(x * (d * e) - y * (d * e), d * e, x - y);
    QuotientIs((x * y) * (d * e), d * e, x * y);
  }

  lemma QuotientIs(n: real, d: real, x: real)
    requires d != 0.0 && n == x * d
    ensures n / d == x
  {
  }

  lemma MulExact(a: Q, b: Q)
    requires Lowest(a) && Lowest(b)
    ensures Lowest(Mul(a, b)) && ToReal(Mul(a, b)) == ToReal(a) * ToReal(b)
    ensures b.num != 0 ==> Lowest(Inv(b)) && ToReal(b) != 0.0 && ToReal(Inv(b)) == 1.0 / ToReal(b)
    ensures b.num != 0 ==> Lowest(Div(a, b)) && ToReal(Div(a, b)) == ToReal(a) / ToReal(b)
    ensures Lowest(Neg(a)) && ToReal(Neg(a)) == -ToReal(a)
  {
    MulReal(a, b);
    CoprimeAbs(a.num, a.den);
    QuotientIs((-a.num) as real, a.den as real, -ToReal(a));
    if b.num != 0 {
      InvReal(b);
      MulReal(a, Inv(b));
      QuotientIs(ToReal(a), ToReal(b), ToReal(a) * (1.0 / ToReal(b)));
    }
  }

  lemma MulReal(a: Q, b: Q)
    requires Lowest(a) && Lowest(b)
    ensures Lowest(Mul(a, b)) && ToReal(Mul(a, b)) == ToReal(a) * ToReal(b)
  {
    assert a.den * b.den > 0;
    CanonReal(a.num * b.num, a.den * b.den);
    RealSum(a.num as real, a.den as real, b.num as real, b.den as real);
  }

  lemma InvReal(b: Q)
    requires Lowest(b) && b.num != 0
    ensures Lowest(Inv(b)) && ToReal(b) != 0.0 && ToReal(Inv(b)) == 1.0 / ToReal(b)
  {
    CoprimeAbs(b.num, b.den);
    CoprimeAbs(-b.num, b.den);
    CoprimeAbs(b.den, -b.num);
    RealInverse(b.num as real, b.den as real);
    RealInverse(-b.num as real, b.den as real);
  }

  lemma RealInverse(n: real, d: real)
    requires d != 0.0 && n != 0.0
    ensures n / d != 0.0 && d / n == 1.0 / (n / d) && (-d) / (-n) == d / n
  {
    var x, y := n / d, d / n;
    assert n == x * d && d == y * n;
    assert d == y * (x * d) == (y * x) * d;
    assert (1.0 - y * x) * d == 0.0;
    assert y * x == 1.0;
    QuotientIs(1.0, x, y);
    QuotientIs(-d, -n, y);
  }

  lemma CmpExact(a: Q, b: Q)
    requires Lowest(a) && Lowest(b)
    ensures Cmp(a, b) == if ToReal(a) < ToReal(b) then -1 else if ToReal(a) > ToReal(b) then 1 else 0
  {
    var x, y := ToReal(a), ToReal(b);
    assert x * a.den as real == a.num as real && y * b.den as real == b.num as real;
    var d := a.den as real * b.den as real;
    assert d > 0.0;
    assert (a.num * b.den) as real == x * d && (b.num * a.den) as real == y * d;
    assert x < y ==> x * d < y * d;
    assert x > y ==> x * d > y * d;
  }
}
