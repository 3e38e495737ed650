/** The 32-bit fast paths of rational arithmetic, with 64-bit intermediates.

    Every method returns whether the fast path succeeded; when it did not, the caller falls back
    to exact arithmetic.  Conversions to machine types are written out. */
module WordArithmetic {
  import opened Rationals

  const WORD_MIN: int := -0x8000_0000
  const WORD_MAX: int := 0x7fff_ffff
  const UWORD_MAX: int := 0xffff_ffff
  const LWORD_MIN: int := -0x8000_0000_0000_0000
  const LWORD_MAX: int := 0x7fff_ffff_ffff_ffff

  predicate IsWord(x: int) {
    WORD_MIN <= x <= WORD_MAX
  }

  predicate IsLword(x: int) {
    LWORD_MIN <= x <= LWORD_MAX
  }

  function ToUword(x: int): (r: int) {
    x % 0x1_0000_0000
  }

  function ToWord(x: int): (r: int)
    ensures IsWord(x) ==> r == x
  {
    (x + 0x8000_0000) % 0x1_0000_0000 - 0x8000_0000
  }

  function ToUlword(x: int): (r: int)
    ensures 0 <= x <= 0xffff_ffff_ffff_ffff ==> r == x
  {
    x % 0x1_0000_0000_0000_0000
  }

  function ToLword(x: int): (r: int)
    ensures IsLword(r)
    ensures IsLword(x) ==> r == x
    ensures exists k :: x == r + 0x1_0000_0000_0000_0000 * k
  {
    var r := (x + 0x8000_0000_0000_0000) % 0x1_0000_0000_0000_0000 - 0x8000_0000_0000_0000;
    assert x == r + 0x1_0000_0000_0000_0000 * ((x + 0x8000_0000_0000_0000) / 0x1_0000_0000_0000_0000);
    r
  }

  /** Division that rounds towards zero. */
  function Quot(a: int, b: int): (q: int)
    requires b > 0
  {
    if a >= 0 then a / b else -((-a) / b)
  }

  lemma QuotExact(a: int, b: int)
    requires b > 0 && a % b == 0
    ensures Quot(a, b) == a / b
  {
    if a < 0 {
      var q := a / b;
      assert a == b * q;
      assert -a == b * (-q);
      DivExact(b, -q, -a);
    }
  }

  /** A numerator and a denominator that fit 32 bits, in lowest terms. */
  ghost predicate WordQ(q: Q) {
    IsWord(q.num) && q.den <= UWORD_MAX && Lowest(q)
  }

  /** Only half of the range is accepted: WORD_MIN/2 to WORD_MAX/2. */
  predicate CheckWord(x: int) {
    -0x4000_0000 <= x <= 0x3fff_ffff
  }

  /** The source aborts on values below 1. */
  predicate CheckUword(x: int)
    requires x >= 1
  {
    x <= UWORD_MAX
  }

  /** Euclid's algorithm on unsigned integers. */
  method GcdLoop(a0: nat, b0: nat) returns (g: nat)
    ensures g == Gcd(a0, b0)
  {
    var a, b := a0, b0;
    if a == 0 {
      assert b > 0 ==> 0 % b == 0;
      return b;
    }
    if b == 0 {
      return a;
    }
    if b > a {
      assert a % b == a;
      a, b := b, a;
    }
    while true
      invariant a > 0 && b > 0 && Gcd(a, b) == Gcd(a0, b0)
      decreases b
    {
      var r := a % b;
      if r == 0 {
        return b;
      }
      a, b := b, r;
    }
  }

  // ----- reduction by a greatest common divisor kept in a signed 64-bit variable -----

  /** n/d after dividing by the greatest common divisor, unless that has wrapped to a value below 2. */
  function Reduced(n: int, d: int): (q: Q)
    requires d > 0
  {
    var common := ToLword(Gcd(Abs(n), d));
    if common > 1 then Q(Quot(n, common), d / common) else Q(n, d)
  }

  predicate Fits(q: Q) {
    CheckWord(q.num) && q.den <= UWORD_MAX
  }

  lemma GcdAtMost(n: int, d: int)
    requires d > 0
    ensures 0 < Gcd(Abs(n), d) <= d
    ensures n != 0 ==> Gcd(Abs(n), d) <= Abs(n)
  {
    GcdReduces(n, d);
    var g := Gcd(Abs(n), d);
    FactorAtMost(g, d / g, d);
    if n > 0 {
      FactorAtMost(g, n / g, n);
    } else if n < 0 {
      FactorAtMost(g, -(n / g), -n);
    }
  }

  lemma FactorAtMost(g: int, k: int, x: int)
    requires g > 0 && x > 0 && x == g * k
    ensures g <= x && k >= 1
  {
    assert k <= 0 ==> g * k <= 0;
    assert k >= 1 ==> g * k >= g;
  }

  /** A wrapped divisor never gets through: what fits is the fraction in lowest terms. */
  lemma ReducedFits(n: int, d: int)
    requires 0 < d <= 0xffff_ffff_ffff_ffff && Fits(Reduced(n, d))
    ensures Reduced(n, d) == Canon(n, d)
  {
    hide Gcd, CheckWord, Quot;
    var g := Gcd(Abs(n), d);
    GcdAtMost(n, d);
    GcdReduces(n, d);
    QuotExact(n, g);
    assert g > LWORD_MAX ==> ToLword(g) < 0;
  }

  method Reduce(n: int, d: int) returns (ok: bool, r: Q)
    requires IsLword(n) && 0 < d <= 0xffff_ffff_ffff_ffff
    ensures ok == Fits(Reduced(n, d)) && (ok ==> r == Reduced(n, d) == Canon(n, d))
  {
    var g := GcdLoop(Abs(n), d);
    var common := ToLword(g);
    GcdAtMost(n, d);
    GcdReduces(n, d);
    var zn, zd := n, d;
    if common > 1 {
      zn, zd := Quot(n, common), d / common;
    }
    r := Q(zn, zd);
    assert zd >= 1 by { FactorAtMost(g, d / g, d); }
    ok := CheckWord(zn) && CheckUword(zd);
    if ok {
      ReducedFits(n, d);
    }
  }

  // ----- sums -----

  /** A product of a signed and an unsigned word, and such a product plus a word, fit 64 bits. */
  lemma ProductFits(n: int, d: int, m: int)
    requires IsWord(n) && 0 < d <= UWORD_MAX && IsWord(m)
    ensures IsLword(n * d) && IsLword(m + n * d) && IsLword(m - n * d) && IsLword(-m + n * d)
    ensures n != 0 ==> n * d != 0
  {
    ScaleMonotone(Abs(n), d, UWORD_MAX);
    assert Abs(n) * UWORD_MAX <= 0x8000_0000 * UWORD_MAX;
    assert n < 0 ==> n * d == -(Abs(n) * d);
    assert n > WORD_MIN && n < 0 ==> Abs(n) * UWORD_MAX <= WORD_MAX * UWORD_MAX;
    assert n >= 0 ==> Abs(n) * UWORD_MAX <= WORD_MAX * UWORD_MAX;
    ExactParts(n * d, d, n);
  }

  lemma ScaleMonotone(n: int, d: int, e: int)
    requires n >= 0 && d <= e
    ensures n * d <= n * e
  {
    assert n * (e - d) >= 0;
  }

  lemma DenominatorsFit(d: int, e: int)
    requires 0 < d <= UWORD_MAX && 0 < e <= UWORD_MAX
    ensures 0 < d * e <= 0xffff_ffff_ffff_ffff
  {
    ScaleMonotone(d, e, UWORD_MAX);
    assert d * UWORD_MAX <= UWORD_MAX * UWORD_MAX;
    assert d * e > 0;
  }

  lemma IntegerLowest(k: int)
    ensures Lowest(Q(k, 1))
  {
    assert Bezout(k, 1, 0, 1) == 1;
  }

  /** Adding a multiple of the denominator keeps lowest terms. */
  lemma AddInteger(a: Q, k: int)
    requires Lowest(a)
    ensures Lowest(Q(a.num + k * a.den, a.den))
    ensures Add(a, Q(k, 1)) == Add(Q(k, 1), a) == Q(a.num + k * a.den, a.den)
    ensures Sub(a, Q(-k, 1)) == Q(a.num + k * a.den, a.den)
  {
    CoprimeShift(a.num, a.den, k);
    var r := Q(a.num + k * a.den, a.den);
    IsCanon(r, a.num * 1 + k * a.den, a.den * 1);
    IsCanon(r, k * a.den + a.num * 1, 1 * a.den);
    IsCanon(r, a.num * 1 - (-k) * a.den, a.den * 1);
  }

  lemma ZeroLowest(b: Q)
    requires Lowest(b) && b.num == 0
    ensures b.den == 1
  {
    var x: int, y: int :| Bezout(b.num, b.den, x, y) == 1;
    UnitFactor(b.den, y);
  }

  lemma AddZero(a: Q, b: Q)
    requires Lowest(a) && Lowest(b) && b.num == 0
    ensures b.den == 1
    ensures Add(a, b) == a && Add(b, a) == a && Sub(a, b) == a && Sub(b, a) == Neg(a)
  {
    ZeroLowest(b);
    CoprimeAbs(a.num, a.den);
    IsCanon(a, a.num * 1 + 0 * a.den, a.den * 1);
    IsCanon(a, 0 * a.den + a.num * 1, 1 * a.den);
    IsCanon(a, a.num * 1 - 0 * a.den, a.den * 1);
    IsCanon(Neg(a), 0 * a.den - a.num * 1, 1 * a.den);
  }

  method AddWords(a: Q, b: Q) returns (ok: bool, r: Q)
    requires WordQ(a) && WordQ(b)
    ensures ok ==> WordQ(r) && r == Add(a, b)
  {
    hide Canon, Coprime, Reduced;
    if b.num == 0 {
      AddZero(a, b);
      return true, a;
    } else if a.num == 0 {
      AddZero(b, a);
      return true, b;
    } else if b.den == 1 {
      ProductFits(b.num, a.den, a.num);
      AddInteger(a, b.num);
      var tmp := ToLword(a.num + ToLword(b.num * a.den));
      return CheckWord(tmp), Q(tmp, a.den);
    } else if a.den == 1 {
      ProductFits(a.num, b.den, b.num);
      AddInteger(b, a.num);
      var tmp := ToLword(b.num + ToLword(a.num * b.den));
      return CheckWord(tmp), Q(tmp, b.den);
    }
    ok, r := AddFractions(a, b);
  }

  method AddFractions(a: Q, b: Q) returns (ok: bool, r: Q)
    requires WordQ(a) && WordQ(b)
    ensures ok ==> WordQ(r) && r == Add(a, b)
  {
    hide Canon, Coprime, Reduced;
    ProductFits(a.num, b.den, 0);
    ProductFits(b.num, a.den, 0);
    DenominatorsFit(a.den, b.den);
    var c1, c2 := ToLword(a.num * b.den), ToLword(b.num * a.den);
    if c1 > LWORD_MAX / 2 || c2 > LWORD_MAX / 2 || c1 < LWORD_MIN / 2 || c2 < LWORD_MIN / 2 {
      return false, a;
    }
    var n := ToLword(c1 + c2);
    var d := ToUlword(a.den * b.den);
    CanonLowest(n, d);
    ok, r := Reduce(n, d);
  }

  // ----- differences -----

  /** The difference of the cross products does not fit 64 bits. */
  predicate SubWraps(a: Q, b: Q) {
    a.num != 0 && b.num != 0 && a.den != 1 && b.den != 1 && !IsLword(a.num * b.den - b.num * a.den)
  }

  /** The wrapped difference, reduced, looks like a small result. */
  predicate SubBreaks(a: Q, b: Q)
    requires a.den > 0 && b.den > 0
  {
    assert a.den * b.den > 0;
    SubWraps(a, b) && Fits(Reduced(ToLword(a.num * b.den - b.num * a.den), a.den * b.den))
  }

  /** What the word path computes when it breaks. */
  function BrokenDifference(a: Q, b: Q): Q
    requires a.den > 0 && b.den > 0
  {
    assert a.den * b.den > 0;
    Reduced(ToLword(a.num * b.den - b.num * a.den), a.den * b.den)
  }

  method SubWords(a: Q, b: Q) returns (ok: bool, r: Q)
    requires WordQ(a) && WordQ(b)
    ensures ok ==> WordQ(r) && (r == Sub(a, b) <==> !SubBreaks(a, b))
    ensures SubBreaks(a, b) ==> ok && r == BrokenDifference(a, b)
  {
    hide Canon, Coprime, Reduced, Sub, Gcd, Fits;
    if b.num == 0 {
      AddZero(a, b);
      return true, a;
    } else if a.num == 0 {
      AddZero(b, a);
      CoprimeAbs(b.num, b.den);
      if b.num == WORD_MIN {
        return false, a;
      }
      return true, Q(-b.num, b.den);
    } else if b.den == 1 || a.den == 1 {
      ok, r := SubInteger(a, b);
      return;
    }
    ok, r := SubFractions(a, b);
  }

  /** One operand is an integer. */
  method SubInteger(a: Q, b: Q) returns (ok: bool, r: Q)
    requires WordQ(a) && WordQ(b) && (b.den == 1 || a.den == 1)
    ensures ok ==> WordQ(r) && r == Sub(a, b)
  {
    hide Coprime, Sub;
    if b.den == 1 {
      ProductFits(b.num, a.den, a.num);
      AddInteger(a, -b.num);
      assert (-b.num) * a.den == -(b.num * a.den);
      var tmp := ToLword(a.num - ToLword(b.num * a.den));
      return CheckWord(tmp), Q(tmp, a.den);
    } else {
      ProductFits(a.num, b.den, b.num);
      SubFromInteger(a.num, b);
      var tmp := ToLword(-b.num + ToLword(a.num * b.den));
      return CheckWord(tmp), Q(tmp, b.den);
    }
  }

  lemma SubFromInteger(k: int, b: Q)
    requires Lowest(b)
    ensures Lowest(Q(-b.num + k * b.den, b.den)) && Sub(Q(k, 1), b) == Q(-b.num + k * b.den, b.den)
  {
    CoprimeAbs(b.num, b.den);
    CoprimeShift(-b.num, b.den, k);
    IsCanon(Q(-b.num + k * b.den, b.den), k * b.den - b.num * 1, 1 * b.den);
  }

  method SubFractions(a: Q, b: Q) returns (ok: bool, r: Q)
    requires WordQ(a) && WordQ(b) && a.num != 0 && b.num != 0 && a.den != 1 && b.den != 1
    ensures ok ==> WordQ(r) && (r == Sub(a, b) <==> !SubBreaks(a, b))
    ensures SubBreaks(a, b) ==> ok && r == BrokenDifference(a, b)
  {
    hide Canon, Coprime, Reduced;
    ProductFits(a.num, b.den, 0);
    ProductFits(b.num, a.den, 0);
    DenominatorsFit(a.den, b.den);
    var n := ToLword(ToLword(a.num * b.den) - ToLword(b.num * a.den));
    var d := ToUlword(a.den * b.den);
    CanonLowest(n, d);
    CanonLowest(a.num * b.den - b.num * a.den, d);
    ok, r := Reduce(n, d);
    if ok && SubWraps(a, b) {
      CanonDiffers(n, a.num * b.den - b.num * a.den, d);
    }
  }

  lemma CanonDiffers(n: int, m: int, d: int)
    requires d > 0 && n != m
    ensures Canon(n, d) != Canon(m, d)
  {
    CanonLowest(n, d);
    CanonLowest(m, d);
    if Canon(n, d) == Canon(m, d) {
      CancelFactor(n, m, Canon(n, d).den);
    }
  }

  /** A difference of 1 that comes out as -7/9. */
  lemma SubCounterexample(a: Q, b: Q)
    requires a == Q(2147483647, 3221225472) && b == Q(-1073741825, 3221225472)
    ensures WordQ(a) && WordQ(b) && SubBreaks(a, b) && Sub(a, b) == Q(1, 1) && BrokenDifference(a, b) == Q(-7, 9)
  {
    hide Gcd, Canon;
    assert WordQ(a) && WordQ(b) by {
      assert Bezout(a.num, a.den, -1073741825, 715827883) == 1;
      assert Bezout(b.num, b.den, -1073741825, -357913942) == 1;
    }
    var d := a.den * b.den;
    assert d == 10376293541461622784 == a.num * b.den - b.num * a.den;
    IntegerLowest(1);
    IsCanon(Q(1, 1), d, d);
    WrappedReduced(d);
  }

  lemma WrappedReduced(d: int)
    requires d == 10376293541461622784
    ensures !IsLword(d) && Reduced(ToLword(d), d) == Q(-7, 9) && Fits(Q(-7, 9))
  {
    hide Gcd;
    WrappedGcd();
    assert ToLword(d) == -8070450532247928832;
    assert Abs(-8070450532247928832) == 8070450532247928832;
    assert Quot(-8070450532247928832, 1152921504606846976) == -7;
  }

  lemma WrappedGcd()
    ensures Gcd(8070450532247928832, 10376293541461622784) == 1152921504606846976
  {
    assert Gcd(8070450532247928832, 10376293541461622784) == Gcd(10376293541461622784, 8070450532247928832);
    assert Gcd(10376293541461622784, 8070450532247928832) == Gcd(8070450532247928832, 2305843009213693952);
    assert Gcd(8070450532247928832, 2305843009213693952) == Gcd(2305843009213693952, 1152921504606846976);
    assert Gcd(2305843009213693952, 1152921504606846976) == Gcd(1152921504606846976, 0);
  }

  /** Numerators in half the range of a word are safe to subtract. */
  lemma HalfRangeNeverBreaks(a: Q, b: Q)
    requires WordQ(a) && WordQ(b) && CheckWord(a.num) && CheckWord(b.num)
    ensures !SubBreaks(a, b)
  {
    hide Coprime, Gcd;
    HalfProduct(a.num, b.den);
    HalfProduct(b.num, a.den);
  }

  lemma HalfProduct(n: int, d: int)
    requires CheckWord(n) && 0 < d <= UWORD_MAX
    ensures -0x4000_0000 * 0xffff_ffff <= n * d <= 0x3fff_ffff * 0xffff_ffff
  {
    if n >= 0 {
      ScaleMonotone(n, d, UWORD_MAX);
      ScaleMonotone(UWORD_MAX, n, 0x3fff_ffff);
    } else {
      var m: int := -n;
      ScaleMonotone(m, d, UWORD_MAX);
      ScaleMonotone(UWORD_MAX, m, 0x4000_0000);
      assert n * d == -(m * d);
    }
  }

  // ----- products -----

  /** Reducing crosswise before multiplying gives the product in lowest terms. */
  lemma CrossReduced(a: Q, b: Q)
    requires Lowest(a) && Lowest(b)
    ensures var g, h := Gcd(Abs(a.num), b.den), Gcd(a.den, Abs(b.num));
      && g > 0 && h > 0 && a.num % g == 0 && b.den % g == 0 && a.den % h == 0 && b.num % h == 0
      && b.den / g > 0 && a.den / h > 0
      && Lowest(Q((a.num / g) * (b.num / h), (a.den / h) * (b.den / g)))
      && Mul(a, b) == Q((a.num / g) * (b.num / h), (a.den / h) * (b.den / g))
  {
    hide Gcd, Canon, Coprime;
    var g, h := Gcd(Abs(a.num), b.den), Gcd(a.den, Abs(b.num));
    GcdReduces(a.num, b.den);
    GcdSymmetric(a.den, Abs(b.num));
    GcdReduces(b.num, a.den);
    var n1, n2, d1, d2 := a.num / g, b.num / h, a.den / h, b.den / g;
    FactorAtMost(g, d2, b.den);
    FactorAtMost(h, d1, a.den);
    CrossCoprime(a, b, g, h, n1, n2, d1, d2);
    assert d1 * d2 > 0;
    assert SameFraction(Q(n1 * n2, d1 * d2), a.num * b.num, a.den * b.den) by {
      CrossEqual(g, h, n1, n2, d1, d2);
    }
    assert a.den * b.den > 0;
    IsCanon(Q(n1 * n2, d1 * d2), a.num * b.num, a.den * b.den);
  }

  lemma CrossEqual(g: int, h: int, n1: int, n2: int, d1: int, d2: int)
    ensures (n1 * n2) * ((h * d1) * (g * d2)) == ((g * n1) * (h * n2)) * (d1 * d2)
  {
    var p, q := n1 * n2, d1 * d2;
    assert (h * d1) * (g * d2) == (h * g) * q;
    assert (g * n1) * (h * n2) == (h * g) * p;
  }

  lemma CrossCoprime(a: Q, b: Q, g: int, h: int, n1: int, n2: int, d1: int, d2: int)
    requires Lowest(a) && Lowest(b) && Coprime(n1, d2) && Coprime(n2, d1)
    requires a.num == g * n1 && b.den == g * d2 && b.num == h * n2 && a.den == h * d1
    ensures Coprime(n1 * n2, d1 * d2)
  {
    hide Coprime;
    CoprimeParts(a, n1, g, d1, h);
    CoprimeParts(b, n2, h, d2, g);
    CoprimeProduct(n1, n2, d1);
    CoprimeProduct(n1, n2, d2);
    CoprimeAbs(n1 * n2, d1);
    CoprimeAbs(n1 * n2, d2);
    CoprimeProduct(d1, d2, n1 * n2);
    CoprimeAbs(d1 * d2, n1 * n2);
  }

  lemma CoprimeParts(a: Q, n: int, g: int, d: int, h: int)
    requires Coprime(a.num, a.den) && a.num == g * n && a.den == h * d
    ensures Coprime(n, d)
  {
    hide Coprime;
    CoprimeFactor(n, g, a.den);
    CoprimeAbs(n, a.den);
    CoprimeFactor(d, h, n);
    CoprimeAbs(d, n);
  }

  lemma GcdSymmetric(a: nat, b: nat)
    ensures Gcd(a, b) == Gcd(b, a)
  {
    if a < b {
      SmallMod(a, b);
    } else if b < a {
      SmallMod(b, a);
    }
  }

  lemma SmallMod(a: nat, b: nat)
    requires a < b
    ensures a % b == a
  {
  }

  /** The crosswise reduction of two words stays within 64 bits. */
  lemma CrossFits(a: Q, b: Q)
    requires WordQ(a) && WordQ(b)
    ensures var g, h := Gcd(Abs(a.num), b.den), Gcd(a.den, Abs(b.num));
      && 0 < g <= UWORD_MAX && 0 < h <= UWORD_MAX
      && IsWord(a.num / g) && IsWord(b.num / h) && IsLword((a.num / g) * (b.num / h))
      && 0 < a.den / h <= UWORD_MAX && 0 < b.den / g <= UWORD_MAX && 0 < (a.den / h) * (b.den / g) <= 0xffff_ffff_ffff_ffff
  {
    hide Gcd, Mul, Coprime;
    CrossReduced(a, b);
    var g, h := Gcd(Abs(a.num), b.den), Gcd(a.den, Abs(b.num));
    QuotientFits(a.num, g);
    QuotientFits(b.num, h);
    QuotientFits(a.den, h);
    QuotientFits(b.den, g);
    GcdAtMost(a.num, b.den);
    GcdSymmetric(a.den, Abs(b.num));
    GcdAtMost(b.num, a.den);
    WordProduct(a.num / g, b.num / h);
    DenominatorsFit(a.den / h, b.den / g);
  }

  lemma QuotientFits(x: int, g: int)
    requires g > 0 && x % g == 0
    ensures x >= 0 ==> 0 <= x / g <= x
    ensures x <= 0 ==> x <= x / g <= 0
  {
    ExactParts(x, g, x / g);
  }

  lemma ExactParts(x: int, g: int, q: int)
    requires g > 0 && x == g * q
    ensures x >= 0 ==> 0 <= q <= x
    ensures x <= 0 ==> x <= q <= 0
    ensures x != 0 ==> q != 0
  {
    assert q >= 1 ==> g * q >= q;
    assert q <= -1 ==> g * q <= q;
  }

  lemma WordProduct(x: int, y: int)
    requires IsWord(x) && IsWord(y)
    ensures IsLword(x * y)
  {
    ScaleMonotone(Abs(x), Abs(y), 0x8000_0000);
    assert x >= 0 && y < 0 ==> x * y == -(Abs(x) * Abs(y));
    assert x < 0 && y >= 0 ==> x * y == -(Abs(x) * Abs(y));
    assert x < 0 && y < 0 ==> x * y == Abs(x) * Abs(y);
  }

  /** A divisor that wraps as a signed word leaves a numerator that no product can bring back in range. */
  lemma WrappedDivisor(n: int, g: int, k: int)
    requires IsWord(n) && 0 < g <= UWORD_MAX && (n != 0 ==> g <= Abs(n)) && n != 0 && k != 0
    ensures ToWord(g) != g ==> ToWord(g) <= 1 && !CheckWord(n * k)
  {
    if g > WORD_MAX {
      assert n == WORD_MIN && g == 0x8000_0000;
      assert k >= 1 ==> n * k <= n;
      assert k <= -1 ==> n * k >= -n;
    }
  }

  /** One of the two crosswise divisions of multiplication. */
  method CrossDivide(n: int, d: int) returns (n': int, d': int, ghost g: int)
    requires IsWord(n) && n != 0 && 0 < d <= UWORD_MAX
    ensures g == Gcd(Abs(n), d) && 0 < g <= UWORD_MAX && g <= Abs(n) && IsWord(n') && n' != 0 && 0 < d' <= UWORD_MAX
    ensures if ToWord(g) == g then n' == n / g && d' == d / g else n' == n
  {
    hide Gcd;
    var common := GcdLoop(Abs(n), d);
    g := common;
    GcdReduces(n, d);
    GcdAtMost(n, d);
    QuotientFits(n, g);
    QuotientFits(d, g);
    ExactParts(n, g, n / g);
    ExactParts(d, g, d / g);
    WrappedDivisor(n, g, 1);
    QuotExact(n, g);
    n', d' := n, d;
    if ToWord(common) > 1 {
      n', d' := Quot(n, ToWord(common)), d / ToWord(common);
    }
  }

  method MulWords(a: Q, b: Q) returns (ok: bool, r: Q)
    requires WordQ(a) && WordQ(b) && a.num != 0 && b.num != 0
    ensures ok ==> WordQ(r) && r == Mul(a, b)
    ensures a.num > WORD_MIN && b.num > WORD_MIN && CheckWord(Mul(a, b).num) && Mul(a, b).den <= UWORD_MAX ==> ok
  {
    hide Gcd, Coprime, Mul;
    CrossReduced(a, b);
    GcdSymmetric(a.den, Abs(b.num));
    ghost var g, h;
    var k1, k2, k3, k4;
    k1, k4, g := CrossDivide(a.num, b.den);
    k2, k3, h := CrossDivide(b.num, a.den);
    WrappedDivisor(a.num, g, k2);
    WrappedDivisor(b.num, h, k1);
    WordProduct(k1, k2);
    DenominatorsFit(k3, k4);
    var zn, zd := ToLword(k1 * k2), ToUlword(k3 * k4);
    ok, r := CheckWord(zn) && CheckUword(zd), Q(zn, zd);
  }

  /** The compound form divides both numerators at once. */
  method MulAssignWords(a: Q, b: Q) returns (ok: bool, r: Q)
    requires WordQ(a) && WordQ(b)
    ensures ok ==> WordQ(r) && r == Mul(a, b)
  {
    hide Gcd, Coprime, Mul;
    CrossReduced(a, b);
    CrossFits(a, b);
    var common1 := GcdLoop(Abs(a.num), b.den);
    var common2 := GcdLoop(a.den, Abs(b.num));
    QuotExact(a.num, common1);
    QuotExact(b.num, common2);
    var zn := ToLword(Quot(a.num, common1) * Quot(b.num, common2));
    var zd := ToUlword((a.den / common2) * (b.den / common1));
    ok, r := CheckWord(zn) && CheckUword(zd), Q(zn, zd);
  }

  // ----- quotients -----

  /** The parts of the crosswise reduction of a quotient and their ranges. */
  lemma QuotientParts(a: Q, b: Q)
    requires WordQ(a) && WordQ(b) && b.num != 0
    ensures var g, h := Gcd(Abs(a.num), Abs(b.num)), Gcd(a.den, b.den);
      && 0 < g <= UWORD_MAX && 0 < h <= UWORD_MAX && a.num % g == 0 && IsWord(a.num / g)
      && 0 < b.den / h <= UWORD_MAX && 0 < Abs(b.num) / g <= UWORD_MAX && 0 < a.den / h <= UWORD_MAX
  {
    hide Gcd, Coprime;
    var g, h := Gcd(Abs(a.num), Abs(b.num)), Gcd(a.den, b.den);
    var m: int := Abs(b.num);
    GcdReduces(a.num, m);
    GcdReduces(a.den, b.den);
    GcdAtMost(a.num, m);
    GcdAtMost(a.den, b.den);
    QuotientFits(a.num, g);
    ExactParts(m, g, m / g);
    ExactParts(a.den, h, a.den / h);
    ExactParts(b.den, h, b.den / h);
  }

  /** The crosswise reduction of a quotient, with the sign of the divisor moved to the numerator. */
  lemma QuotientReduced(a: Q, b: Q)
    requires WordQ(a) && WordQ(b) && b.num != 0
    ensures var g, h := Gcd(Abs(a.num), Abs(b.num)), Gcd(a.den, b.den);
      && 0 < g <= UWORD_MAX && 0 < h <= UWORD_MAX && a.num % g == 0 && IsWord(a.num / g)
      && 0 < b.den / h <= UWORD_MAX && 0 < Abs(b.num) / g <= UWORD_MAX && 0 < a.den / h <= UWORD_MAX
      && IsLword((a.num / g) * (b.den / h)) && 0 < (Abs(b.num) / g) * (a.den / h) <= 0xffff_ffff_ffff_ffff
      && IsQuotient(a, b, (a.num / g) * (b.den / h), (Abs(b.num) / g) * (a.den / h))
  {
    hide Gcd, Coprime, Mul, Canon;
    QuotientParts(a, b);
    var g, h := Gcd(Abs(a.num), Abs(b.num)), Gcd(a.den, b.den);
    var p, s, t, u := a.num / g, b.den / h, Abs(b.num) / g, a.den / h;
    ProductFits(p, s, 0);
    DenominatorsFit(t, u);
    QuotientForm(a, b, g, h, p, s, t, u);
  }

  lemma QuotientForm(a: Q, b: Q, g: int, h: int, p: int, s: int, t: int, u: int)
    requires Lowest(a) && Lowest(b) && b.num != 0 && g == Gcd(Abs(a.num), Abs(b.num)) > 0 && h == Gcd(a.den, b.den) > 0
    requires p == a.num / g && s == b.den / h && t == Abs(b.num) / g && u == a.den / h
    ensures IsQuotient(a, b, p * s, t * u)
  {
    hide Gcd, Coprime, Mul, Canon;
    InvReal(b);
    var i := Inv(b);
    CrossReduced(a, i);
    assert i.den == Abs(b.num) && Abs(i.num) == b.den;
    NegQuotient(b.den, h, i.num);
    assert p * (-s) == -(p * s) && u * t == t * u;
  }

  /** The quotient of a and b, given its unsigned parts. */
  ghost predicate IsQuotient(a: Q, b: Q, n: int, d: int)
    requires a.den > 0 && b.den > 0 && b.num != 0
  {
    var r := Q(if b.num < 0 then -n else n, d);
    Lowest(r) && r == Div(a, b)
  }

  lemma NegQuotient(x: int, h: int, y: int)
    requires h > 0 && x > 0 && (y == x || y == -x) && y % h == 0
    ensures x % h == 0 && x / h > 0 && y / h == if y == x then x / h else -(x / h)
  {
    var q := y / h;
    assert y == h * q;
    if y == -x {
      assert x == h * (-q);
      DivExact(h, -q, x);
    }
    FactorAtMost(h, x / h, x);
  }

  method DivWords(a: Q, b: Q) returns (ok: bool, r: Q)
    requires WordQ(a) && WordQ(b) && b.num != 0
    ensures ok ==> WordQ(r) && r == Div(a, b)
  {
    hide Gcd, Coprime, Div;
    QuotientReduced(a, b);
    var common1 := GcdLoop(Abs(a.num), Abs(b.num));
    var common2 := GcdLoop(a.den, b.den);
    QuotExact(a.num, common1);
    var zn := ToLword(Quot(a.num, common1) * (b.den / common2));
    var zd := ToUlword((Abs(b.num) / common1) * (a.den / common2));
    ok := CheckWord(zn) && CheckUword(zd);
    SignOfProduct(a.num, common1, b.den / common2);
    r := Q(SetSign(zn, a.num, b.num), zd);
  }

  /** The sign of a quotient from the signs of its operands. */
  function SetSign(zn: int, n: int, m: int): (r: int)
    requires m != 0 && (n >= 0 ==> zn >= 0) && (n <= 0 ==> zn <= 0)
    ensures r == if m < 0 then -zn else zn
  {
    var y: int := Abs(zn);
    var x: int := if (m < 0 && n >= 0) || (m > 0 && n <= 0) then -y else zn;
    if (m > 0 && n >= 0) || (m < 0 && n <= 0) then Abs(x) else x
  }

  lemma SignOfProduct(n: int, g: int, d: int)
    requires g > 0 && d > 0 && n % g == 0
    ensures n >= 0 ==> (n / g) * d >= 0
    ensures n <= 0 ==> (n / g) * d <= 0
  {
    QuotientFits(n, g);
  }

  method DivAssignWords(a: Q, b: Q) returns (ok: bool, r: Q)
    requires WordQ(a) && WordQ(b) && b.num != 0
    ensures ok ==> WordQ(r) && r == Div(a, b)
  {
    hide Gcd, Coprime, Div;
    QuotientReduced(a, b);
    var common1 := GcdLoop(Abs(a.num), Abs(b.num));
    var common2 := GcdLoop(a.den, b.den);
    QuotExact(a.num, common1);
    assert (-(a.num / common1)) * (b.den / common2) == -((a.num / common1) * (b.den / common2));
    var zn;
    if b.num < 0 {
      zn := ToLword(-Quot(a.num, common1) * (b.den / common2));
    } else {
      zn := ToLword(Quot(a.num, common1) * (b.den / common2));
    }
    var zd := ToUlword((Abs(b.num) / common1) * (a.den / common2));
    ok, r := CheckWord(zn) && CheckUword(zd), Q(zn, zd);
  }

  method InverseWords(a: Q) returns (ok: bool, r: Q)
    requires WordQ(a) && a.num != 0
    ensures ok ==> WordQ(r) && r == Inv(a)
  {
    InvReal(a);
    if a.num > 0 {
      ok, r := CheckWord(a.den) && CheckUword(a.num), Q(a.den, a.num);
    } else {
      ok, r := CheckWord(-a.den) && CheckUword(-a.num), Q(-a.den, -a.num);
    }
  }

  // ----- compound sums and differences -----

  method AddAssignWords(a: Q, b: Q) returns (ok: bool, r: Q)
    requires WordQ(a) && WordQ(b)
    ensures ok ==> WordQ(r) && r == Add(a, b)
  {
    hide Canon, Coprime, Reduced;
    if b.den == 1 {
      ProductFits(b.num, a.den, a.num);
      AddInteger(a, b.num);
      var tmp := ToLword(a.num + ToLword(b.num * a.den));
      return CheckWord(tmp), Q(tmp, a.den);
    } else if a.num == 0 {
      AddZero(b, a);
      return true, b;
    }
    ok, r := AddFractions(a, b);
  }

  /** The fractions are brought to the least common denominator first, so the difference is small,
      and the divisor fits 32 bits: a zero difference leaves equal denominators. */
  method SubAssignWords(a: Q, b: Q) returns (ok: bool, r: Q)
    requires WordQ(a) && WordQ(b)
    ensures ok ==> WordQ(r) && r == Sub(a, b)
  {
    hide Gcd, Coprime, Canon, Sub;
    var common := GcdLoop(a.den, b.den);
    CommonDenominator(a, b);
    var p, q := b.den / common, a.den / common;
    ProductFits(a.num, p, 0);
    ProductFits(b.num, q, 0);
    DenominatorsFit(a.den, p);
    var n1, n2 := ToLword(a.num * p), ToLword(b.num * q);
    if !CheckWord(n1) || !CheckWord(n2) {
      return false, a;
    }
    var n, d := ToLword(n1 - n2), ToUlword(a.den * p);
    var g := GcdLoop(Abs(n), d);
    GcdAtMost(n, d);
    GcdReduces(n, d);
    assert ToUword(g) == g;
    QuotExact(n, g);
    FactorAtMost(g, d / g, d);
    CanonLowest(n, d);
    assert Canon(n, d) == Q(n / g, d / g) by { CanonParts(n, d); }
    ok, r := CheckWord(Quot(n, ToUword(g))) && CheckUword(d / ToUword(g)), Q(Quot(n, ToUword(g)), d / ToUword(g));
  }

  lemma CanonParts(n: int, d: int)
    requires d > 0
    ensures Gcd(Abs(n), d) > 0 && Canon(n, d) == Q(n / Gcd(Abs(n), d), d / Gcd(Abs(n), d))
  {
  }

  lemma CommonDenominator(a: Q, b: Q)
    requires WordQ(a) && WordQ(b)
    ensures var c := Gcd(a.den, b.den);
      && c > 0 && 0 < b.den / c <= UWORD_MAX && 0 < a.den / c <= UWORD_MAX && a.den * (b.den / c) > 0
      && Sub(a, b) == Canon(a.num * (b.den / c) - b.num * (a.den / c), a.den * (b.den / c))
      && (a.num * (b.den / c) == b.num * (a.den / c) ==> a == b && b.den / c == 1)
  {
    hide Gcd, Coprime, Canon;
    var c := Gcd(a.den, b.den);
    GcdReduces(a.den, b.den);
    var p, q := b.den / c, a.den / c;
    FactorAtMost(c, p, b.den);
    FactorAtMost(c, q, a.den);
    CommonEqual(a, b, c, p, q);
    if a.num * p == b.num * q {
      LowestUnique(a, b);
      SelfGcd(a.den);
    }
  }

  lemma CommonEqual(a: Q, b: Q, c: int, p: int, q: int)
    requires a.den > 0 && b.den > 0 && c > 0 && p > 0 && q > 0 && b.den == c * p && a.den == c * q
    ensures a.den * p > 0 && Sub(a, b) == Canon(a.num * p - b.num * q, a.den * p)
    ensures a.num * p == b.num * q ==> a.num * b.den == b.num * a.den
  {
    hide Canon;
    var n := a.num * p - b.num * q;
    assert a.den * p > 0;
    Distribute(c, a.num, p, b.num, q);
    Distribute(c, a.den, p, 0, 0);
    ScaledFraction(n, a.den * p, c);
  }

  lemma Distribute(c: int, n: int, p: int, m: int, q: int)
    ensures c * (n * p - m * q) == n * (c * p) - m * (c * q)
  {
  }

  lemma SelfGcd(d: nat)
    requires d > 0
    ensures Gcd(d, d) == d && d / d == 1
  {
  }

  lemma ScaledFraction(n: int, d: int, c: int)
    requires d > 0 && c > 0
    ensures c * d > 0 && Canon(c * n, c * d) == Canon(n, d)
  {
    hide Gcd, Coprime, Canon;
    CanonLowest(n, d);
    var q := Canon(n, d);
    assert c * d > 0;
    assert q.num * (c * d) == (c * n) * q.den by {
      assert q.num * (c * d) == c * (q.num * d) && (c * n) * q.den == c * (n * q.den);
    }
    IsCanon(q, c * n, c * d);
  }

  // ----- comparison and rounding -----

  function CompareLwords(a: int, b: int): (r: int) {
    if a < b then -1 else if a > b then 1 else 0
  }

  method CompareWords(a: Q, b: Q) returns (r: int)
    requires WordQ(a) && WordQ(b)
    ensures r == Cmp(a, b)
  {
    hide Coprime, ToLword;
    if b.den == a.den {
      SameDenominator(a.num, b.num, a.den);
      return CompareLwords(a.num, b.num);
    }
    ProductFits(a.num, b.den, 0);
    ProductFits(b.num, a.den, 0);
    return CompareLwords(ToLword(a.num * b.den), ToLword(b.num * a.den));
  }

  lemma SameDenominator(n: int, m: int, d: int)
    requires d > 0
    ensures n < m <==> n * d < m * d
  {
    if n < m {
      ScaleMonotone(d, n, m - 1);
      assert d * (m - 1) == d * m - d;
    } else {
      ScaleMonotone(d, m, n);
    }
  }

  /** The least integer that is not below n/d. */
  ghost predicate IsCeil(k: int, n: int, d: int) {
    (k - 1) * d < n <= k * d
  }

  /** The greatest integer that is not above n/d, for a divisor of either sign. */
  ghost predicate IsFloor(k: int, n: int, d: int) {
    if d > 0 then k * d <= n < (k + 1) * d else k * d >= n > (k + 1) * d
  }

  method CeilWord(q: Q) returns (k: int)
    requires WordQ(q) && q.den != 1
    ensures IsWord(k) && IsCeil(k, q.num, q.den)
  {
    var n, d := Abs(q.num), q.den;
    k := n / d;
    assert n == d * k + n % d;
    assert n % d != 0 by { NotAnInteger(q); }
    QuotientSmall(n, d);
    if q.num < 0 {
      k := -k;
    } else {
      k := k + 1;
    }
  }

  lemma QuotientSmall(n: nat, d: nat)
    requires d >= 2 && n <= 0x8000_0000
    ensures n / d <= 0x4000_0000
  {
    var k := n / d;
    assert n == d * k + n % d;
    assert d * k >= 2 * k;
  }

  lemma NotAnInteger(q: Q)
    requires Lowest(q) && q.den != 1
    ensures Abs(q.num) % q.den != 0
  {
    var n, d := Abs(q.num), q.den;
    if n % d == 0 {
      var x: int, y: int :| Bezout(q.num, d, x, y) == 1;
      var k := if q.num < 0 then -(n / d) else n / d;
      assert n == d * (n / d);
      assert q.num == d * k;
      assert d * (k * x + y) == 1 by {
        assert (d * k) * x == d * (k * x);
      }
      UnitFactor(d, k * x + y);
    }
  }

  /** The quotient of two integers rounded down. */
  method FloorQuotientWords(num: int, den: int) returns (ok: bool, quo: int)
    requires IsWord(num) && IsWord(den) && den != 0
    ensures ok ==> IsWord(quo) && IsFloor(quo, num, den)
    ensures ok <==> num != WORD_MIN
  {
    if num == WORD_MIN {
      return false, 0;
    }
    ok := true;
    var n: int, d: int := Abs(num), Abs(den);
    var t, r := n / d, n % d;
    assert n == d * t + r;
    TruncatedSmall(n, d, t, r);
    quo := if (num < 0) == (den < 0) then t else -t;   // the truncated quotient
    if r != 0 && ((num < 0 && den >= 0) || (den < 0 && num >= 0)) {
      quo := quo - 1;
    }
    FloorFromTruncated(num, den, t, r);
  }

  lemma TruncatedSmall(n: int, d: int, t: int, r: int)
    requires n >= 0 && d > 0 && n == d * t + r && 0 <= r < d
    ensures 0 <= t <= n && (r != 0 ==> t < n || n == 0 || t == 0)
  {
    assert t <= -1 ==> d * t <= -d;
    assert t >= 1 ==> d * t >= t;
  }

  lemma FloorFromTruncated(num: int, den: int, t: int, r: int)
    requires den != 0 && Abs(num) == Abs(den) * t + r && 0 <= r < Abs(den)
    ensures IsFloor(if (num < 0) == (den < 0) || num == 0 then t else if r == 0 then -t else -t - 1, num, den)
    ensures num == 0 ==> t == 0 && r == 0
  {
    var d: int := Abs(den);
    var n := if den < 0 then -num else num;
    if num == 0 {
      ExactZero(d, t, r);
    }
    FloorOfPositive(n, d, t, r);
    FloorNegated(if n >= 0 then t else if r == 0 then -t else -t - 1, num, den);
  }

  lemma ExactZero(d: int, t: int, r: int)
    requires d > 0 && d * t + r == 0 && 0 <= r < d
    ensures t == 0 && r == 0
  {
    assert t >= 1 ==> d * t >= d;
    assert t <= -1 ==> d * t <= -d;
  }

  lemma FloorOfPositive(n: int, d: int, t: int, r: int)
    requires d > 0 && Abs(n) == d * t + r && 0 <= r < d
    ensures IsFloor(if n >= 0 then t else if r == 0 then -t else -t - 1, n, d)
  {
    assert t * d == d * t && (t + 1) * d == d * t + d;
    assert (-t) * d == -(d * t) && (-t + 1) * d == -(d * t) + d && (-t - 1) * d == -(d * t) - d;
  }

  /** Changing both signs does not change the quotient rounded down. */
  lemma FloorNegated(k: int, n: int, d: int)
    requires d != 0
    ensures IsFloor(k, n, d) == IsFloor(k, -n, -d)
  {
    assert k * (-d) == -(k * d) && (k + 1) * (-d) == -((k + 1) * d);
  }
}
