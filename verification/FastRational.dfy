/** Rationals that are kept as a pair of 32-bit words, as an exact fraction, or as both. */
module FastRationals {
  import opened Rationals
  import opened WordArithmetic

  /** The state bits: the word part is valid, memory for the exact part is allocated, the exact part is valid. */
  datatype State = State(word: bool, memory: bool, exact: bool)

  const WORD_VALID := State(true, false, false)
  const WORD_PLUS_MPQ_INITIALIZED := State(true, true, false)
  const MPQ_ALLOCATED_AND_VALID := State(false, true, true)
  const WORD_AND_MPQ := State(true, true, true)

  class FastRational {
    var state: State
    var num: int
    var den: int
    var mpq: Q

    /** At least one part is valid, a valid part is in lowest terms, and two valid parts agree. */
    ghost predicate Valid()
      reads this
    {
      && (state == WORD_VALID || state == WORD_PLUS_MPQ_INITIALIZED || state == MPQ_ALLOCATED_AND_VALID || state == WORD_AND_MPQ)
      && (state.word ==> WordQ(Q(num, den)))
      && (state.exact ==> Lowest(mpq))
      && (state.word && state.exact ==> mpq == Q(num, den))
    }

    ghost function Value(): (q: Q)
      requires Valid()
      reads this
      ensures Lowest(q)
    {
      if state.word then Q(num, den) else mpq
    }

    constructor FromWord(x: int)
      requires IsWord(x)
      ensures Valid() && state == WORD_VALID && Value() == Q(x, 1)
    {
      state, num, den, mpq := WORD_VALID, x, 1, Q(0, 1);
      new;
      IntegerLowest(x);
    }

    constructor FromUint(x: int)
      requires 0 <= x <= UWORD_MAX
      ensures Valid() && Value() == Q(x, 1)
    {
      if x > WORD_MAX {
        state, num, den, mpq := MPQ_ALLOCATED_AND_VALID, 0, 1, Q(x, 1);
      } else {
        state, num, den, mpq := WORD_VALID, x, 1, Q(0, 1);
      }
      new;
      IntegerLowest(x);
    }

    constructor FromMpz(x: int)
      ensures Valid() && Value() == Q(x, 1) && (state.word <==> IsWord(x))
    {
      if IsWord(x) {
        state, num, den, mpq := WORD_VALID, x, 1, Q(0, 1);
      } else {
        state, num, den, mpq := MPQ_ALLOCATED_AND_VALID, 0, 1, Q(x, 1);
      }
      new;
      IntegerLowest(x);
    }

    constructor FromMpq(q: Q)
      requires Lowest(q)
      ensures Valid() && Value() == q && state == MPQ_ALLOCATED_AND_VALID
    {
      state, num, den, mpq := MPQ_ALLOCATED_AND_VALID, 0, 1, q;
    }

    /** The private constructor from a word and an unsigned word, for fractions in lowest terms. */
    constructor FromWords(n: int, d: int)
      requires WordQ(Q(n, d)) && n > WORD_MIN
      ensures Valid() && state == WORD_VALID && Value() == Q(n, d)
    {
      hide Gcd, Coprime;
      state, mpq, num, den := WORD_VALID, Q(0, 1), 0, 1;
      CoprimeAbs(n, d);
      GcdIsOne(Abs(n), d);
      if n == 0 {
        ZeroLowest(Q(n, d));
      } else {
        QuotExact(n, 1);
        var common := ToWord(Gcd(Abs(n), d));
        num, den := Quot(n, common), d / common;
      }
    }

    constructor Copy(x: FastRational)
      requires x.Valid()
      ensures Valid() && Value() == x.Value() && state == if x.state.word then WORD_VALID else MPQ_ALLOCATED_AND_VALID
    {
      if x.state.word {
        num, den, state, mpq := x.num, x.den, WORD_VALID, Q(0, 1);
      } else {
        num, den, state, mpq := 0, 1, MPQ_ALLOCATED_AND_VALID, x.mpq;
      }
    }

    method KillMpq()
      modifies this
      ensures state == if old(state.memory) then WORD_VALID else old(state)
      ensures num == old(num) && den == old(den)
    {
      if state.memory {
        mpq, state := Q(0, 1), WORD_VALID;
      }
    }

    method SetMpqPartInvalid()
      modifies this`state
      ensures state == if old(state.memory) then WORD_PLUS_MPQ_INITIALIZED else WORD_VALID
    {
      state := if state.memory then WORD_PLUS_MPQ_INITIALIZED else WORD_VALID;
    }

    method EnsureMpqValid()
      requires Valid()
      modifies this`state, this`mpq
      ensures Valid() && state.exact && Value() == old(Value()) && state.word == old(state.word)
    {
      if !state.exact {
        mpq := Q(num, den);
        state := state.(memory := true, exact := true);
      }
    }

    method EnsureMpqMemoryAllocated()
      requires Valid()
      modifies this`state, this`mpq
      ensures state == old(state).(memory := true)
    {
      if !state.memory {
        mpq, state := Q(0, 1), state.(memory := true);
      }
    }

    /** Fills the word part from the exact part when that fits. */
    method TryFitWord()
      requires Valid() && state.exact
      modifies this
      ensures Valid() && state.exact && Value() == old(Value()) && (state.word <==> WordQ(Value()))
    {
      if IsWord(mpq.num) && mpq.den <= UWORD_MAX {
        num, den := mpq.num, mpq.den;
        state := state.(word := true);
      }
    }

    /** Stores an exact result and fits it into words when possible. */
    method StoreMpq(q: Q)
      requires Valid() && Lowest(q)
      modifies this
      ensures Valid() && Value() == q && state.exact
    {
      EnsureMpqMemoryAllocated();
      mpq := q;
      state := MPQ_ALLOCATED_AND_VALID;
      TryFitWord();
    }

    /** Stores a word result and drops the exact part. */
    method StoreWord(q: Q)
      requires Valid() && WordQ(q)
      modifies this
      ensures Valid() && Value() == q && state == WORD_VALID
    {
      num, den := q.num, q.den;
      state := state.(word := true);
      KillMpq();
    }

    method Assign(x: FastRational)
      requires Valid() && x.Valid()
      modifies this
      ensures Valid() && Value() == old(x.Value())
    {
      if x.state.word {
        num, den := x.num, x.den;
        state := state.(word := true);
        SetMpqPartInvalid();
      } else {
        mpq := x.mpq;
        state := MPQ_ALLOCATED_AND_VALID;
      }
    }

    method IsInteger() returns (r: bool)
      requires Valid()
      ensures r <==> Value().den == 1
    {
      r := if state.word then den == 1 else mpq.den == 1;
    }

    method Sign() returns (r: int)
      requires Valid()
      ensures r == Cmp(Value(), Q(0, 1))
    {
      var n := if state.word then num else mpq.num;
      r := if n < 0 then -1 else if n > 0 then 1 else 0;
    }

    method Equals(b: FastRational) returns (r: bool)
      requires Valid() && b.Valid()
      modifies this, b
      ensures Valid() && Value() == old(Value()) && b.Valid() && b.Value() == old(b.Value())
      ensures r <==> Value() == b.Value()
    {
      if state.word && b.state.word {
        r := num == b.num && den == b.den;
      } else {
        EnsureMpqValid();
        b.EnsureMpqValid();
        r := mpq == b.mpq;
      }
    }

    method Compare(b: FastRational) returns (r: int)
      requires Valid() && b.Valid()
      modifies this, b
      ensures Valid() && Value() == old(Value()) && b.Valid() && b.Value() == old(b.Value())
      ensures r == Cmp(Value(), b.Value())
    {
      if state.word && b.state.word {
        r := CompareWords(Q(num, den), Q(b.num, b.den));
      } else {
        EnsureMpqValid();
        b.EnsureMpqValid();
        r := Cmp(mpq, b.mpq);
      }
    }

    method Opposite() returns (x: FastRational)
      requires Valid()
      modifies this
      ensures Valid() && Value() == old(Value())
      ensures fresh(x) && x.Valid() && x.Value() == Neg(Value())
    {
      CoprimeAbs(Value().num, Value().den);
      if state.word && num > WORD_MIN {
        x := new FastRational.FromWords(-num, den);
      } else {
        EnsureMpqValid();
        x := new FastRational.FromMpq(Neg(mpq));
      }
    }

    method Negate()
      requires Valid()
      modifies this
      ensures Valid() && Value() == Neg(old(Value()))
    {
      CoprimeAbs(Value().num, Value().den);
      if state.word && num > WORD_MIN {
        num := -num;
        SetMpqPartInvalid();
      } else {
        EnsureMpqValid();
        mpq := Neg(mpq);
        state := MPQ_ALLOCATED_AND_VALID;
      }
    }

    method Inverse() returns (dest: FastRational)
      requires Valid() && Value().num != 0
      modifies this
      ensures Valid() && Value() == old(Value())
      ensures fresh(dest) && dest.Valid() && dest.Value() == Inv(Value())
    {
      dest := new FastRational.FromWord(0);
      if state.word {
        var ok, r := InverseWords(Q(num, den));
        if ok {
          dest.num, dest.den := r.num, r.den;
          return;
        }
      }
      EnsureMpqValid();
      InvReal(mpq);
      dest.EnsureMpqMemoryAllocated();
      dest.mpq := Inv(mpq);
      dest.state := MPQ_ALLOCATED_AND_VALID;
    }
  }

  /** Both parts of two operands are looked at, and neither changes its value. */
  method EnsureBoth(a: FastRational, b: FastRational)
    requires a.Valid() && b.Valid()
    modifies a`state, a`mpq, b`state, b`mpq
    ensures a.Valid() && b.Valid() && a.state.exact && b.state.exact
    ensures a.Value() == old(a.Value()) && b.Value() == old(b.Value())
    ensures a.mpq == a.Value() && b.mpq == b.Value()
  {
    a.EnsureMpqValid();
    b.EnsureMpqValid();
  }

  method Addition(dst: FastRational, a: FastRational, b: FastRational)
    requires dst.Valid() && a.Valid() && b.Valid() && dst != a && dst != b
    modifies dst, a, b
    ensures dst.Valid() && dst.Value() == Add(old(a.Value()), old(b.Value()))
    ensures a.Valid() && a.Value() == old(a.Value()) && b.Valid() && b.Value() == old(b.Value())
  {
    hide Add, Coprime;
    if a.state.word && b.state.word {
      var ok, r := AddWords(Q(a.num, a.den), Q(b.num, b.den));
      if ok {
        dst.StoreWord(r);
        return;
      }
    }
    EnsureBoth(a, b);
    AddExact(a.mpq, b.mpq);
    dst.StoreMpq(Add(a.mpq, b.mpq));
  }

  /** The operands for which the difference of the word parts wraps and still looks small. */
  ghost predicate Wrapping(a: FastRational, b: FastRational)
    requires a.Valid() && b.Valid()
    reads a, b
  {
    a.state.word && b.state.word && SubBreaks(a.Value(), b.Value())
  }

  /** The difference is exact precisely when the difference of the word parts does not wrap into range. */
  method Substraction(dst: FastRational, a: FastRational, b: FastRational)
    requires dst.Valid() && a.Valid() && b.Valid() && dst != a && dst != b
    modifies dst, a, b
    ensures dst.Valid() && (dst.Value() == Sub(old(a.Value()), old(b.Value())) <==> !old(Wrapping(a, b)))
    ensures old(Wrapping(a, b)) ==> dst.Value() == BrokenDifference(old(a.Value()), old(b.Value()))
    ensures a.Valid() && a.Value() == old(a.Value()) && b.Valid() && b.Value() == old(b.Value())
  {
    hide Sub, Coprime, SubBreaks, BrokenDifference;
    if a.state.word && b.state.word {
      var ok, r := SubWords(Q(a.num, a.den), Q(b.num, b.den));
      if ok {
        dst.StoreWord(r);
        return;
      }
    }
    EnsureBoth(a, b);
    AddExact(a.mpq, b.mpq);
    dst.StoreMpq(Sub(a.mpq, b.mpq));
  }

  /** A product that the word path delivers. */
  predicate StaysWord(a: Q, b: Q)
    requires a.den > 0 && b.den > 0
  {
    && WORD_MIN < a.num && a.num != 0 && a != Q(1, 1) && WORD_MIN < b.num && b.num != 0 && b != Q(1, 1)
    && CheckWord(Mul(a, b).num) && Mul(a, b).den <= UWORD_MAX
  }

  method Multiplication(dst: FastRational, a: FastRational, b: FastRational)
    requires dst.Valid() && a.Valid() && b.Valid() && dst != a && dst != b
    modifies dst, a, b
    ensures old(a.state.word && b.state.word && StaysWord(a.Value(), b.Value())) ==> dst.state == WORD_VALID
    ensures dst.Valid() && dst.Value() == Mul(old(a.Value()), old(b.Value()))
    ensures a.Valid() && a.Value() == old(a.Value()) && b.Valid() && b.Value() == old(b.Value())
  {
    hide Mul, Coprime;
    MulUnits(a.Value(), b.Value());
    MulUnits(b.Value(), a.Value());
    if (a.state.word && a.num == 0) || (b.state.word && b.num == 0) {
      IntegerLowest(0);
      dst.StoreWord(Q(0, 1));
      return;
    }
    if a.state.word && a.num == 1 && a.den == 1 {
      dst.Assign(b);
      return;
    }
    if b.state.word && b.num == 1 && b.den == 1 {
      dst.Assign(a);
      return;
    }
    if a.state.word && b.state.word {
      var ok, r := MulWords(Q(a.num, a.den), Q(b.num, b.den));
      if ok {
        dst.StoreWord(r);
        return;
      }
    }
    EnsureBoth(a, b);
    MulReal(a.mpq, b.mpq);
    dst.StoreMpq(Mul(a.mpq, b.mpq));
  }

  lemma MulUnits(a: Q, b: Q)
    requires Lowest(a) && Lowest(b)
    ensures a.num == 0 ==> Mul(a, b) == Q(0, 1)
    ensures a == Q(1, 1) ==> Mul(a, b) == b
    ensures Mul(a, b) == Mul(b, a)
  {
    hide Coprime, Canon;
    assert a.num * b.num == b.num * a.num && a.den * b.den == b.den * a.den > 0;
    if a.num == 0 {
      IntegerLowest(0);
      IsCanon(Q(0, 1), 0 * b.num, a.den * b.den);
    }
    if a == Q(1, 1) {
      IsCanon(b, 1 * b.num, 1 * b.den);
    }
  }

  method Division(dst: FastRational, a: FastRational, b: FastRational)
    requires dst.Valid() && a.Valid() && b.Valid() && dst != a && dst != b && b.Value().num != 0
    modifies dst, a, b
    ensures dst.Valid() && dst.Value() == Div(old(a.Value()), old(b.Value()))
    ensures dst.state.exact || old(a.state.word && b.state.word)
    ensures a.Valid() && a.Value() == old(a.Value()) && b.Valid() && b.Value() == old(b.Value())
  {
    hide Div, Coprime;
    if a.state.word && b.state.word {
      var ok, r := DivWords(Q(a.num, a.den), Q(b.num, b.den));
      if ok {
        dst.StoreWord(r);
        return;
      }
    }
    EnsureBoth(a, b);
    MulExact(a.mpq, b.mpq);
    dst.StoreMpq(Div(a.mpq, b.mpq));
  }

  // ----- compound assignments; the operands may be one object -----

  method AdditionAssign(a: FastRational, b: FastRational)
    requires a.Valid() && b.Valid()
    modifies a, b
    ensures a.Valid() && a.Value() == Add(old(a.Value()), old(b.Value()))
    ensures b != a ==> b.Valid() && b.Value() == old(b.Value())
  {
    hide Add, Coprime;
    if b.state.word {
      if b.num == 0 {
        AddZero(a.Value(), b.Value());
        return;
      }
      if a.state.word {
        var ok, r := AddAssignWords(Q(a.num, a.den), Q(b.num, b.den));
        if ok {
          a.StoreWord(r);
          return;
        }
      }
    }
    EnsureBoth(a, b);
    AddExact(a.mpq, b.mpq);
    a.StoreMpq(Add(a.mpq, b.mpq));
  }

  method SubstractionAssign(a: FastRational, b: FastRational)
    requires a.Valid() && b.Valid()
    modifies a, b
    ensures a.Valid() && a.Value() == Sub(old(a.Value()), old(b.Value()))
    ensures b != a ==> b.Valid() && b.Value() == old(b.Value())
  {
    hide Sub, Coprime;
    if a.state.word && b.state.word {
      var ok, r := SubAssignWords(Q(a.num, a.den), Q(b.num, b.den));
      if ok {
        a.StoreWord(r);
        return;
      }
    }
    EnsureBoth(a, b);
    AddExact(a.mpq, b.mpq);
    a.StoreMpq(Sub(a.mpq, b.mpq));
  }

  method MultiplicationAssign(a: FastRational, b: FastRational)
    requires a.Valid() && b.Valid()
    modifies a, b
    ensures a.Valid() && a.Value() == Mul(old(a.Value()), old(b.Value()))
    ensures b != a ==> b.Valid() && b.Value() == old(b.Value())
  {
    hide Mul, Coprime;
    if a.state.word && b.state.word {
      var ok, r := MulAssignWords(Q(a.num, a.den), Q(b.num, b.den));
      if ok {
        a.StoreWord(r);
        return;
      }
    }
    EnsureBoth(a, b);
    MulReal(a.mpq, b.mpq);
    a.StoreMpq(Mul(a.mpq, b.mpq));
  }

  method DivisionAssign(a: FastRational, b: FastRational)
    requires a.Valid() && b.Valid() && b.Value().num != 0
    modifies a, b
    ensures a.Valid() && a.Value() == Div(old(a.Value()), old(b.Value()))
    ensures b != a ==> b.Valid() && b.Value() == old(b.Value())
  {
    hide Div, Coprime;
    if a.state.word && b.state.word {
      var ok, r := DivAssignWords(Q(a.num, a.den), Q(b.num, b.den));
      if ok {
        a.StoreWord(r);
        return;
      }
    }
    EnsureBoth(a, b);
    MulExact(a.mpq, b.mpq);
    a.StoreMpq(Div(a.mpq, b.mpq));
  }

  // ----- rounding -----

  /** The quotient of exact integers rounded up, or down. */
  function CeilDiv(n: int, d: int): (k: int)
    requires d > 0
  {
    -((-n) / d)
  }

  function FloorDiv(n: int, d: int): (k: int)
    requires d != 0
  {
    if d > 0 then n / d else (-n) / (-d)
  }

  lemma ExactRounding(n: int, d: int)
    requires d != 0
    ensures d > 0 ==> IsCeil(CeilDiv(n, d), n, d)
    ensures IsFloor(FloorDiv(n, d), n, d)
  {
    hide IsFloor, IsCeil;
    if d > 0 {
      ExactCeil(n, d);
      ExactFloor(n, d);
    } else {
      NegatedFloor(n, d);
    }
  }

  lemma ExactCeil(n: int, d: int)
    requires d > 0
    ensures IsCeil(CeilDiv(n, d), n, d)
  {
    var q, r := (-n) / d, (-n) % d;
    assert -n == d * q + r && 0 <= r < d;
    Spread(-q, d);
    assert (-q) * d == -(d * q);
  }

  lemma ExactFloor(n: int, d: int)
    requires d > 0
    ensures IsFloor(n / d, n, d)
  {
    var q, r := n / d, n % d;
    assert n == d * q + r && 0 <= r < d;
    Spread(q, d);
  }

  lemma NegatedFloor(n: int, d: int)
    requires d < 0
    ensures IsFloor((-n) / (-d), n, d)
  {
    var e: int := -d;
    var q, r := (-n) / e, (-n) % e;
    assert -n == e * q + r && 0 <= r < e;
    Spread(q, d);
    assert q * d == -(e * q);
  }

  lemma Spread(q: int, d: int)
    ensures (q + 1) * d == q * d + d && (q - 1) * d == q * d - d
  {
  }

  method Ceil(x: FastRational) returns (ret: FastRational)
    requires x.Valid()
    ensures fresh(ret) && ret.Valid() && ret.Value().den == 1
    ensures IsCeil(ret.Value().num, x.Value().num, x.Value().den)
  {
    hide Coprime;
    var integer := x.IsInteger();
    if integer {
      ret := new FastRational.Copy(x);
    } else if x.state.word {
      var k := CeilWord(Q(x.num, x.den));
      ret := new FastRational.FromWord(k);
    } else {
      ExactRounding(x.mpq.num, x.mpq.den);
      ret := new FastRational.FromMpz(CeilDiv(x.mpq.num, x.mpq.den));
    }
  }

  method Floor(x: FastRational) returns (ret: FastRational)
    requires x.Valid()
    ensures fresh(ret) && ret.Valid() && ret.Value().den == 1
    ensures IsFloor(ret.Value().num, x.Value().num, x.Value().den)
  {
    hide Coprime, Sub;
    var integer := x.IsInteger();
    if integer {
      ret := new FastRational.Copy(x);
    } else {
      var c := Ceil(x);
      var one := new FastRational.FromWord(1);
      ret := new FastRational.FromWord(0);
      ghost var k := c.Value().num;
      Substraction(ret, c, one);
      AddInteger(Q(k, 1), -1);
      NotMultiple(x.Value(), k);
    }
  }

  lemma NotMultiple(q: Q, k: int)
    requires Lowest(q) && q.den != 1
    ensures q.num != k * q.den
  {
    NotAnInteger(q);
    if q.num == k * q.den {
      DivExact(q.den, k, q.num);
      assert -q.num == q.den * (-k);
      DivExact(q.den, -k, -q.num);
    }
  }

  /** The quotient of two integers rounded down; both are converted back to words when they fit. */
  method FdivQ(n: FastRational, d: FastRational) returns (q: FastRational)
    requires n.Valid() && d.Valid() && n.Value().den == 1 == d.Value().den && d.Value().num != 0
    modifies n, d
    ensures n.Valid() && n.Value() == old(n.Value()) && d.Valid() && d.Value() == old(d.Value())
    ensures fresh(q) && q.Valid() && q.Value().den == 1 && IsFloor(q.Value().num, n.Value().num, d.Value().num)
  {
    hide Coprime;
    if n.state.word && d.state.word {
      var ok, quo := FloorQuotientWords(n.num, d.num);
      if ok {
        q := new FastRational.FromWord(quo);
        return;
      }
    }
    EnsureBoth(n, d);
    var t := FloorDiv(n.mpq.num, d.mpq.num);
    ExactRounding(n.mpq.num, d.mpq.num);
    n.TryFitWord();
    d.TryFitWord();
    q := new FastRational.FromMpz(t);
  }

  /** The denominator can be read: it fits a signed word, or the exact part is valid. */
  ghost predicate Readable(x: FastRational)
    reads x
  {
    x.state.exact || (x.state.word && x.den <= WORD_MAX)
  }

  /** The denominator as a number.  A denominator above the range of a signed word is read from the
      exact part even if that was never written: then nothing is known of the result. */
  method GetDen(x: FastRational) returns (defined: bool, r: FastRational)
    requires x.Valid()
    ensures fresh(r) && r.Valid() && (defined <==> Readable(x))
    ensures defined ==> r.Value() == Q(x.Value().den, 1)
  {
    if x.state.word && x.den <= WORD_MAX {
      r := new FastRational.FromUint(x.den);
      defined := true;
    } else if x.state.exact {
      r := new FastRational.FromMpz(x.mpq.den);
      defined := true;
    } else {
      var anything: int := *;
      r := new FastRational.FromMpz(anything);
      defined := false;
    }
  }

  /** A valid product whose denominator cannot be read. */
  lemma UnreadableProduct(a: Q, b: Q)
    requires a == Q(1, 65536) && b == Q(1, 65535)
    ensures WordQ(a) && WordQ(b) && StaysWord(a, b) && Mul(a, b) == Q(1, 4294901760) && Mul(a, b).den > WORD_MAX
  {
    hide Gcd, Canon;
    var d := a.den * b.den;
    assert d == 4294901760;
    UnitLowest(a.den);
    UnitLowest(b.den);
    UnitLowest(d);
    IsCanon(Q(1, d), 1 * 1, d);
  }

  lemma UnitLowest(d: int)
    requires d > 0
    ensures Lowest(Q(1, d))
  {
    assert Bezout(1, d, 1, 0) == 1;
  }

  /** The word path leaves it without an exact part. */
  method MultiplyUnreadably() returns (p: FastRational)
    ensures fresh(p) && p.Valid() && p.Value() == Q(1, 4294901760) && !Readable(p)
  {
    hide Mul, StaysWord;
    UnreadableProduct(Q(1, 65536), Q(1, 65535));
    var a := new FastRational.FromWords(1, 65536);
    var b := new FastRational.FromWords(1, 65535);
    p := new FastRational.FromWord(0);
    Multiplication(p, a, b);
  }

  // ----- least common multiples -----

  function Lcm(a: nat, b: nat): (m: nat) {
    if a == 0 || b == 0 then 0 else (a / Gcd(a, b)) * b
  }

  /** The common multiples of two numbers are the multiples of their least common multiple. */
  lemma LcmExact(a: nat, b: nat, x: int)
    requires a > 0 && b > 0
    ensures Lcm(a, b) > 0 && (Divides(a, x) && Divides(b, x) <==> Divides(Lcm(a, b), x))
  {
    hide Gcd;
    var g := Gcd(a, b);
    GcdReduces(a, b);
    FactorAtMost(g, a / g, a);
    assert (a / g) * b > 0;
    if Divides(Lcm(a, b), x) {
      MultipleOfBoth(g, a / g, b / g, x);
    }
    if Divides(a, x) && Divides(b, x) {
      CommonMultiple(g, a / g, b / g, x);
    }
  }

  lemma MultipleOfBoth(g: int, p: int, q: int, x: int)
    requires Divides(p * (g * q), x)
    ensures Divides(g * p, x) && Divides(g * q, x)
  {
    var k: int :| Times(p * (g * q), k) == x;
    assert Times(g * p, q * k) == x by { assert (p * (g * q)) * k == (g * p) * (q * k); }
    assert Times(g * q, p * k) == x by { assert (p * (g * q)) * k == (g * q) * (p * k); }
  }

  lemma CommonMultiple(g: int, p: int, q: int, x: int)
    requires g > 0 && Coprime(p, q) && Divides(g * p, x) && Divides(g * q, x)
    ensures Divides(p * (g * q), x)
  {
    var k: int :| Times(g * q, k) == x;
    var l: int :| Times(g * p, l) == x;
    assert (q * k) * g == (p * l) * g by {
      assert (g * q) * k == (q * k) * g && (g * p) * l == (p * l) * g;
    }
    CancelFactor(q * k, p * l, g);
    assert Times(p, l) == q * k;
    CoprimeAbs(p, q);
    CoprimeDivides(p, q, k);
    var z: int :| Times(p, z) == k;
    assert Times(p * (g * q), z) == x by { assert (g * q) * (p * z) == (p * (g * q)) * z; }
  }

  method LcmRationals(a: FastRational, b: FastRational) returns (r: FastRational)
    requires a.Valid() && b.Valid() && a.Value().den == 1 == b.Value().den
    requires a.Value().num >= 0 && b.Value().num >= 0
    modifies a, b
    ensures a.Valid() && a.Value() == old(a.Value()) && b.Valid() && b.Value() == old(b.Value())
    ensures fresh(r) && r.Valid() && r.Value() == Q(Lcm(a.Value().num, b.Value().num), 1)
  {
    hide Gcd, Coprime, Canon;
    ghost var x, y := a.Value().num, b.Value().num;
    if a.state.word && b.state.word {
      if a.num == 0 || b.num == 0 {
        r := new FastRational.FromWord(0);
        return;
      }
      LcmSymmetric(x, y);
      var g := GcdLoop(a.num, b.num);
      QuotientFits(a.num, g);
      QuotientFits(b.num, g);
      var big := if b.num > a.num then b.num else a.num;
      var other := if b.num > a.num then a.num else b.num;
      var p := new FastRational.FromWord(big / g);
      var q := new FastRational.FromWord(other);
      r := new FastRational.FromWord(0);
      Multiplication(r, p, q);
      MulIntegers(big / g, other);
    } else {
      EnsureBoth(a, b);
      var o := Lcm(a.mpq.num, b.mpq.num);
      if !a.state.word {
        a.TryFitWord();
      }
      if !b.state.word {
        b.TryFitWord();
      }
      r := new FastRational.FromMpz(o);
    }
  }

  lemma MulIntegers(a: int, b: int)
    ensures Mul(Q(a, 1), Q(b, 1)) == Q(a * b, 1)
  {
    IntegerLowest(a * b);
    IsCanon(Q(a * b, 1), a * b, 1 * 1);
  }

  lemma LcmSymmetric(a: nat, b: nat)
    requires a > 0 && b > 0
    ensures Gcd(a, b) > 0 && a % Gcd(a, b) == 0 && b % Gcd(a, b) == 0
    ensures Lcm(a, b) == (b / Gcd(a, b)) * a
  {
    hide Gcd;
    GcdReduces(a, b);
    var g := Gcd(a, b);
    var p, q := a / g, b / g;
    assert p * (g * q) == q * (g * p);
  }
}
