/** Conversion of decimal literals to rationals.

    A literal is the sequence of its characters without the terminating NUL of the C string. */
module Decimals {
  import opened Rationals

  predicate IsDigit(c: char) {
    '0' <= c <= '9'
  }

  predicate IsPosDig(c: char) {
    '0' < c <= '9'
  }

  function Pow10(n: nat): (r: nat)
    ensures r > 0
  {
    if n == 0 then 1 else 10 * Pow10(n - 1)
  }

  // ----- what a literal means -----

  predicate AllDigits(s: string) {
    forall i | 0 <= i < |s| :: IsDigit(s[i])
  }

  /** The number that a sequence of digits denotes. */
  function Val(s: string): nat
    requires AllDigits(s)
  {
    if s == "" then 0 else 10 * Val(s[..|s| - 1]) + (s[|s| - 1] - '0') as nat
  }

  /** Digits and at most one decimal point. */
  predicate IsDecimal(s: string) {
    && (forall i | 0 <= i < |s| :: IsDigit(s[i]) || s[i] == '.')
    && (forall i, j | 0 <= i < j < |s| :: s[i] == '.' ==> s[j] != '.')
  }

  /** Digits and one slash. */
  predicate IsFraction(s: string) {
    exists k | 0 <= k < |s| :: s[k] == '/' && AllDigits(s[..k]) && AllDigits(s[k + 1..])
  }

  /** The digits without the decimal point. */
  function Digits(s: string): string {
    if s == "" then ""
    else if s[|s| - 1] == '.' then Digits(s[..|s| - 1])
    else Digits(s[..|s| - 1]) + [s[|s| - 1]]
  }

  /** What follows the decimal point. */
  function After(s: string): string {
    if s == "" || '.' !in s then ""
    else if s[|s| - 1] == '.' then ""
    else After(s[..|s| - 1]) + [s[|s| - 1]]
  }

  function WithoutZeros(s: string): string {
    if s != "" && s[0] == '0' then WithoutZeros(s[1..]) else s
  }

  /** The digits from the first one that is not zero. */
  function Significant(s: string): string {
    WithoutZeros(Digits(s))
  }

  function TrailingZeros(s: string): (n: nat)
    ensures n <= |s|
  {
    if s == "" || s[|s| - 1] != '0' then 0 else 1 + TrailingZeros(s[..|s| - 1])
  }

  /** The value of a decimal literal: its digits over a power of ten. */
  function LiteralValue(s: string, negative: bool): Q
    requires AllDigits(Digits(s))
  {
    var q := Canon(Val(Digits(s)), Pow10(|After(s)|));
    if negative then Neg(q) else q
  }

  function Zeros(n: nat): (s: string)
    ensures |s| == n && forall i | 0 <= i < n :: s[i] == '0'
  {
    seq(n, i => '0')
  }

  datatype Outcome = Malformed | FractionText(text: string, negative: bool) | Rational(value: Q)

  // ----- one more character -----

  lemma Snoc(s: string, c: char)
    ensures Digits(s + [c]) == if c == '.' then Digits(s) else Digits(s) + [c]
    ensures After(s + [c]) == if c == '.' || '.' !in s then "" else After(s) + [c]
    ensures TrailingZeros(s + [c]) == if c == '0' then 1 + TrailingZeros(s) else 0
  {
    DigitsSnoc(s, c);
    AfterSnoc(s, c);
    hide Digits, After;
    assert (s + [c])[..|s|] == s;
  }

  lemma DigitsSnoc(s: string, c: char)
    ensures Digits(s + [c]) == if c == '.' then Digits(s) else Digits(s) + [c]
  {
    assert (s + [c])[..|s|] == s;
  }

  lemma AfterSnoc(s: string, c: char)
    ensures After(s + [c]) == if c == '.' || '.' !in s then "" else After(s) + [c]
  {
    assert (s + [c])[..|s|] == s;
    assert '.' in s + [c] <==> '.' in s || c == '.';
  }

  lemma {:induction false} WithoutZerosSnoc(s: string, c: char)
    ensures WithoutZeros(s + [c]) == if WithoutZeros(s) == "" && c == '0' then "" else WithoutZeros(s) + [c]
  {
    if s != "" && s[0] == '0' {
      assert (s + [c])[1..] == s[1..] + [c];
      WithoutZerosSnoc(s[1..], c);
    } else if s == "" {
      assert s + [c] == [c];
      assert [c][1..] == "";
    }
  }

  lemma {:induction false} DigitsAreDigits(s: string)
    requires IsDecimal(s)
    ensures AllDigits(Digits(s)) && AllDigits(After(s)) && AllDigits(Significant(s))
  {
    if s != "" {
      assert IsDecimal(s[..|s| - 1]);
      DigitsAreDigits(s[..|s| - 1]);
    }
    WithoutZerosDigits(Digits(s));
  }

  lemma {:induction false} WithoutZerosDigits(s: string)
    requires AllDigits(s)
    ensures AllDigits(WithoutZeros(s)) && Val(WithoutZeros(s)) == Val(s)
    ensures WithoutZeros(s) != "" ==> WithoutZeros(s)[0] != '0'
  {
    if s != "" && s[0] == '0' {
      WithoutZerosDigits(s[1..]);
      LeadingZero(s);
    }
  }

  lemma {:induction false} LeadingZero(s: string)
    requires s != "" && s[0] == '0' && AllDigits(s)
    ensures Val(s[1..]) == Val(s)
  {
    var k := |s| - 1;
    if k == 0 {
      assert s[1..] == "" && s[..0] == "";
    } else {
      assert s[1..][..k - 1] == s[..k][1..];
      LeadingZero(s[..k]);
    }
  }

  /** Trailing zeros scale the value. */
  lemma {:induction false} ValScaled(s: string, z: nat)
    requires AllDigits(s) && z <= TrailingZeros(s)
    ensures AllDigits(s[..|s| - z]) && Val(s) == Val(s[..|s| - z]) * Pow10(z)
  {
    if z == 0 {
      assert s[..|s|] == s;
    } else {
      var t := s[..|s| - 1];
      ValScaled(t, z - 1);
      assert t[..|t| - (z - 1)] == s[..|s| - z];
      Tenfold(Val(s[..|s| - z]), Pow10(z - 1));
    }
  }

  lemma Tenfold(v: nat, p: nat)
    ensures 10 * (v * p) == v * (10 * p)
  {
  }

  lemma {:induction false} PowAdd(a: nat, b: nat)
    ensures Pow10(a + b) == Pow10(a) * Pow10(b)
  {
    if a > 0 {
      PowAdd(a - 1, b);
      Tenfold(Pow10(b), Pow10(a - 1));
    }
  }

  // ----- the first scan: which literals are accepted, and how many digits the numerator has -----

  /** Where the first scan is after reading p: 0 leading zeros, 1 integer part, 2 fractional part after a
      digit that is not zero or after the point, 3 zeros of the fractional part that may be trailing ones,
      4 zeros after the point with nothing before, 5 after a slash. */
  ghost predicate Scanned(p: string, state: nat, numL: nat, zeroes: nat) {
    var sig := Significant(p);
    && (state < 5 ==> IsDecimal(p) && |sig| == numL + zeroes && ('.' in p <==> state in {2, 3, 4}))
    && (state in {0, 4} ==> sig == "" && numL == 0)
    && (state in {1, 2, 3} ==> numL > 0)
    && (state == 3 ==> zeroes > 0 && zeroes <= TrailingZeros(sig))
    && (state != 3 ==> zeroes == 0)
    && (state in {2, 3} ==> zeroes == TrailingZeros(After(p)))
    && (state == 5 ==> IsFraction(p))
  }

  /** The next state, unless the character is not allowed. */
  datatype Step = Reject | Go(state: nat, numL: nat, zeroes: nat)

  function Next(state: nat, numL: nat, zeroes: nat, c: char): Step {
    if state == 0 && c == '0' then Go(0, numL, zeroes)
    else if state == 0 && IsPosDig(c) then Go(1, numL + 1, zeroes)
    else if state == 0 && c == '.' then Go(4, numL, zeroes)
    else if state == 0 && c == '/' then Go(5, numL, zeroes)
    else if state == 1 && IsDigit(c) then Go(1, numL + 1, zeroes)
    else if state == 1 && c == '.' then Go(2, numL, zeroes)
    else if state == 1 && c == '/' then Go(5, numL, zeroes)
    else if state == 2 && c == '0' then Go(3, numL, zeroes + 1)
    else if state == 2 && IsPosDig(c) then Go(2, numL + 1, zeroes)
    else if state == 3 && c == '0' then Go(3, numL, zeroes + 1)
    else if state == 3 && IsPosDig(c) then Go(2, numL + zeroes + 1, 0)
    else if state == 4 && c == '0' then Go(4, numL, zeroes)
    else if state == 4 && IsPosDig(c) then Go(2, numL + 1, zeroes)
    else if state == 5 && IsDigit(c) then Go(5, numL, zeroes)
    else Reject
  }

  lemma DecimalSnoc(p: string, c: char)
    requires IsDecimal(p)
    ensures IsDecimal(p + [c]) <==> IsDigit(c) || (c == '.' && '.' !in p)
    ensures !IsFraction(p)
  {
    var q := p + [c];
    assert q[|p|] == c;
    assert forall i | 0 <= i < |p| :: q[i] == p[i];
    if c == '.' && '.' in p {
      var i :| 0 <= i < |p| && p[i] == '.';
      assert q[i] == '.' && q[|p|] == '.';
    }
  }

  /** A fraction begins where no point was read. */
  lemma FractionSnoc(p: string, c: char)
    ensures IsDecimal(p) && c == '/' && '.' !in p ==> IsFraction(p + [c])
    ensures IsFraction(p) && IsDigit(c) ==> IsFraction(p + [c])
  {
    var q := p + [c];
    if IsDecimal(p) && c == '/' && '.' !in p {
      assert q[|p|] == '/' && q[..|p|] == p && q[|p| + 1..] == "";
      forall i | 0 <= i < |p| ensures IsDigit(p[i]) {
        assert p[i] in p;
      }
    }
    if IsFraction(p) && IsDigit(c) {
      var k :| 0 <= k < |p| && p[k] == '/' && AllDigits(p[..k]) && AllDigits(p[k + 1..]);
      assert q[k] == '/' && q[..k] == p[..k] && q[k + 1..] == p[k + 1..] + [c];
    }
  }

  /** How the parts of the literal grow. */
  lemma PartsGrow(p: string, c: char)
    ensures Significant(p + [c]) == if c == '.' || (Significant(p) == "" && c == '0') then Significant(p) else Significant(p) + [c]
    ensures '.' in p + [c] <==> c == '.' || '.' in p
    ensures c != '.' && '.' in p ==> After(p + [c]) == After(p) + [c]
    ensures c == '.' || '.' !in p ==> After(p + [c]) == ""
    ensures TrailingZeros(After(p) + [c]) == if c == '0' then 1 + TrailingZeros(After(p)) else 0
    ensures TrailingZeros(Significant(p) + [c]) == if c == '0' then 1 + TrailingZeros(Significant(p)) else 0
  {
    hide Digits, After, WithoutZeros, TrailingZeros;
    Snoc(p, c);
    WithoutZerosSnoc(Digits(p), c);
    Snoc(After(p), c);
    Snoc(Significant(p), c);
  }

  lemma ScanStep(p: string, c: char, state: nat, numL: nat, zeroes: nat)
    requires Scanned(p, state, numL, zeroes) && Next(state, numL, zeroes, c).Go?
    ensures var s := Next(state, numL, zeroes, c); Scanned(p + [c], s.state, s.numL, s.zeroes)
  {
    hide IsDecimal, IsFraction, Significant, After, TrailingZeros;
    PartsGrow(p, c);
    FractionSnoc(p, c);
    assert TrailingZeros("") == 0 by { NoZeros(); }
    if state < 5 {
      DecimalSnoc(p, c);
    }
  }

  lemma NoZeros()
    ensures TrailingZeros("") == 0
  {
  }

  lemma DecimalPrefix(s: string, i: nat)
    requires i <= |s|
    ensures IsDecimal(s) ==> IsDecimal(s[..i])
    ensures IsFraction(s) ==> IsDecimal(s[..i]) || IsFraction(s[..i])
  {
    var q := s[..i];
    if IsFraction(s) {
      var k :| 0 <= k < |s| && s[k] == '/' && AllDigits(s[..k]) && AllDigits(s[k + 1..]);
      if k < i {
        assert q[k] == '/' && q[..k] == s[..k];
        var a, b := q[k + 1..], s[k + 1..];
        assert forall j | 0 <= j < |a| :: a[j] == b[j];
        assert IsFraction(q);
      } else {
        assert forall j | 0 <= j < i :: q[j] == s[..k][j];
        assert IsDecimal(q);
      }
    }
  }

  /** No literal that goes on with a rejected character is accepted. */
  lemma Rejected(s: string, i: nat, state: nat, numL: nat, zeroes: nat)
    requires i < |s| && state <= 5 && Scanned(s[..i], state, numL, zeroes) && Next(state, numL, zeroes, s[i]).Reject?
    ensures !IsDecimal(s) && !IsFraction(s)
  {
    hide Significant, After, TrailingZeros, IsDecimal, IsFraction;
    var p, c := s[..i], s[i];
    assert s[..i + 1] == p + [c];
    DecimalPrefix(s, i + 1);
    NotExtended(p, c);
    if state < 5 {
      DecimalSnoc(p, c);
    }
  }

  lemma NotExtended(p: string, c: char)
    ensures IsDecimal(p) && (c != '/' || '.' in p) ==> !IsFraction(p + [c])
    ensures IsFraction(p) && !IsDigit(c) ==> !IsFraction(p + [c])
    ensures IsFraction(p) ==> !IsDecimal(p + [c])
  {
    var q := p + [c];
    assert forall i | 0 <= i < |p| :: q[i] == p[i];
    assert q[|p|] == c && q[..|p|] == p;
    if IsFraction(q) {
      var k :| 0 <= k < |q| && q[k] == '/' && AllDigits(q[..k]) && AllDigits(q[k + 1..]);
      if k < |p| {
        assert p[k] == '/';
        assert q[k + 1..][|p| - k - 1] == c;
      } else {
        assert forall i | 0 <= i < |p| :: IsDigit(p[i]);
      }
    }
    if IsFraction(p) {
      var k :| 0 <= k < |p| && p[k] == '/';
      assert q[k] == '/';
    }
  }

  /** The first scan. */
  method ScanNumerator(flo: string) returns (ok: bool, isFrac: bool, numL: nat)
    ensures ok <==> IsDecimal(flo) || IsFraction(flo)
    ensures ok ==> (isFrac <==> IsFraction(flo))
    ensures ok && !isFrac ==> exists z: nat :: Trimmed(flo, numL, z)
  {
    hide Significant, After, TrailingZeros, IsDecimal, IsFraction;
    var state: nat, zeroes: nat := 0, 0;
    ok, isFrac, numL := true, false, 0;
    assert Scanned(flo[..0], state, numL, zeroes) by { ScanStart(flo); }
    for i := 0 to |flo|
      invariant ok && state <= 5 && (isFrac <==> state == 5)
      invariant Scanned(flo[..i], state, numL, zeroes)
    {
      var c := flo[i];
      assert flo[..i + 1] == flo[..i] + [c];
      if Next(state, numL, zeroes, c).Reject? {
        Rejected(flo, i, state, numL, zeroes);
      } else {
        ScanStep(flo[..i], c, state, numL, zeroes);
      }
      if state == 0 && c == '0' {
      } else if state == 0 && IsPosDig(c) {
        numL, state := numL + 1, 1;
      } else if state == 0 && c == '.' {
        state := 4;
      } else if state == 0 && c == '/' {
        state, isFrac := 5, true;
      } else if state == 1 && IsDigit(c) {
        numL, state := numL + 1, 1;
      } else if state == 1 && c == '.' {
        state := 2;
      } else if state == 1 && c == '/' {
        state, isFrac := 5, true;
      } else if state == 2 && c == '0' {
        zeroes, state := zeroes + 1, 3;
      } else if state == 2 && IsPosDig(c) {
        numL, state := numL + 1, 2;
      } else if state == 3 && c == '0' {
        zeroes, state := zeroes + 1, 3;
      } else if state == 3 && IsPosDig(c) {
        numL, zeroes, state := numL + zeroes + 1, 0, 2;
      } else if state == 4 && c == '0' {
        state := 4;
      } else if state == 4 && IsPosDig(c) {
        numL, state := numL + 1, 2;
      } else if state == 5 && IsDigit(c) {
        state := 5;
      } else {
        ok := false;
        return;
      }
    }
    assert flo[..|flo|] == flo;
    ScanEnd(flo, state, numL, zeroes);
  }

  /** The numerator consists of the significant digits without z trailing zeros of the fractional part;
      these are all there are. */
  ghost predicate Trimmed(s: string, numL: nat, z: nat) {
    && |Significant(s)| == numL + z && z <= TrailingZeros(Significant(s)) && (numL == 0 ==> Significant(s) == "")
    && (numL > 0 ==> z == TrailingZeros(After(s)))
  }

  lemma ScanStart(flo: string)
    ensures Scanned(flo[..0], 0, 0, 0)
  {
    assert flo[..0] == "";
  }

  lemma ScanEnd(s: string, state: nat, numL: nat, zeroes: nat)
    requires Scanned(s, state, numL, zeroes) && state <= 5
    ensures IsDecimal(s) || IsFraction(s)
    ensures state == 5 <==> IsFraction(s)
    ensures state < 5 ==> Trimmed(s, numL, zeroes)
  {
    hide Significant, IsDecimal, IsFraction;
    if state < 5 {
      DecimalSnoc(s, '0');
    }
    assert '.' !in s ==> TrailingZeros(After(s)) == 0;
  }

  // ----- the second scan: how many digits the denominator has -----

  ghost predicate DenScanned(p: string, state: nat, denL: nat, zeroes: nat) {
    && ('.' in p <==> state > 0) && denL >= 1 && denL - 1 + zeroes == |After(p)|
    && (state == 2 <==> zeroes > 0) && zeroes == TrailingZeros(After(p)) && state <= 2
  }

  /** One more than the number of digits of the fractional part without its trailing zeros. */
  method ScanDenominator(flo: string) returns (denL: nat)
    requires IsDecimal(flo)
    ensures denL == 1 + |After(flo)| - TrailingZeros(After(flo))
  {
    hide After, TrailingZeros, Significant;
    var state: nat, zeroes: nat := 0, 0;
    denL := 1;
    assert DenScanned(flo[..0], state, denL, zeroes) by { DenStart(flo); }
    for i := 0 to |flo|
      invariant DenScanned(flo[..i], state, denL, zeroes)
    {
      var c := flo[i];
      assert flo[..i + 1] == flo[..i] + [c];
      PartsGrow(flo[..i], c);
      NoFraction(flo[..i], c);
      NotTwoPoints(flo, i);
      if state == 0 && IsDigit(c) {
        state := 0;
      } else if state == 0 && c == '.' {
        state := 1;
      } else if state == 1 && IsPosDig(c) {
        state, denL := 1, denL + 1;
      } else if state == 1 && c == '0' {
        state, zeroes := 2, zeroes + 1;
      } else if state == 2 && c == '0' {
        state, zeroes := 2, zeroes + 1;
      } else if state == 2 && IsPosDig(c) {
        state, denL, zeroes := 1, denL + zeroes + 1, 0;
      }
    }
    assert flo[..|flo|] == flo;
  }

  lemma DenStart(flo: string)
    ensures DenScanned(flo[..0], 0, 1, 0)
  {
    assert flo[..0] == "";
  }

  lemma NoFraction(p: string, c: char)
    ensures '.' !in p ==> After(p) == "" && TrailingZeros(After(p)) == 0
    ensures '.' !in p ==> TrailingZeros(After(p + [c])) == 0
  {
    Snoc(p, c);
  }

  lemma NotTwoPoints(s: string, i: nat)
    requires IsDecimal(s) && i < |s|
    ensures IsDigit(s[i]) || (s[i] == '.' && '.' !in s[..i])
  {
    var p := s[..i];
    forall j | 0 <= j < |p| ensures s[i] == '.' ==> p[j] != '.' {
      assert p[j] == s[j];
    }
  }

  // ----- the third pass: the text of the quotient -----

  /** Numerator, slash, a one and zeros, and the terminating NUL. */
  function QuotientText(sig: string, numL: nat, denL: nat): (r: string)
    requires numL <= |sig| && denL >= 1
    ensures |r| == numL + denL + 2
  {
    sig[..numL] + "/1" + Zeros(denL - 1) + ['\0']
  }

  /** The digits copied so far are the significant digits of what was read. */
  lemma CopyStep(flo: string, i: nat, out: string, c: char)
    requires IsDecimal(flo) && i < |flo| && c == flo[i] && out == Significant(flo[..i])
    ensures flo[..i + 1] == flo[..i] + [c]
    ensures Significant(flo[..i + 1]) == if c == '.' || (out == "" && c == '0') then out else out + [c]
    ensures |Significant(flo[..i + 1])| <= |Significant(flo)| && Significant(flo[..i + 1]) <= Significant(flo)
  {
    hide Significant, IsDecimal;
    assert flo[..i + 1] == flo[..i] + [c];
    PartsGrow(flo[..i], c);
    SignificantPrefix(flo, i + 1);
  }

  lemma {:induction false} SignificantPrefix(s: string, i: nat)
    requires i <= |s|
    ensures Significant(s[..i]) <= Significant(s)
    decreases |s| - i
  {
    hide Significant;
    if i < |s| {
      assert s[..i + 1] == s[..i] + [s[i]];
      PartsGrow(s[..i], s[i]);
      SignificantPrefix(s, i + 1);
    } else {
      assert s[..i] == s;
    }
  }

  /** Writes the quotient into a buffer of exactly its length. */
  method WriteQuotient(flo: string, numL: nat, denL: nat) returns (ratTmp: array<char>)
    requires IsDecimal(flo) && numL <= |Significant(flo)| && denL >= 1
    ensures fresh(ratTmp) && ratTmp.Length == numL + denL + 2
    ensures ratTmp[..] == QuotientText(Significant(flo), numL, denL)
  {
    hide Significant, IsDecimal;
    ratTmp := new char[numL + denL + 2];
    ratTmp[0] := '\0';
    var i: nat, j: nat, state: int := 0, 0, -1;
    assert Significant(flo[..0]) == "" by { NothingSignificant(flo); }
    assert flo[..|flo|] == flo;
    while j < numL
      invariant i <= |flo| && j <= numL && ratTmp[..j] == Significant(flo[..i])
      invariant (state == -1 <==> j == 0) && (state == -1 || state == 0)
      invariant fresh(ratTmp)
      decreases |flo| - i
    {
      assert i < |flo|;
      CopyStep(flo, i, ratTmp[..j], flo[i]);
      if state == -1 && flo[i] != '.' && flo[i] != '0' {
        ratTmp[j] := flo[i];
        j, state := j + 1, 0;
      } else if state == -1 && flo[i] == '.' {
      } else if state == -1 && flo[i] == '0' {
      } else if state == 0 && flo[i] != '.' {
        ratTmp[j] := flo[i];
        j := j + 1;
      }
      i := i + 1;
    }
    assert ratTmp[..numL] == Significant(flo)[..numL] by { SignificantPrefix(flo, i); }
    ratTmp[j] := '/';
    ratTmp[j + 1] := '1';
    j := j + 2;
    for k := 0 to denL - 1
      invariant j == numL + 2 + k && ratTmp[..j] == Significant(flo)[..numL] + "/1" + Zeros(k)
      invariant fresh(ratTmp)
    {
      ratTmp[j] := '0';
      j := j + 1;
    }
    ratTmp[j] := '\0';
    assert ratTmp[..] == ratTmp[..j] + ['\0'];
  }

  lemma NothingSignificant(flo: string)
    ensures Significant(flo[..0]) == ""
  {
    assert flo[..0] == "";
  }

  // ----- the value -----

  function SlashAt(text: string): (k: nat)
    ensures k <= |text| && forall i | 0 <= i < k :: text[i] != '/'
    ensures k < |text| ==> text[k] == '/'
  {
    if text == "" then 0
    else
      var k := SlashAt(text[..|text| - 1]);
      if k < |text| - 1 || text[|text| - 1] == '/' then k else |text|
  }

  /** Digits that are not taken for an octal or hexadecimal number. */
  predicate IsNumeral(s: string) {
    AllDigits(s) && s != "" && (s[0] != '0' || |s| == 1)
  }

  /** A numeral, or a numeral over a numeral that is not zero. */
  predicate IsQuotient(text: string) {
    var k := SlashAt(text);
    && IsNumeral(text[..k])
    && (k < |text| ==> IsNumeral(text[k + 1..]) && Val(text[k + 1..]) > 0)
  }

  /** The rational that GMP reads from the text, in canonical form. */
  function Normalize(text: string, negative: bool): Q
    requires IsQuotient(text)
  {
    var k := SlashAt(text);
    var q := Canon(Val(text[..k]), if k < |text| then Val(text[k + 1..]) else 1);
    if negative then Neg(q) else q
  }

  lemma {:induction false} OneAndZeros(n: nat)
    ensures AllDigits("1" + Zeros(n)) && Val("1" + Zeros(n)) == Pow10(n)
  {
    var s := "1" + Zeros(n);
    if n == 0 {
      assert s == "1" && s[..0] == "";
    } else {
      OneAndZeros(n - 1);
      assert s[..n] == "1" + Zeros(n - 1);
    }
  }

  lemma {:induction false} SlashAfterDigits(a: string, b: string)
    requires AllDigits(a) && AllDigits(b)
    ensures SlashAt(a + "/" + b) == |a|
  {
    var t := a + "/" + b;
    var k := SlashAt(t);
    assert t[|a|] == '/';
    assert forall i | 0 <= i < |a| :: t[i] == a[i];
    assert forall i | 0 <= i < |b| :: t[|a| + 1 + i] == b[i];
  }

  /** The text is a numerator without leading zeros over a power of ten. */
  lemma QuotientParts(num: string, denL: nat)
    requires AllDigits(num) && num != "" && num[0] != '0' && denL >= 1
    ensures var text := num + "/1" + Zeros(denL - 1);
      && IsQuotient(text) && Normalize(text, false) == Canon(Val(num), Pow10(denL - 1))
      && Normalize(text, true) == Neg(Canon(Val(num), Pow10(denL - 1)))
  {
    hide Val, Canon;
    var den := "1" + Zeros(denL - 1);
    var text := num + "/1" + Zeros(denL - 1);
    OneAndZeros(denL - 1);
    assert text == num + "/" + den;
    SlashAfterDigits(num, den);
    assert text[..|num|] == num && text[|num| + 1..] == den;
  }

  /** Fractions that agree after scaling have the same canonical form. */
  lemma CanonScaled(n: nat, d: nat, z: nat)
    requires d > 0 && z > 0
    ensures d * z > 0 && Canon(n * z, d * z) == Canon(n, d)
  {
    hide Canon;
    CanonLowest(n, d);
    var c := Canon(n, d);
    calc {
      c.num * (d * z);
      (c.num * d) * z;
      (n * c.den) * z;
      (n * z) * c.den;
    }
    IsCanon(c, n * z, d * z);
  }

  /** Numerator and denominator as counted have the value of the literal. */
  lemma QuotientValue(s: string, numL: nat, z: nat)
    requires IsDecimal(s) && Trimmed(s, numL, z) && numL > 0
    ensures AllDigits(Digits(s)) && AllDigits(Significant(s)[..numL]) && Significant(s)[..numL] != "" && Significant(s)[0] != '0'
    ensures Canon(Val(Significant(s)[..numL]), Pow10(|After(s)| - TrailingZeros(After(s)))) == LiteralValue(s, false)
  {
    hide Canon, After, Pow10;
    DigitsAreDigits(s);
    WithoutZerosDigits(Digits(s));
    var sig := Significant(s);
    ValScaled(sig, z);
    assert sig[..|sig| - z] == sig[..numL];
    var f := |After(s)| - z;
    PowAdd(f, z);
    CanonScaled(Val(sig[..numL]), Pow10(f), Pow10(z));
  }

  /** A literal without significant digits is zero. */
  lemma ZeroValue(s: string)
    requires IsDecimal(s) && Significant(s) == ""
    ensures AllDigits(Digits(s)) && LiteralValue(s, false) == Q(0, 1) && LiteralValue(s, true) == Q(0, 1)
  {
    hide IsDecimal, Canon, After, Pow10, Digits, WithoutZeros;
    DigitsAreDigits(s);
    WithoutZerosDigits(Digits(s));
    assert Val(Digits(s)) == 0;
    CanonZero(Pow10(|After(s)|));
  }

  lemma NormalizeZero(t: string)
    requires |t| == 1 && t[0] == '0'
    ensures IsQuotient(t) && Normalize(t, false) == Q(0, 1)
  {
    hide Canon, Val, SlashAt, IsQuotient, Normalize;
    DigitZero(t);
    WithoutSlash(t);
    var one := 1;
    CanonZero(one);
  }

  lemma DigitZero(t: string)
    requires |t| == 1 && t[0] == '0'
    ensures AllDigits(t) && Val(t) == 0
  {
    assert t[..0] == "";
  }

  lemma WithoutSlash(t: string)
    requires IsNumeral(t)
    ensures IsQuotient(t) && Normalize(t, false) == Canon(Val(t), 1)
  {
    hide Canon, Val, SlashAt;
    var k := SlashAt(t);
    assert k == |t| && t[..k] == t;
  }

  lemma CanonZero(d: nat)
    requires d > 0
    ensures Canon(0, d) == Q(0, 1) && Neg(Canon(0, d)) == Q(0, 1)
  {
    assert Bezout(0, 1, 0, 1) == 1;
    IsCanon(Q(0, 1), 0, d);
  }

  /** The literal without its sign. */
  function Unsigned(flo: string): string {
    if flo != "" && flo[0] == '-' then flo[1..] else flo
  }

  /** Converts a literal to a rational.  Decimals get their exact value; the text of a fraction is
      handed on as it is. */
  method StringToRational(flo: string) returns (r: Outcome)
    ensures r.Malformed? <==> !IsDecimal(Unsigned(flo)) && !IsFraction(Unsigned(flo))
    ensures IsFraction(Unsigned(flo)) ==> r == FractionText(Unsigned(flo), flo[0] == '-')
    ensures IsDecimal(Unsigned(flo)) ==>
              AllDigits(Digits(Unsigned(flo))) && r == Rational(LiteralValue(Unsigned(flo), flo != "" && flo[0] == '-'))
  {
    hide IsDecimal, IsFraction, LiteralValue, Normalize, Significant, After, Trimmed, Canon;
    var s, isNeg := flo, false;
    if flo != "" && flo[0] == '-' {
      s, isNeg := flo[1..], true;
    }
    var ok, isFrac, numL := ScanNumerator(s);
    if !ok {
      return Malformed;
    }
    EitherKind(s);
    if isFrac {
      return FractionText(s, isNeg);
    }
    ghost var z: nat :| Trimmed(s, numL, z);
    TrimmedFacts(s, numL, z);
    if numL == 0 {
      ZeroValue(s);
      var zero := "0";
      NormalizeZero(zero);
      return Rational(Normalize(zero, false));
    }
    var denL := ScanDenominator(s);
    var ratTmp := WriteQuotient(s, numL, denL);
    var text := ratTmp[..numL + denL + 1];
    QuotientValue(s, numL, z);
    QuotientParts(Significant(s)[..numL], denL);
    assert text == Significant(s)[..numL] + "/1" + Zeros(denL - 1);
    Signed(s, isNeg);
    r := Rational(Normalize(text, isNeg));
  }

  lemma EitherKind(s: string)
    ensures IsFraction(s) ==> s != "" && !IsDecimal(s)
  {
    if IsDecimal(s) {
      DecimalSnoc(s, '0');
    }
  }

  lemma TrimmedFacts(s: string, numL: nat, z: nat)
    requires Trimmed(s, numL, z)
    ensures numL <= |Significant(s)| && (numL == 0 ==> Significant(s) == "")
  {
  }

  lemma Signed(s: string, negative: bool)
    requires AllDigits(Digits(s))
    ensures LiteralValue(s, negative) == if negative then Neg(LiteralValue(s, false)) else LiteralValue(s, false)
  {
  }

  // ----- the literals of the SMT-LIB Standard 2.6, section 3.1 -----

  /** A numeral, or a numeral, a point and at least one digit. */
  ghost predicate StdLiteral(s: string) {
    || IsNumeral(s)
    || exists k | 0 <= k < |s| :: StdPoint(s, k)
  }

  predicate StdPoint(s: string, k: nat)
    requires k < |s|
  {
    s[k] == '.' && IsNumeral(s[..k]) && k + 1 < |s| && AllDigits(s[k + 1..])
  }

  /** Digits before and after the point, and no zero before another digit. */
  predicate Tidy(s: string) {
    s != "" && s[0] != '.' && s[|s| - 1] != '.' && !(|s| >= 2 && s[0] == '0' && s[1] != '.')
  }

  /** Every literal of the Standard is accepted as a decimal; the decimals accepted that are literals of
      the Standard are the tidy ones. */
  lemma StandardLiterals(s: string)
    ensures StdLiteral(s) <==> IsDecimal(s) && Tidy(s)
  {
    if IsNumeral(s) {
      NumeralTidy(s);
    }
    if k :| 0 <= k < |s| && StdPoint(s, k) {
      PointTidy(s, k);
    }
    if IsDecimal(s) && Tidy(s) {
      if '.' in s {
        var k :| 0 <= k < |s| && s[k] == '.';
        TidyPoint(s, k);
      } else {
        forall i | 0 <= i < |s| ensures IsDigit(s[i]) {
          assert s[i] in s;
        }
      }
    }
  }

  lemma NumeralTidy(s: string)
    requires IsNumeral(s)
    ensures IsDecimal(s) && Tidy(s)
  {
  }

  lemma PointTidy(s: string, k: nat)
    requires k < |s| && StdPoint(s, k)
    ensures IsDecimal(s) && Tidy(s)
  {
    var a, b := s[..k], s[k + 1..];
    forall i | 0 <= i < |s| ensures i == k || IsDigit(s[i]) {
      assert i < k ==> s[i] == a[i];
      assert i > k ==> s[i] == b[i - k - 1];
    }
    assert a[0] == s[0] && (k > 1 ==> a[0] != '0');
  }

  lemma TidyPoint(s: string, k: nat)
    requires IsDecimal(s) && Tidy(s) && k < |s| && s[k] == '.'
    ensures StdPoint(s, k)
  {
    var a, b := s[..k], s[k + 1..];
    assert forall i | 0 <= i < |a| :: a[i] == s[i];
    assert forall i | 0 <= i < |b| :: b[i] == s[i + k + 1];
    assert k >= 2 ==> s[1] != '.';
  }

  /** Accepted, with a value, and not a literal of the Standard: the empty text, a point alone, a point
      without digits on one side, and leading zeros. */
  lemma UntidyAccepted(s: string, d: char, e: char)
    requires IsDigit(d) && IsDigit(e)
    requires s == "" || s == "." || s == [d, '.'] || s == ['.', d] || s == ['0', d] || s == ['0', d, '.', e]
    ensures IsDecimal(s) && !StdLiteral(s)
  {
    StandardLiterals(s);
  }
}
