/** Cross-currency conversion in exact integers (core/money.js), the foreign-rail simulator's second
    copy of it, and the slippage check. Rates are decimal strings; a rate text denotes a rational. */
module Money {
  import opened Arithmetic
  import opened Text
  import opened Decimal

  datatype MoneyError = UnknownCurrency | InvalidRate | ZeroRate | DivisionByZero

  const ISO_4217_MINOR: map<string, nat> := map[
    "GHS" := 2, "USD" := 2, "EUR" := 2, "GBP" := 2, "NGN" := 2, "KES" := 2, "UGX" := 0, "TZS" := 2,
    "RWF" := 0, "ZAR" := 2, "EGP" := 2, "MAD" := 2, "ETB" := 2, "XOF" := 0, "XAF" := 0, "JPY" := 0,
    "KRW" := 0, "CNY" := 2, "INR" := 2, "AED" := 2, "TND" := 3, "BHD" := 3, "KWD" := 3, "OMR" := 3,
    "JOD" := 3]

  /** BigInt's `/`: truncation toward zero. */
  function TruncDiv(a: int, b: int): int
    requires b != 0
  {
    var q := (if a < 0 then -a else a) / (if b < 0 then -b else b);
    if (a < 0) == (b < 0) then q else -q
  }

  /** `divFloor`: BigInt division corrected by one when the signs differ and it was inexact. */
  function DivFloor(minor: int, s: int): Result<int, MoneyError> {
    if s == 0 then Err(DivisionByZero)
    else
      var q := TruncDiv(minor, s);
      Ok(if (minor < 0) != (s < 0) && q * s != minor then q - 1 else q)
  }

  lemma DivFloorPositiveDivisor(minor: int, s: int)
    requires s > 0
    ensures var q := DivFloor(minor, s).value; 0 <= minor - q * s < s
  {
    var a, r := (if minor < 0 then -minor else minor) / s, (if minor < 0 then -minor else minor) % s;
    assert (if minor < 0 then -minor else minor) == a * s + r;
    Negations(a, s);
  }

  lemma DivFloorNegativeDivisor(minor: int, s: int)
    requires s < 0
    ensures var q := DivFloor(minor, s).value; s < minor - q * s <= 0
  {
    var d := -s;
    var m := if minor < 0 then -minor else minor;
    var a, r := m / d, m % d;
    assert m == a * d + r;
    Negations(a, s);
    assert a * d == -(a * s);
    if minor < 0 {
      assert DivFloor(minor, s).value == a && minor - a * s == -r;
    } else if r == 0 {
      assert DivFloor(minor, s).value == -a && minor - (-a) * s == r;
    } else {
      assert DivFloor(minor, s).value == -a - 1 && minor - (-a - 1) * s == r + s;
    }
  }

  lemma Negations(a: int, s: int)
    ensures (-a) * s == -(a * s)
    ensures a * -s == -(a * s)
    ensures (-a - 1) * s == -(a * s) - s
  {
  }

  /** `divFloor` rounds toward minus infinity for every sign of both operands (the remainder left
      over has the divisor's sign and is smaller than it), and refuses only a zero divisor. */
  lemma DivFloorIsFloor(minor: int, s: int)
    ensures DivFloor(minor, s) == Err(DivisionByZero) <==> s == 0
    ensures s > 0 ==> var q := DivFloor(minor, s).value; 0 <= minor - q * s < s
    ensures s < 0 ==> var q := DivFloor(minor, s).value; s < minor - q * s <= 0
  {
    if s > 0 {
      DivFloorPositiveDivisor(minor, s);
    } else if s < 0 {
      DivFloorNegativeDivisor(minor, s);
    }
  }

  lemma FloorOfNegative(n: int, d: nat)
    requires n < 0 < d
    ensures n / d == if (-n) % d == 0 then -((-n) / d) else -((-n) / d) - 1
  {
    var a, r := (-n) / d, (-n) % d;
    assert -n == a * d + r;
    if r == 0 {
      assert n == (-a) * d + 0;
      DivUnique(n, d, -a, 0);
    } else {
      assert n == (-a - 1) * d + (d - r);
      DivUnique(n, d, -a - 1, d - r);
    }
  }

  // ----- rate texts

  /** /^\d+(\.\d+)?$/ */
  predicate IsRateText(rate: string) {
    var dot := Find(rate, '.');
    && dot > 0
    && AllDigits(rate[..dot])
    && (dot < |rate| ==> dot + 1 < |rate| && AllDigits(rate[dot + 1..]))
  }

  /** The rate's digits without the point, as an integer. */
  function Mantissa(rate: string): nat
    requires IsRateText(rate)
  {
    var whole := rate[..Find(rate, '.')];
    assert AllDigits(whole + Fraction(rate));
    Parse(whole + Fraction(rate))
  }

  function Scale(rate: string): nat {
    |Fraction(rate)|
  }

  /** The conversion on minor-digit counts, once the text has been accepted: the exponent decides
      whether to multiply or to divide. */
  function Convert(pay: int, payDigits: nat, recvDigits: nat, rate: string): int
    requires IsRateText(rate)
  {
    var exponent := recvDigits - payDigits - Scale(rate);
    var numerator := pay * Mantissa(rate);
    if exponent >= 0 then numerator * Pow10(exponent) else TruncDiv(numerator, Pow10(-exponent))
  }

  function ConvertMinor(pay: int, payCurrency: string, recvCurrency: string, rate: string): Result<int, MoneyError> {
    if payCurrency !in ISO_4217_MINOR || recvCurrency !in ISO_4217_MINOR then Err(UnknownCurrency)
    else if !IsRateText(rate) then Err(InvalidRate)
    else if Mantissa(rate) == 0 then Err(ZeroRate)
    else Ok(Convert(pay, ISO_4217_MINOR[payCurrency], ISO_4217_MINOR[recvCurrency], rate))
  }

  // ----- what a conversion means

  /** pay * rate, in receive-minor units, is the fraction ExactNumerator / ExactDenominator. */
  ghost function ExactNumerator(pay: int, recvDigits: nat, rate: string): int
    requires IsRateText(rate)
  {
    pay * Mantissa(rate) * Pow10(recvDigits)
  }

  ghost function ExactDenominator(payDigits: nat, rate: string): nat {
    Pow10(payDigits + Scale(rate))
  }

  lemma DivCancel(n: int, d: nat, k: nat)
    requires d > 0 && k > 0
    ensures d * k > 0 && (n * k) / (d * k) == n / d
  {
    var q, r := n / d, n % d;
    assert n == q * d + r;
    CancelRemainder(q, r, d, k);
    DivUnique(n * k, d * k, q, r * k);
  }

  lemma CancelRemainder(q: int, r: nat, d: nat, k: nat)
    requires r < d && k > 0
    ensures (q * d + r) * k == q * (d * k) + r * k && r * k < d * k && d * k > 0
  {
    MultipleBound(d - r, k);
    assert (d - r) * k == d * k - r * k;
    assert q * d * k == q * (d * k);
  }

  lemma TruncCancel(n: int, d: nat, k: nat)
    requires d > 0 && k > 0
    ensures d * k > 0 && TruncDiv(n * k, d * k) == TruncDiv(n, d)
  {
    if n >= 0 {
      DivCancel(n, d, k);
      MultipleBound(d, k);
    } else {
      DivCancel(-n, d, k);
      assert (-n) * k == -(n * k);
      MultipleBound(-n, k);
    }
  }

  lemma MultiplyingBranch(n: int, t: nat, d: nat, r: nat)
    requires d > 0 && r == t * d
    ensures TruncDiv(n * r, d) == n * t
  {
    TruncCancel(n * t, 1, d);
    assert n * r == n * t * d;
  }

  lemma DividingBranch(n: int, t: nat, d: nat, r: nat)
    requires t > 0 && r > 0 && d == t * r
    ensures d > 0 && TruncDiv(n * r, d) == TruncDiv(n, t)
  {
    TruncCancel(n, t, r);
  }

  /** Whichever branch the exponent takes, the result is one division of the exact fraction,
      truncated toward zero. */
  lemma ConvertIsExactQuotient(pay: int, payDigits: nat, recvDigits: nat, rate: string)
    requires IsRateText(rate)
    ensures Convert(pay, payDigits, recvDigits, rate)
         == TruncDiv(ExactNumerator(pay, recvDigits, rate), ExactDenominator(payDigits, rate))
  {
    var e := recvDigits - payDigits - Scale(rate);
    var n := pay * Mantissa(rate);
    if e >= 0 {
      Pow10Add(e, payDigits + Scale(rate));
      MultiplyingBranch(n, Pow10(e), ExactDenominator(payDigits, rate), Pow10(recvDigits));
    } else {
      Pow10Add(-e, recvDigits);
      DividingBranch(n, Pow10(-e), ExactDenominator(payDigits, rate), Pow10(recvDigits));
    }
  }

  lemma FloorBounds(n: int, d: nat)
    requires d > 0
    ensures n / d * d <= n < (n / d + 1) * d
  {
    assert n == n / d * d + n % d;
  }

  lemma ProductSign(a: int, b: nat, c: nat)
    requires c > 0
    ensures a >= 0 ==> a * b * c >= 0
    ensures a < 0 ==> a * b * c <= 0
  {
    if a >= 0 {
      assert a * b >= 0;
    } else {
      assert (-a) * b >= 0 && (-a) * b * c >= 0;
      assert (-a) * b * c == -(a * b * c);
    }
  }

  lemma TruncOfNegative(n: int, d: nat)
    requires n < 0 < d
    ensures TruncDiv(n, d) * d >= n
    ensures n < (TruncDiv(n, d) + 1) * d
    ensures TruncDiv(n, d) * d == n <==> n % d == 0
  {
    var a, r := (-n) / d, (-n) % d;
    assert -n == a * d + r;
    assert (-a) * d == -(a * d) && (-a + 1) * d == -(a * d) + d;
    FloorOfNegative(n, d);
    assert n == n / d * d + n % d;
    assert (-a - 1) * d == -(a * d) - d;
  }

  /** The conversion is the floor of the exact rational product for every non-negative amount; for
      a negative one exactly when the product is a whole number of minor units. */
  lemma ConvertFloors(pay: int, payDigits: nat, recvDigits: nat, rate: string)
    requires IsRateText(rate)
    ensures var r := Convert(pay, payDigits, recvDigits, rate);
      var n, d := ExactNumerator(pay, recvDigits, rate), ExactDenominator(payDigits, rate);
      r * d <= n < (r + 1) * d <==> pay >= 0 || n % d == 0
  {
    ConvertIsExactQuotient(pay, payDigits, recvDigits, rate);
    var n, d := ExactNumerator(pay, recvDigits, rate), ExactDenominator(payDigits, rate);
    ProductSign(pay, Mantissa(rate), Pow10(recvDigits));
    if n < 0 {
      TruncOfNegative(n, d);
    } else {
      FloorBounds(n, d);
      if pay < 0 {
        assert n == 0 && 0 % d == 0 by { DivUnique(0, d, 0, 0); }
      }
    }
  }

  lemma CrossEqual(n1: int, d1: nat, n2: int, d2: nat)
    requires d1 > 0 && d2 > 0 && n1 * d2 == n2 * d1
    ensures TruncDiv(n1, d1) == TruncDiv(n2, d2)
  {
    TruncCancel(n1, d1, d2);
    TruncCancel(n2, d2, d1);
    assert d1 * d2 == d2 * d1;
  }

  /** The rates denote the same rational number. */
  predicate SameRate(r1: string, r2: string)
    requires IsRateText(r1) && IsRateText(r2)
  {
    Mantissa(r1) * Pow10(Scale(r2)) == Mantissa(r2) * Pow10(Scale(r1))
  }

  lemma CrossMultiply(pay: int, m1: nat, m2: nat, r: nat, p: nat, s1: nat, s2: nat)
    requires m1 * s2 == m2 * s1
    ensures (pay * m1 * r) * (p * s2) == (pay * m2 * r) * (p * s1)
  {
    var k := pay * r * p;
    assert (pay * m1 * r) * (p * s2) == k * (m1 * s2);
    assert (pay * m2 * r) * (p * s1) == k * (m2 * s1);
  }

  /** Only the number a rate denotes matters, not how it is written. */
  lemma ConvertDependsOnRateValue(pay: int, payDigits: nat, recvDigits: nat, r1: string, r2: string)
    requires IsRateText(r1) && IsRateText(r2) && SameRate(r1, r2)
    ensures Convert(pay, payDigits, recvDigits, r1) == Convert(pay, payDigits, recvDigits, r2)
  {
    ConvertIsExactQuotient(pay, payDigits, recvDigits, r1);
    ConvertIsExactQuotient(pay, payDigits, recvDigits, r2);
    Pow10Add(payDigits, Scale(r1));
    Pow10Add(payDigits, Scale(r2));
    CrossMultiply(pay, Mantissa(r1), Mantissa(r2), Pow10(recvDigits), Pow10(payDigits), Pow10(Scale(r1)),
      Pow10(Scale(r2)));
    CrossEqual(ExactNumerator(pay, recvDigits, r1), ExactDenominator(payDigits, r1),
      ExactNumerator(pay, recvDigits, r2), ExactDenominator(payDigits, r2));
  }

  lemma FindInPrefix(s: string, t: string, c: char)
    ensures Find(s, c) < |s| ==> Find(s + t, c) == Find(s, c)
    ensures Find(s, c) == |s| ==> Find(s + t, c) == |s| + Find(t, c)
  {
    var i, j := Find(s, c), Find(s + t, c);
    assert forall k :: 0 <= k < |s| ==> (s + t)[k] == s[k];
    assert forall k :: 0 <= k < |t| ==> (s + t)[|s| + k] == t[k];
    if i < |s| {
      assert (s + t)[i] == c;
    } else if Find(t, c) < |t| {
      assert (s + t)[|s| + Find(t, c)] == c;
    }
  }

  /** The rate text with k more fraction digits, all zero. */
  function WithZeros(rate: string, k: nat): string {
    rate + (if Find(rate, '.') < |rate| then "" else ".") + Repeat('0', k)
  }

  lemma WithZerosText(rate: string, k: nat)
    requires IsRateText(rate) && k > 0
    ensures var dot, longer := Find(rate, '.'), WithZeros(rate, k);
      Find(longer, '.') == dot && longer[..dot] == rate[..dot] && Fraction(longer) == Fraction(rate) + Repeat('0', k)
  {
    var dot, zeros, longer := Find(rate, '.'), Repeat('0', k), WithZeros(rate, k);
    var suffix := (if dot < |rate| then "" else ".") + zeros;
    assert longer == rate + suffix;
    FindInPrefix(rate, suffix, '.');
    assert longer[..dot] == rate[..dot];
    if dot == |rate| {
      assert suffix[0] == '.' && Fraction(rate) == "";
      assert Find(longer, '.') == dot && longer[dot + 1..] == zeros == "" + zeros;
    } else {
      assert longer[dot + 1..] == rate[dot + 1..] + zeros;
    }
  }

  lemma WithZerosIsRate(rate: string, k: nat)
    requires IsRateText(rate) && k > 0
    ensures IsRateText(WithZeros(rate, k)) && Scale(WithZeros(rate, k)) == Scale(rate) + k
  {
    WithZerosText(rate, k);
    var dot, longer := Find(rate, '.'), WithZeros(rate, k);
    assert longer[dot + 1..] == Fraction(rate) + Repeat('0', k);
  }

  lemma WithZerosMantissa(rate: string, k: nat)
    requires IsRateText(rate) && k > 0 && IsRateText(WithZeros(rate, k))
    ensures Mantissa(WithZeros(rate, k)) == Mantissa(rate) * Pow10(k)
  {
    WithZerosText(rate, k);
    var whole, fraction := rate[..Find(rate, '.')], Fraction(rate);
    assert whole + (fraction + Repeat('0', k)) == (whole + fraction) + Repeat('0', k);
    ParseTrailingZeros(whole + fraction, k);
  }

  /** Writing k zeros after the last digit (and a point first, if there is none) leaves every
      conversion unchanged. */
  lemma TrailingZerosInRate(pay: int, payDigits: nat, recvDigits: nat, rate: string, k: nat)
    requires IsRateText(rate) && k > 0
    ensures IsRateText(WithZeros(rate, k))
    ensures Convert(pay, payDigits, recvDigits, WithZeros(rate, k)) == Convert(pay, payDigits, recvDigits, rate)
  {
    WithZerosIsRate(rate, k);
    WithZerosMantissa(rate, k);
    SameRateWithZeros(rate, WithZeros(rate, k), k);
    ConvertDependsOnRateValue(pay, payDigits, recvDigits, WithZeros(rate, k), rate);
  }

  lemma SameRateWithZeros(rate: string, longer: string, k: nat)
    requires IsRateText(rate) && IsRateText(longer)
    requires Scale(longer) == Scale(rate) + k && Mantissa(longer) == Mantissa(rate) * Pow10(k)
    ensures SameRate(longer, rate)
  {
    PowersMultiply(Scale(rate), k, Scale(longer));
    Regroup(Mantissa(rate), Pow10(k), Pow10(Scale(rate)), Mantissa(longer), Pow10(Scale(longer)));
  }

  lemma PowersMultiply(j: nat, k: nat, sum: nat)
    requires sum == j + k
    ensures Pow10(sum) == Pow10(j) * Pow10(k)
  {
    Pow10Add(j, k);
  }

  lemma Regroup(m: nat, p: nat, q: nat, mp: nat, qp: nat)
    requires mp == m * p && qp == q * p
    ensures mp * q == m * qp
  {
    assert m * p * q == m * (q * p);
  }

  lemma FloorSum(a: int, b: int, d: nat)
    requires d > 0
    ensures a / d + b / d <= (a + b) / d <= a / d + b / d + 1
  {
    var s := a / d + b / d;
    FloorBounds(a, d);
    FloorBounds(b, d);
    assert s * d == a / d * d + b / d * d;
    var r := a + b - s * d;
    if r < d {
      DivUnique(a + b, d, s, r);
    } else {
      assert (s + 1) * d == s * d + d;
      DivUnique(a + b, d, s + 1, r - d);
    }
  }

  lemma DistributeProduct(a: int, b: int, m: int, p: int)
    ensures (a + b) * m * p == a * m * p + b * m * p
  {
    assert (a + b) * m == a * m + b * m;
  }

  /** Converting two amounts separately never yields more than converting their sum, and at most
      one minor unit less. */
  lemma ConvertSuperadditive(a: nat, b: nat, payDigits: nat, recvDigits: nat, rate: string)
    requires IsRateText(rate)
    ensures var ca, cb, cs := Convert(a, payDigits, recvDigits, rate),
        Convert(b, payDigits, recvDigits, rate), Convert(a + b, payDigits, recvDigits, rate);
      ca + cb <= cs <= ca + cb + 1
  {
    ConvertIsExactQuotient(a, payDigits, recvDigits, rate);
    ConvertIsExactQuotient(b, payDigits, recvDigits, rate);
    ConvertIsExactQuotient(a + b, payDigits, recvDigits, rate);
    var m, p := Mantissa(rate), Pow10(recvDigits);
    ProductSign(a, m, p);
    ProductSign(b, m, p);
    ProductSign(a + b, m, p);
    DistributeProduct(a, b, m, p);
    FloorSum(a * m * p, b * m * p, ExactDenominator(payDigits, rate));
  }

  lemma ProductMonotone(a: int, b: int, k: nat)
    requires a <= b
    ensures a * k <= b * k
  {
    assert (b - a) * k >= 0;
  }

  lemma Distribute(a: int, b: int, k: int)
    ensures (a - b) * k == a * k - b * k
  {
  }

  lemma CancelBound(a: int, b: int, k: nat)
    requires k > 0 && a * k <= b * k
    ensures a <= b
  {
    if a > b {
      Distribute(a, b, k);
      MultipleBound(a - b, k);
    }
  }

  /** With c1 a floor of pay times one rate and c2 a floor of c1 times the other. */
  lemma RoundTripBound(pay: nat, m1: nat, s1: nat, m2: nat, s2: nat, a: nat, b: nat, c1: nat, c2: nat)
    requires a > 0 && b > 0 && s1 > 0 && s2 > 0
    requires m1 * m2 <= s1 * s2
    requires c1 * (a * s1) <= pay * m1 * b
    requires c2 * (b * s2) <= c1 * m2 * a
    ensures c2 <= pay
  {
    ProductMonotone(c2 * (b * s2), c1 * m2 * a, a * s1);
    ProductMonotone(c1 * (a * s1), pay * m1 * b, m2 * a);
    ProductMonotone(m1 * m2, s1 * s2, pay * (a * b));
    Product1(c2, a, b, s1, s2);
    Product2(c1, a, s1, m2);
    Product3(pay, m1, m2, a, b);
    Product4(pay, a, b, s1, s2);
    assert a * b > 0 && s1 * s2 > 0 && a * b * (s1 * s2) > 0;
    CancelBound(c2, pay, a * b * (s1 * s2));
  }

  lemma Product1(c: int, a: int, b: int, s: int, t: int)
    ensures c * (b * t) * (a * s) == c * (a * b * (s * t))
  {
  }

  lemma Product2(c: int, a: int, s: int, m: int)
    ensures c * m * a * (a * s) == c * (a * s) * (m * a)
  {
  }

  lemma Product3(p: int, m: int, n: int, a: int, b: int)
    ensures p * m * b * (n * a) == m * n * (p * (a * b))
  {
  }

  lemma Product4(p: int, a: int, b: int, s: int, t: int)
    ensures s * t * (p * (a * b)) == p * (a * b * (s * t))
  {
  }

  /** Converting out at one rate and back at another never gains when the two rates multiply to at
      most 1, whatever the two currencies' minor digits. */
  lemma RoundTripNeverGains(pay: nat, aDigits: nat, bDigits: nat, out: string, back: string)
    requires IsRateText(out) && IsRateText(back)
    requires Mantissa(out) * Mantissa(back) <= Pow10(Scale(out)) * Pow10(Scale(back))
    ensures Convert(Convert(pay, aDigits, bDigits, out), bDigits, aDigits, back) <= pay
  {
    var c1 := Convert(pay, aDigits, bDigits, out);
    ConvertNonNegative(pay, aDigits, bDigits, out);
    ConvertNonNegative(c1, bDigits, aDigits, back);
    Pow10Add(aDigits, Scale(out));
    Pow10Add(bDigits, Scale(back));
    RoundTripBound(pay, Mantissa(out), Pow10(Scale(out)), Mantissa(back), Pow10(Scale(back)),
      Pow10(aDigits), Pow10(bDigits), c1, Convert(c1, bDigits, aDigits, back));
  }

  lemma ConvertNonNegative(pay: nat, payDigits: nat, recvDigits: nat, rate: string)
    requires IsRateText(rate)
    ensures var r := Convert(pay, payDigits, recvDigits, rate);
      r >= 0 && r * ExactDenominator(payDigits, rate) <= ExactNumerator(pay, recvDigits, rate)
  {
    ConvertIsExactQuotient(pay, payDigits, recvDigits, rate);
    ProductSign(pay, Mantissa(rate), Pow10(recvDigits));
    NonNegativeQuotient(ExactNumerator(pay, recvDigits, rate), ExactDenominator(payDigits, rate));
  }

  lemma NonNegativeQuotient(n: nat, d: nat)
    requires d > 0
    ensures TruncDiv(n, d) >= 0 && TruncDiv(n, d) * d <= n
  {
    TruncOfNatural(n, d);
    QuotientNonNegative(n, d);
    FloorBounds(n, d);
  }

  lemma TruncOfNatural(n: nat, d: nat)
    requires d > 0
    ensures TruncDiv(n, d) == n / d
  {
  }

  lemma QuotientNonNegative(n: nat, d: nat)
    requires d > 0
    ensures n / d >= 0
  {
  }

  // ----- the conversion by currency

  /** `convertMinor` answers exactly for two known currencies and a rate above zero. */
  predicate Convertible(payCurrency: string, recvCurrency: string, rate: string) {
    payCurrency in ISO_4217_MINOR && recvCurrency in ISO_4217_MINOR && IsRateText(rate) && Mantissa(rate) > 0
  }

  /** The whole contract of `convertMinor`: when it answers, and that the answer to a non-negative amount is the
      largest amount of the receiving currency that is worth no more at the rate. In major units,
      r / 10^receive <= pay / 10^pay * mantissa / 10^scale < (r + 1) / 10^receive. */
  lemma ConvertMinorExactly(pay: int, payCurrency: string, recvCurrency: string, rate: string)
    ensures var r := ConvertMinor(pay, payCurrency, recvCurrency, rate);
      && (r.Ok? <==> Convertible(payCurrency, recvCurrency, rate))
      && (r.Ok? && pay >= 0 ==>
        var worth := pay * Mantissa(rate) * Pow10(ISO_4217_MINOR[recvCurrency]);
        var unit := Pow10(ISO_4217_MINOR[payCurrency] + Scale(rate));
        r.value * unit <= worth < (r.value + 1) * unit)
      && (r.Ok? ==> ConvertMinor(-pay, payCurrency, recvCurrency, rate) == Ok(-r.value))
  {
    if Convertible(payCurrency, recvCurrency, rate) {
      var p, q := ISO_4217_MINOR[payCurrency], ISO_4217_MINOR[recvCurrency];
      ConvertFloors(pay, p, q, rate);
      ConvertOdd(pay, p, q, rate);
    }
  }

  lemma TruncBySign(n: int, d: nat)
    requires d > 0
    ensures TruncDiv(n, d) == if n < 0 then -((-n) / d) else n / d
  {
  }

  lemma ZeroOver(d: nat)
    requires d > 0
    ensures 0 / d == 0
  {
    DivUnique(0, d, 0, 0);
  }

  lemma TruncOdd(n: int, d: nat)
    requires d > 0
    ensures TruncDiv(-n, d) == -TruncDiv(n, d)
  {
    TruncBySign(n, d);
    TruncBySign(-n, d);
    ZeroOver(d);
  }

  lemma ConvertOdd(pay: int, payDigits: nat, recvDigits: nat, rate: string)
    requires IsRateText(rate)
    ensures Convert(-pay, payDigits, recvDigits, rate) == -Convert(pay, payDigits, recvDigits, rate)
  {
    ConvertIsExactQuotient(pay, payDigits, recvDigits, rate);
    ConvertIsExactQuotient(-pay, payDigits, recvDigits, rate);
    NegatedProduct(pay, Mantissa(rate), Pow10(recvDigits));
    TruncOdd(ExactNumerator(pay, recvDigits, rate), ExactDenominator(payDigits, rate));
  }

  lemma NegatedProduct(a: int, b: int, c: int)
    ensures (-a) * b * c == -(a * b * c)
  {
    assert (-a) * b == -(a * b);
    assert (-(a * b)) * c == -(a * b * c);
  }

  /** At rate "1" one major unit of any known currency is one major unit of any other. */
  lemma OneForOne(payCurrency: string, recvCurrency: string)
    requires payCurrency in ISO_4217_MINOR && recvCurrency in ISO_4217_MINOR
    ensures ConvertMinor(Pow10(ISO_4217_MINOR[payCurrency]), payCurrency, recvCurrency, "1")
      == Ok(Pow10(ISO_4217_MINOR[recvCurrency]))
  {
    UnitRate(ISO_4217_MINOR[payCurrency], ISO_4217_MINOR[payCurrency], ISO_4217_MINOR[recvCurrency]);
  }

  /** Paying in one currency and changing the proceeds back never gains when the rates multiply to at most 1. */
  lemma ThereAndBack(pay: nat, payCurrency: string, recvCurrency: string, out: string, back: string)
    requires Convertible(payCurrency, recvCurrency, out) && Convertible(recvCurrency, payCurrency, back)
    requires Mantissa(out) * Mantissa(back) <= Pow10(Scale(out)) * Pow10(Scale(back))
    ensures var there := ConvertMinor(pay, payCurrency, recvCurrency, out).value;
      there >= 0 && ConvertMinor(there, recvCurrency, payCurrency, back).value <= pay
  {
    ConvertNonNegative(pay, ISO_4217_MINOR[payCurrency], ISO_4217_MINOR[recvCurrency], out);
    RoundTripNeverGains(pay, ISO_4217_MINOR[payCurrency], ISO_4217_MINOR[recvCurrency], out, back);
  }

  // ----- the simulator's copy

  /** `computeReceiveMinor`: the same product with the exponents subtracted the other way round,
      and no check of the rate text. */
  function ComputeReceiveMinor(pay: int, rate: string, payDigits: nat, recvDigits: nat): int
    requires IsRateText(rate)
  {
    var numerator := pay * Mantissa(rate);
    var denomDigits := Scale(rate) - (recvDigits - payDigits);
    if denomDigits >= 0 then TruncDiv(numerator, Pow10(denomDigits)) else numerator * Pow10(-denomDigits)
  }

  const SIMULATOR_MINOR: map<string, nat> := map[
    "GHS" := 2, "NGN" := 2, "KES" := 2, "USD" := 2, "EUR" := 2, "GBP" := 2, "JPY" := 0]

  function SimulatorDigits(currency: string): nat {
    if currency in SIMULATOR_MINOR then SIMULATOR_MINOR[currency] else 2
  }

  lemma TruncByOne(n: int)
    ensures TruncDiv(n, 1) == n
  {
  }

  lemma SimulatorSameDigits(pay: int, rate: string, payDigits: nat, recvDigits: nat)
    requires IsRateText(rate)
    ensures ComputeReceiveMinor(pay, rate, payDigits, recvDigits) == Convert(pay, payDigits, recvDigits, rate)
  {
    TruncByOne(pay * Mantissa(rate));
  }

  lemma {:induction false} Pow10Injective(j: nat, k: nat)
    requires Pow10(j) == Pow10(k)
    ensures j == k
  {
    if j > 0 && k > 0 {
      Pow10Injective(j - 1, k - 1);
    }
  }

  /** At rate "1" an amount of 10^k minor units becomes a power of ten, which shows the exponent. */
  lemma UnitRate(k: nat, payDigits: nat, recvDigits: nat)
    requires k >= payDigits
    ensures IsRateText("1") && Mantissa("1") == 1
    ensures Convert(Pow10(k), payDigits, recvDigits, "1") == Pow10(k + recvDigits - payDigits)
  {
    assert "1"[..1] == "1";
    assert Parse("1") == Parse(""[..0]) * 10 + 1 by { assert "1"[..0] == ""; }
    assert "1" + "" == "1";
    var e := recvDigits - payDigits;
    if e >= 0 {
      Pow10Add(k, e);
    } else {
      Pow10Add(k + e, -e);
      TruncCancel(Pow10(k + e), 1, Pow10(-e));
    }
  }

  /** How many more minor digits the second currency has than the first, in either table. */
  function IsoGap(payCurrency: string, recvCurrency: string): int
    requires payCurrency in ISO_4217_MINOR && recvCurrency in ISO_4217_MINOR
  {
    ISO_4217_MINOR[recvCurrency] as int - ISO_4217_MINOR[payCurrency] as int
  }

  function SimulatorGap(payCurrency: string, recvCurrency: string): int {
    SimulatorDigits(recvCurrency) as int - SimulatorDigits(payCurrency) as int
  }

  /** Both implementations give the same answer for this amount, rate and currency pair. */
  predicate Agree(pay: int, rate: string, payCurrency: string, recvCurrency: string)
    requires IsRateText(rate)
  {
    ConvertMinor(pay, payCurrency, recvCurrency, rate)
      == Ok(ComputeReceiveMinor(pay, rate, SimulatorDigits(payCurrency), SimulatorDigits(recvCurrency)))
  }

  /** The two implementations agree on every amount and rate above zero exactly when their digit tables put the
      same distance between the two currencies. */
  lemma SimulatorAgrees(payCurrency: string, recvCurrency: string)
    requires payCurrency in ISO_4217_MINOR && recvCurrency in ISO_4217_MINOR
    ensures SimulatorGap(payCurrency, recvCurrency) == IsoGap(payCurrency, recvCurrency)
       <==> forall pay: int, rate: string | IsRateText(rate) && Mantissa(rate) > 0 ::
         Agree(pay, rate, payCurrency, recvCurrency)
  {
    var p, r := ISO_4217_MINOR[payCurrency], ISO_4217_MINOR[recvCurrency];
    var sp, sr := SimulatorDigits(payCurrency), SimulatorDigits(recvCurrency);
    if SimulatorGap(payCurrency, recvCurrency) == IsoGap(payCurrency, recvCurrency) {
      forall pay: int, rate: string | IsRateText(rate) && Mantissa(rate) > 0
        ensures Agree(pay, rate, payCurrency, recvCurrency)
      {
        SimulatorSameDigits(pay, rate, p, r);
      }
    } else {
      var k := p + sp;
      UnitRate(k, p, r);
      UnitRate(k, sp, sr);
      SimulatorSameDigits(Pow10(k), "1", sp, sr);
      if Pow10(k + r - p) == Pow10(k + sr - sp) {
        Pow10Injective(k + r - p, k + sr - sp);
        assert false;
      }
      assert !Agree(Pow10(k), "1", payCurrency, recvCurrency);
    }
  }

  // ----- slippage between two quoted rates

  const MAX_SAFE_INTEGER := 9007199254740991

  function Max(a: nat, b: nat): nat {
    if a >= b then a else b
  }

  /** The rate as an integer over 10^scale. */
  function Aligned(rate: string, scale: nat): nat
    requires IsRateText(rate)
  {
    var whole, fraction := rate[..Find(rate, '.')], PadEnd(Fraction(rate), scale, '0');
    assert AllDigits(whole + fraction);
    Parse(whole + fraction)
  }

  /** `slippageBps` on two rate texts. */
  function SlippageBps(oldRate: string, newRate: string): int
    requires IsRateText(oldRate) && IsRateText(newRate)
  {
    var scale := Max(Scale(oldRate), Scale(newRate));
    DriftOrMax(Aligned(oldRate, scale), Aligned(newRate, scale))
  }

  function DriftOrMax(o: nat, n: nat): int {
    if o == 0 then MAX_SAFE_INTEGER else Drift(o, n)
  }

  /** floor(|n - o| / o * 10000) */
  function Drift(o: nat, n: nat): nat
    requires o > 0
  {
    (if n > o then n - o else o - n) * 10000 / o
  }

  lemma AlignedValue(rate: string, scale: nat)
    requires IsRateText(rate) && Scale(rate) <= scale
    ensures Aligned(rate, scale) == Mantissa(rate) * Pow10(scale - Scale(rate))
  {
    var whole, fraction, zeros := rate[..Find(rate, '.')], Fraction(rate), Repeat('0', scale - Scale(rate));
    assert PadEnd(fraction, scale, '0') == fraction + zeros;
    assert whole + (fraction + zeros) == (whole + fraction) + zeros;
    ParseTrailingZeros(whole + fraction, scale - Scale(rate));
  }

  lemma ScaledDifference(o: nat, n: nat, t: nat)
    requires t > 0
    ensures (if n > o then n - o else o - n) * t == if n * t > o * t then n * t - o * t else o * t - n * t
  {
    if n > o {
      MultipleBound(n - o, t);
      Distribute(n, o, t);
    } else {
      ProductMonotone(n, o, t);
      Distribute(o, n, t);
    }
  }

  lemma ScaledDrift(o: nat, n: nat, t: nat)
    requires o > 0 && t > 0
    ensures o * t > 0 && Drift(o * t, n * t) == Drift(o, n)
  {
    ScaledDifference(o, n, t);
    var d := if n > o then n - o else o - n;
    Exchange(d, t);
    DivCancel(d * 10000, o, t);
  }

  lemma Exchange(d: int, t: int)
    ensures d * t * 10000 == d * 10000 * t
  {
  }

  /** A rate's mantissa over the common denominator 10^(scale of this rate + scale of the other). */
  function CrossMantissa(rate: string, other: string): nat
    requires IsRateText(rate)
  {
    Mantissa(rate) * Pow10(Scale(other))
  }

  lemma AlignedScaled(rate: string, other: string, scale: nat, extra: nat, rest: nat)
    requires IsRateText(rate) && scale == Scale(rate) + extra && Scale(other) == rest + extra
    ensures Aligned(rate, scale) * Pow10(rest) == CrossMantissa(rate, other)
  {
    AlignedValue(rate, scale);
    CrossPower(other, extra, rest);
    Regroup(Mantissa(rate), Pow10(extra), Pow10(rest), Aligned(rate, scale), Pow10(Scale(other)));
  }

  lemma CrossPower(other: string, extra: nat, rest: nat)
    requires Scale(other) == rest + extra
    ensures Pow10(Scale(other)) == Pow10(rest) * Pow10(extra)
  {
    Pow10Add(rest, extra);
  }

  lemma DriftOfMultiples(o: nat, n: nat, t: nat, ot: nat, nt: nat)
    requires t > 0 && ot == o * t && nt == n * t
    ensures DriftOrMax(ot, nt) == DriftOrMax(o, n)
  {
    if o > 0 {
      ScaledDrift(o, n, t);
    }
  }

  lemma AlignedDrift(oldRate: string, newRate: string, scale: nat, rest: nat, eo: nat, en: nat)
    requires IsRateText(oldRate) && IsRateText(newRate)
    requires Scale(newRate) == rest + eo && Scale(oldRate) == rest + en
    requires scale == Scale(oldRate) + eo == Scale(newRate) + en
    ensures DriftOrMax(Aligned(oldRate, scale), Aligned(newRate, scale))
      == DriftOrMax(CrossMantissa(oldRate, newRate), CrossMantissa(newRate, oldRate))
  {
    AlignedScaled(oldRate, newRate, scale, eo, rest);
    AlignedScaled(newRate, oldRate, scale, en, rest);
    DriftOfMultiples(Aligned(oldRate, scale), Aligned(newRate, scale), Pow10(rest),
      CrossMantissa(oldRate, newRate), CrossMantissa(newRate, oldRate));
  }

  /** The drift is floor(|new - old| / old * 10000) of the two rational rates, so it too depends only
      on the numbers and not on how many digits either text carries. */
  lemma SlippageIsRelativeDrift(oldRate: string, newRate: string)
    requires IsRateText(oldRate) && IsRateText(newRate)
    ensures SlippageBps(oldRate, newRate)
      == DriftOrMax(CrossMantissa(oldRate, newRate), CrossMantissa(newRate, oldRate))
  {
    var so, sn := Scale(oldRate), Scale(newRate);
    var scale := Max(so, sn);
    AlignedDrift(oldRate, newRate, scale, so + sn - scale, scale - so, scale - sn);
  }

  /** In plain terms: with the rates over their common denominator, the largest whole number of ten-thousandths
      of the old rate that the difference holds; and 2^53 - 1 when the old rate is zero. */
  lemma SlippageExactly(oldRate: string, newRate: string)
    requires IsRateText(oldRate) && IsRateText(newRate)
    ensures var o := Mantissa(oldRate) * Pow10(Scale(newRate));
      var n := Mantissa(newRate) * Pow10(Scale(oldRate));
      var d := if n > o then n - o else o - n;
      if o == 0 then SlippageBps(oldRate, newRate) == 9007199254740991
      else SlippageBps(oldRate, newRate) * o <= d * 10000 < (SlippageBps(oldRate, newRate) + 1) * o
  {
    SlippageIsRelativeDrift(oldRate, newRate);
    var o := Mantissa(oldRate) * Pow10(Scale(newRate));
    var n := Mantissa(newRate) * Pow10(Scale(oldRate));
    if o > 0 {
      FloorBounds((if n > o then n - o else o - n) * 10000, o);
    }
  }

  // ----- display

  /** `format`: sign, digits with the currency's decimals, currency code. */
  function Format(minor: int, currency: string): Result<string, MoneyError> {
    if currency !in ISO_4217_MINOR then Err(UnknownCurrency)
    else
      Ok((if minor < 0 then "-" else "") + MinorToDecimal(Print(Magnitude(minor)), ISO_4217_MINOR[currency]) + " "
        + currency)
  }

  lemma MinorToDecimalStart(n: nat, digits: nat)
    ensures var t := MinorToDecimal(Print(n), digits); t != [] && IsDigit(t[0])
  {
    if digits > 0 {
      var major, fraction := SplitMinorParts(Print(n), digits, '.');
    }
  }

  function Magnitude(minor: int): nat {
    if minor < 0 then -minor else minor
  }

  /** The pieces a formatted text is made of can be read off it. */
  lemma FormatParts(minor: int, currency: string)
    requires currency in ISO_4217_MINOR
    ensures var text := Format(minor, currency).value;
      && |text| > 4
      && text[|text| - 3..] == currency
      && (text[0] == '-' <==> minor < 0)
      && text[if minor < 0 then 1 else 0..|text| - 4]
        == MinorToDecimal(Print(Magnitude(minor)), ISO_4217_MINOR[currency])
  {
    MinorToDecimalStart(Magnitude(minor), ISO_4217_MINOR[currency]);
    CurrencyCodeLength(currency);
    TextParts(minor < 0, MinorToDecimal(Print(Magnitude(minor)), ISO_4217_MINOR[currency]), currency);
  }

  lemma CurrencyCodeLength(currency: string)
    requires currency in ISO_4217_MINOR
    ensures |currency| == 3
  {
  }

  lemma TextParts(negative: bool, digits: string, currency: string)
    requires digits != "" && IsDigit(digits[0]) && |currency| == 3
    ensures var text := (if negative then "-" else "") + digits + " " + currency;
      && |text| > 4 && text[|text| - 3..] == currency && (text[0] == '-' <==> negative)
      && text[if negative then 1 else 0..|text| - 4] == digits
  {
    var text := (if negative then "-" else "") + digits + " " + currency;
    assert text[if negative then 1 else 0] == digits[0];
  }

  /** Two amounts print alike only when they are the same amount of the same currency. */
  lemma FormatFaithful(a: int, b: int, c1: string, c2: string)
    requires Format(a, c1).Ok? && Format(a, c1) == Format(b, c2)
    ensures a == b && c1 == c2
  {
    FormatParts(a, c1);
    FormatParts(b, c2);
    PrintCanonical(Magnitude(a));
    PrintCanonical(Magnitude(b));
    DecimalRoundTrip(Print(Magnitude(a)), ISO_4217_MINOR[c1]);
    DecimalRoundTrip(Print(Magnitude(b)), ISO_4217_MINOR[c1]);
    PrintInjective(Magnitude(a), Magnitude(b));
  }
}
