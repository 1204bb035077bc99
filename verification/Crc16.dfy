/** The checksum of the QR payload: CRC-16/CCITT-FALSE as modules/overlays-qr/emvco-encoder.js
    computes it, bit by bit, and what that makes it: the remainder of a polynomial over GF(2) modulo
    x^16 + x^12 + x^5 + 1. Bitwise operators on JavaScript numbers are written out on naturals. */
module Crc16 {
  import opened Text

  type Byte = b: nat | b < 256

  // ----- the program

  /** `a ^ b` on non-negative integers. */
  function Xor(a: nat, b: nat): nat
    decreases a + b
  {
    if a == 0 && b == 0 then 0 else (if a % 2 == b % 2 then 0 else 1) + 2 * Xor(a / 2, b / 2)
  }

  const INITIAL: nat := 0xFFFF
  const WIDTH: nat := 0x10000

  /** One turn of the inner loop: `(crc & 0x8000) ? ((crc << 1) ^ 0x1021) & 0xFFFF : (crc << 1) & 0xFFFF`. */
  function ShiftBit(crc: nat): (r: nat)
    ensures r < WIDTH
  {
    if crc / 0x8000 % 2 == 1 then Xor(2 * crc, 0x1021) % WIDTH else 2 * crc % WIDTH
  }

  function ShiftBits(crc: nat, n: nat): nat {
    if n == 0 then crc else ShiftBit(ShiftBits(crc, n - 1))
  }

  function StepByte(crc: nat, b: Byte): nat {
    ShiftBits(Xor(crc, 256 * (b as nat)), 8)
  }

  function Checksum(bytes: seq<Byte>): nat {
    if bytes == [] then INITIAL else StepByte(Checksum(bytes[..|bytes| - 1]), bytes[|bytes| - 1])
  }

  /** `n.toString(16).toUpperCase()` */
  function Hex(n: nat): string {
    if n < 16 then [HexChar(n)] else Hex(n / 16) + [HexChar(n % 16)]
  }

  function ChecksumText(bytes: seq<Byte>): string {
    PadStart(Hex(Checksum(bytes)), 4, '0')
  }

  method Crc16CcittFalse(bytes: seq<Byte>) returns (text: string)
    ensures text == ChecksumText(bytes)
  {
    var crc := INITIAL;
    for k := 0 to |bytes|
      invariant crc == Checksum(bytes[..k])
    {
      assert bytes[..k + 1][..k] == bytes[..k];
      crc := Xor(crc, 256 * (bytes[k] as nat));
      ghost var mixed := crc;
      for i := 0 to 8
        invariant crc == ShiftBits(mixed, i)
      {
        crc := if crc / 0x8000 % 2 == 1 then Xor(2 * crc, 0x1021) % WIDTH else 2 * crc % WIDTH;
      }
    }
    assert bytes[..|bytes|] == bytes;
    text := PadStart(Hex(crc), 4, '0');
  }

  // ----- polynomials over GF(2): the binary digits of a natural are the coefficients, Xor adds them

  /** `n << k`: times x^k */
  function Shl(n: nat, k: nat): nat {
    if k == 0 then n else 2 * Shl(n, k - 1)
  }

  /** The generator x^16 + x^12 + x^5 + 1 times q. */
  ghost function TimesGenerator(q: nat): nat {
    Xor(Xor(Shl(q, 16), Shl(q, 12)), Xor(Shl(q, 5), q))
  }

  /** The remainder c leaves p a multiple of the generator. */
  ghost predicate Congruent(p: nat, c: nat) {
    exists q: nat :: p == Xor(TimesGenerator(q), c)
  }

  lemma {:induction false} XorParts(a: nat, b: nat)
    ensures Xor(a, b) % 2 == (if a % 2 == b % 2 then 0 else 1)
    ensures Xor(a, b) / 2 == Xor(a / 2, b / 2)
  {
  }

  lemma {:induction false} XorSymmetric(a: nat, b: nat)
    ensures Xor(a, b) == Xor(b, a)
    decreases a + b
  {
    if a + b > 0 {
      XorSymmetric(a / 2, b / 2);
    }
  }

  lemma {:induction false} XorZero(a: nat)
    ensures Xor(a, 0) == a
  {
    if a > 0 {
      XorZero(a / 2);
    }
  }

  lemma {:induction false} XorSelf(a: nat)
    ensures Xor(a, a) == 0
  {
    if a > 0 {
      XorSelf(a / 2);
    }
  }

  lemma {:induction false} XorAssociative(a: nat, b: nat, c: nat)
    ensures Xor(Xor(a, b), c) == Xor(a, Xor(b, c))
    decreases a + b + c
  {
    if a + b + c > 0 {
      XorAssociative(a / 2, b / 2, c / 2);
      var x, y, ab, bc := Xor(Xor(a, b), c), Xor(a, Xor(b, c)), Xor(a, b), Xor(b, c);
      XorParts(a, b);
      XorParts(b, c);
      XorParts(ab, c);
      XorParts(a, bc);
      assert x % 2 == y % 2 && x / 2 == y / 2;
    }
  }

  lemma {:induction false} XorShl(a: nat, b: nat, k: nat)
    ensures Xor(Shl(a, k), Shl(b, k)) == Shl(Xor(a, b), k)
  {
    if k > 0 {
      XorShl(a, b, k - 1);
      XorDouble(Shl(a, k - 1), Shl(b, k - 1));
    }
  }

  /** A sum without carries. */
  lemma {:induction false} XorDisjoint(a: nat, b: nat, k: nat)
    requires b < Shl(1, k)
    ensures Xor(Shl(a, k), b) == Shl(a, k) + b
    decreases k
  {
    if k == 0 {
      XorZero(a);
    } else {
      XorDisjoint(a, b / 2, k - 1);
    }
  }

  lemma {:induction false} XorBelow(a: nat, b: nat, k: nat)
    requires a < Shl(1, k) && b < Shl(1, k)
    ensures Xor(a, b) < Shl(1, k)
    decreases k
  {
    if k > 0 {
      XorBelow(a / 2, b / 2, k - 1);
      XorParts(a, b);
    }
  }

  lemma {:induction false} XorAbove(a: nat, b: nat, k: nat)
    requires b < Shl(1, k) <= a
    ensures Xor(a, b) >= Shl(1, k)
    decreases k
  {
    if k == 0 {
      XorZero(a);
    } else {
      XorAbove(a / 2, b / 2, k - 1);
      XorParts(a, b);
    }
  }

  lemma {:induction false} ShlCompose(n: nat, j: nat, k: nat)
    ensures Shl(Shl(n, j), k) == Shl(n, j + k)
    decreases k
  {
    if k > 0 {
      ShlCompose(n, j, k - 1);
    }
  }

  lemma {:induction false} ShlMonotone(m: nat, n: nat, k: nat)
    ensures m < n <==> Shl(m, k) < Shl(n, k)
  {
    if k > 0 {
      ShlMonotone(m, n, k - 1);
    }
  }

  lemma {:induction false} ShlAdds(m: nat, n: nat, k: nat)
    ensures Shl(m + n, k) == Shl(m, k) + Shl(n, k)
  {
    if k > 0 {
      ShlAdds(m, n, k - 1);
    }
  }

  /** (a + b) + (c + d) == (a + c) + (b + d) */
  lemma XorRegroup(a: nat, b: nat, c: nat, d: nat)
    ensures Xor(Xor(a, b), Xor(c, d)) == Xor(Xor(a, c), Xor(b, d))
  {
    XorAssociative(a, b, Xor(c, d));
    XorAssociative(b, c, d);
    XorSymmetric(b, c);
    XorAssociative(c, b, d);
    XorAssociative(a, c, Xor(b, d));
  }

  lemma GeneratorLinear(p: nat, q: nat)
    ensures TimesGenerator(Xor(p, q)) == Xor(TimesGenerator(p), TimesGenerator(q))
  {
    XorShl(p, q, 16);
    XorShl(p, q, 12);
    XorShl(p, q, 5);
    XorRegroup(Shl(p, 16), Shl(q, 16), Shl(p, 12), Shl(q, 12));
    XorRegroup(Shl(p, 5), Shl(q, 5), p, q);
    XorRegroup(Xor(Shl(p, 16), Shl(p, 12)), Xor(Shl(q, 16), Shl(q, 12)), Xor(Shl(p, 5), p), Xor(Shl(q, 5), q));
  }

  lemma DoubleShl(q: nat, k: nat)
    ensures Shl(2 * q, k) == 2 * Shl(q, k)
  {
    ShlCompose(q, 1, k);
    ShlCompose(q, k, 1);
    assert Shl(q, 1) == 2 * q;
  }

  lemma {:induction false} XorDouble(a: nat, b: nat)
    ensures Xor(2 * a, 2 * b) == 2 * Xor(a, b)
  {
  }

  lemma GeneratorDouble(q: nat)
    ensures TimesGenerator(2 * q) == 2 * TimesGenerator(q)
  {
    DoubleShl(q, 16);
    DoubleShl(q, 12);
    DoubleShl(q, 5);
    XorDouble(Shl(q, 16), Shl(q, 12));
    XorDouble(Shl(q, 5), q);
    XorDouble(Xor(Shl(q, 16), Shl(q, 12)), Xor(Shl(q, 5), q));
  }

  lemma ShlValue(n: nat)
    ensures Shl(n, 5) == 32 * n && Shl(n, 6) == 64 * n && Shl(n, 8) == 256 * n
    ensures Shl(n, 12) == 4096 * n && Shl(n, 13) == 8192 * n && Shl(n, 16) == 65536 * n
  {
    ShlFour(n);
    ShlCompose(n, 4, 4);
    ShlFour(16 * n);
    ShlCompose(n, 8, 4);
    ShlFour(256 * n);
    ShlCompose(n, 12, 4);
    ShlFour(4096 * n);
  }

  lemma ShlFour(n: nat)
    ensures Shl(n, 4) == 16 * n
    ensures Shl(n, 5) == 32 * n && Shl(n, 6) == 64 * n
    ensures Shl(n, 13) == 2 * Shl(n, 12)
  {
    assert Shl(n, 1) == 2 * n;
    assert Shl(n, 2) == 4 * n;
    assert Shl(n, 3) == 8 * n;
  }

  /** 1 + x^5 + x^12 + x^16 is 0x11021. */
  lemma GeneratorNumber()
    ensures TimesGenerator(1) == 0x11021
  {
    ShlValue(1);
    ShlValue(8);
    ShlValue(1088);
    XorDisjoint(8, 4096, 13);
    XorDisjoint(1, 1, 5);
    XorDisjoint(1088, 33, 6);
  }

  // ----- the loop computes a remainder

  lemma {:induction false} ShlZero(k: nat)
    ensures Shl(0, k) == 0
  {
    if k > 0 {
      ShlZero(k - 1);
    }
  }

  lemma ZeroMultiple()
    ensures TimesGenerator(0) == 0
  {
    ShlZero(16);
    ShlZero(12);
    ShlZero(5);
    XorZero(0);
  }

  lemma TopBitCarries(low: nat)
    requires low < WIDTH
    ensures Xor(low, 0x1021) < WIDTH
    ensures Xor(WIDTH + low, 0x1021) == WIDTH + Xor(low, 0x1021)
  {
    ShlValue(1);
    XorDisjoint(1, low, 16);
    XorBelow(low, 0x1021, 16);
    XorDisjoint(1, Xor(low, 0x1021), 16);
    XorAssociative(WIDTH, low, 0x1021);
  }

  lemma XorCancels(a: nat, b: nat)
    ensures Xor(Xor(a, b), b) == a
  {
    XorAssociative(a, b, b);
    XorSelf(b);
    XorZero(a);
  }

  lemma GeneratorAgainst(low: nat)
    requires low < WIDTH
    ensures Xor(0x11021, Xor(low, 0x1021)) == WIDTH + low
  {
    var g, r := 0x1021, Xor(low, 0x1021);
    ShlValue(1);
    XorDisjoint(1, g, 16);
    XorAssociative(WIDTH, g, r);
    XorSymmetric(g, r);
    XorCancels(low, g);
    XorDisjoint(1, low, 16);
  }

  lemma MaskTop(r: nat)
    requires r < WIDTH
    ensures (WIDTH + r) % WIDTH == r
  {
  }

  lemma TopBitSet(crc: nat)
    requires crc < WIDTH
    ensures crc / 0x8000 % 2 == 1 <==> crc >= 0x8000
  {
  }

  lemma ShiftBitTop(crc: nat)
    requires 0x8000 <= crc < WIDTH
    ensures ShiftBit(crc) == Xor(2 * crc - WIDTH, 0x1021)
  {
    var low := 2 * crc - WIDTH;
    TopBitSet(crc);
    TopBitCarries(low);
    assert Xor(2 * crc, 0x1021) == WIDTH + Xor(low, 0x1021);
    MaskTop(Xor(low, 0x1021));
  }

  lemma ShiftBitPlain(crc: nat)
    requires crc < 0x8000
    ensures ShiftBit(crc) == 2 * crc
  {
    TopBitSet(crc);
  }

  lemma PlainMultiple(n: nat)
    ensures n == Xor(TimesGenerator(0), n)
  {
    ZeroMultiple();
    XorSymmetric(0, n);
    XorZero(n);
  }

  /** One turn multiplies by x and reduces: with the top bit set, `^ 0x1021` and the mask together
      subtract the generator once. */
  lemma ShiftBitReduces(crc: nat) returns (q: nat)
    requires crc < WIDTH
    ensures 2 * crc == Xor(TimesGenerator(q), ShiftBit(crc))
  {
    if crc >= 0x8000 {
      q := 1;
      ShiftBitTop(crc);
      Subtracted(2 * crc - WIDTH, ShiftBit(crc));
    } else {
      q := 0;
      ShiftBitPlain(crc);
      PlainMultiple(2 * crc);
    }
  }

  lemma Subtracted(low: nat, reduced: nat)
    requires low < WIDTH && reduced == Xor(low, 0x1021)
    ensures WIDTH + low == Xor(TimesGenerator(1), reduced)
  {
    GeneratorTimesOne(low);
  }

  lemma GeneratorTimesOne(low: nat)
    requires low < WIDTH
    ensures Xor(TimesGenerator(1), Xor(low, 0x1021)) == WIDTH + low
  {
    GeneratorNumber();
    GeneratorAgainst(low);
  }

  lemma CongruentShift(p: nat, crc: nat)
    requires Congruent(p, crc) && crc < WIDTH
    ensures Congruent(2 * p, ShiftBit(crc))
  {
    var q: nat :| p == Xor(TimesGenerator(q), crc);
    var t := ShiftBitReduces(crc);
    XorDouble(TimesGenerator(q), crc);
    GeneratorDouble(q);
    XorAssociative(TimesGenerator(2 * q), TimesGenerator(t), ShiftBit(crc));
    GeneratorLinear(2 * q, t);
    assert 2 * p == Xor(TimesGenerator(Xor(2 * q, t)), ShiftBit(crc));
  }

  lemma {:induction false} CongruentShifts(p: nat, crc: nat, n: nat)
    requires Congruent(p, crc) && crc < WIDTH
    ensures ShiftBits(crc, n) < WIDTH && Congruent(Shl(p, n), ShiftBits(crc, n))
  {
    if n > 0 {
      CongruentShifts(p, crc, n - 1);
      CongruentShift(Shl(p, n - 1), ShiftBits(crc, n - 1));
    }
  }

  lemma CongruentMix(p: nat, crc: nat, d: nat)
    requires Congruent(p, crc)
    ensures Congruent(Xor(p, d), Xor(crc, d))
  {
    var q: nat :| p == Xor(TimesGenerator(q), crc);
    XorAssociative(TimesGenerator(q), crc, d);
    assert Xor(p, d) == Xor(TimesGenerator(q), Xor(crc, d));
  }

  /** The message as one number, most significant byte first. */
  function Message(bytes: seq<Byte>): nat {
    if bytes == [] then 0 else Shl(Message(bytes[..|bytes| - 1]), 8) + (bytes[|bytes| - 1] as nat)
  }

  /** The dividend of the division: the message followed by sixteen zero bits, with the initial value
      added to its first sixteen bits. */
  function Dividend(bytes: seq<Byte>): nat {
    Xor(Shl(INITIAL, 8 * |bytes|), Shl(Message(bytes), 16))
  }

  lemma MessageStep(m: nat, byte: Byte)
    ensures Shl(Shl(m, 8) + (byte as nat), 16) == Shl(Xor(Shl(m, 16), 256 * (byte as nat)), 8)
  {
    var b, d := byte as nat, 256 * (byte as nat);
    ShlAdds(Shl(m, 8), b, 16);
    ShlCompose(m, 8, 16);
    ShlCompose(m, 16, 8);
    ShlCompose(b, 8, 8);
    ShlValue(b);
    ShlValue(1);
    XorDisjoint(m, d, 16);
    ShlAdds(Shl(m, 16), d, 8);
  }

  lemma ShlOverThree(i: nat, m: nat, d: nat, k: nat)
    ensures Shl(Xor(Xor(i, m), d), k) == Xor(Shl(i, k), Shl(Xor(m, d), k))
  {
    XorAssociative(i, m, d);
    XorShl(i, Xor(m, d), k);
  }

  /** The dividend grows by a byte as the loop mixes it in. */
  lemma DividendStep(front: seq<Byte>, b: Byte)
    ensures Dividend(front + [b]) == Shl(Xor(Dividend(front), 256 * (b as nat)), 8)
  {
    assert (front + [b])[..|front|] == front;
    MessageStep(Message(front), b);
    ShlCompose(INITIAL, 8 * |front|, 8);
    ShlOverThree(Shl(INITIAL, 8 * |front|), Shl(Message(front), 16), 256 * (b as nat), 8);
  }

  /** The register is congruent to the dividend modulo the generator, at every length. */
  lemma {:induction false} ChecksumIsRemainder(bytes: seq<Byte>)
    ensures Checksum(bytes) < WIDTH && Congruent(Dividend(bytes), Checksum(bytes))
  {
    if bytes == [] {
      ShlZero(16);
      XorSymmetric(0, INITIAL);
      XorZero(INITIAL);
      ZeroMultiple();
      assert Dividend(bytes) == Xor(TimesGenerator(0), INITIAL);
    } else {
      var front, b := bytes[..|bytes| - 1], bytes[|bytes| - 1];
      assert bytes == front + [b];
      ChecksumIsRemainder(front);
      CongruentMix(Dividend(front), Checksum(front), 256 * (b as nat));
      ShlValue(1);
      XorBelow(Checksum(front), 256 * (b as nat), 16);
      CongruentShifts(Xor(Dividend(front), 256 * (b as nat)), Xor(Checksum(front), 256 * (b as nat)), 8);
      DividendStep(front, b);
    }
  }

  // ----- only one remainder, and no short burst is a multiple

  lemma {:induction false} ShlAtLeast(n: nat, k: nat)
    requires n > 0
    ensures Shl(n, k) >= Shl(1, k)
  {
    ShlMonotone(0, n, k);
    if n > 1 {
      ShlMonotone(1, n, k);
    }
  }

  lemma {:induction false} ShlExponent(j: nat, k: nat)
    requires j <= k
    ensures Shl(1, j) <= Shl(1, k)
  {
    if j < k {
      ShlExponent(j, k - 1);
    }
  }

  lemma ShlDegree(q: nat, m: nat, k: nat)
    requires q < Shl(1, m + 1) && k <= 15
    ensures Shl(q, k) < Shl(1, m + 16)
  {
    ShlMonotone(q, Shl(1, m + 1), k);
    ShlCompose(1, m + 1, k);
    ShlExponent(m + 1 + k, m + 16);
  }

  /** A multiple of the generator by q with 2^m <= q < 2^(m+1) has its top bit at m + 16. */
  lemma MultipleHasDegree(q: nat, m: nat)
    requires Shl(1, m) <= q < Shl(1, m + 1)
    ensures TimesGenerator(q) >= Shl(1, m + 16)
  {
    var a, b, c := Shl(q, 16), Shl(q, 12), Shl(q, 5);
    ShlDegree(q, m, 12);
    ShlDegree(q, m, 5);
    ShlDegree(q, m, 0);
    ShlCompose(1, m, 16);
    ShlMonotone(q, Shl(1, m), 16);
    XorAbove(a, b, m + 16);
    XorBelow(c, q, m + 16);
    XorAbove(Xor(a, b), Xor(c, q), m + 16);
  }

  lemma {:induction false} TopBit(q: nat) returns (m: nat)
    requires q > 0
    ensures Shl(1, m) <= q < Shl(1, m + 1)
  {
    if q == 1 {
      m := 0;
    } else {
      m := TopBit(q / 2);
      m := m + 1;
    }
  }

  lemma SmallMultipleIsZero(q: nat)
    requires TimesGenerator(q) < WIDTH
    ensures q == 0
  {
    if q > 0 {
      var m := TopBit(q);
      MultipleHasDegree(q, m);
      ShlValue(1);
      ShlCompose(1, 16, m);
      ShlCompose(1, m, 16);
      ShlAtLeast(Shl(1, m), 16);
    }
  }

  lemma ShlEven(q: nat, k: nat)
    requires k > 0
    ensures Shl(q, k) % 2 == 0
  {
  }

  lemma EvenMultiple(q: nat)
    requires TimesGenerator(q) % 2 == 0
    ensures q % 2 == 0
  {
    var a, b, c := Shl(q, 16), Shl(q, 12), Shl(q, 5);
    ShlEven(q, 16);
    ShlEven(q, 12);
    ShlEven(q, 5);
    XorParts(a, b);
    XorParts(c, q);
    XorParts(Xor(a, b), Xor(c, q));
  }

  /** A polynomial with all its terms among sixteen consecutive powers is no multiple of the
      generator, unless it is zero. */
  lemma {:induction false} NoShortMultiple(q: nat, w: nat, k: nat)
    requires TimesGenerator(q) == Shl(w, k) && w < WIDTH
    ensures w == 0
  {
    if k == 0 {
      SmallMultipleIsZero(q);
      ZeroMultiple();
    } else {
      EvenMultiple(q);
      GeneratorDouble(q / 2);
      NoShortMultiple(q / 2, w, k - 1);
    }
  }

  /** Two dividends with the same remainder differ by a multiple of the generator. */
  lemma SameRemainder(p: nat, r: nat, c: nat) returns (q: nat)
    requires Congruent(p, c) && Congruent(r, c)
    ensures Xor(p, r) == TimesGenerator(q)
  {
    var s: nat :| p == Xor(TimesGenerator(s), c);
    var t: nat :| r == Xor(TimesGenerator(t), c);
    q := Xor(s, t);
    XorRegroup(TimesGenerator(s), c, TimesGenerator(t), c);
    XorSelf(c);
    XorZero(Xor(TimesGenerator(s), TimesGenerator(t)));
    GeneratorLinear(s, t);
  }

  /** The checksum is the remainder: no other 16-bit value is congruent to the dividend. */
  lemma RemainderUnique(bytes: seq<Byte>, r: nat)
    requires r < WIDTH && Congruent(Dividend(bytes), r)
    ensures r == Checksum(bytes)
  {
    ChecksumIsRemainder(bytes);
    var c := Checksum(bytes);
    var s: nat :| Dividend(bytes) == Xor(TimesGenerator(s), c);
    var t: nat :| Dividend(bytes) == Xor(TimesGenerator(t), r);
    XorSelf(Dividend(bytes));
    XorRegroup(TimesGenerator(s), c, TimesGenerator(t), r);
    GeneratorLinear(s, t);
    var q, w := Xor(s, t), Xor(c, r);
    assert Xor(TimesGenerator(q), w) == 0;
    XorCancels(TimesGenerator(q), w);
    XorSymmetric(0, w);
    XorZero(w);
    ShlValue(1);
    XorBelow(c, r, 16);
    NoShortMultiple(q, w, 0);
    XorCancels(c, r);
    XorSymmetric(0, r);
    XorZero(r);
  }

  /** Errors confined to any sixteen consecutive bits always change the register: if two messages of
      one length differ by a pattern w of at most 16 bits, k bits from the end, then equal checksums
      mean there was no difference. */
  lemma BurstDetected(x: seq<Byte>, y: seq<Byte>, w: nat, k: nat)
    requires |x| == |y| && Xor(Message(x), Message(y)) == Shl(w, k) && w < WIDTH
    requires Checksum(x) == Checksum(y)
    ensures w == 0
  {
    ChecksumIsRemainder(x);
    ChecksumIsRemainder(y);
    var q := SameRemainder(Dividend(x), Dividend(y), Checksum(x));
    var i := Shl(INITIAL, 8 * |x|);
    XorRegroup(i, Shl(Message(x), 16), i, Shl(Message(y), 16));
    XorSelf(i);
    XorShl(Message(x), Message(y), 16);
    XorSymmetric(0, Shl(Shl(w, k), 16));
    XorZero(Shl(Shl(w, k), 16));
    ShlCompose(w, k, 16);
    NoShortMultiple(q, w, k + 16);
  }

  // ----- bursts of bytes, and the text

  /** u followed by k bits holding `low`. */
  function Join(u: nat, low: nat, k: nat): nat {
    Shl(u, k) + low
  }

  /** Bytes side by side are numbers side by side. */
  lemma {:induction false} MessageConcat(s: seq<Byte>, t: seq<Byte>)
    ensures Message(s + t) == Join(Message(s), Message(t), 8 * |t|)
    ensures Message(t) < Shl(1, 8 * |t|)
  {
    if t == [] {
      assert s + t == s;
    } else {
      var front, b := t[..|t| - 1], t[|t| - 1];
      assert (s + t)[..|s + t| - 1] == s + front;
      MessageConcat(s, front);
      ShlAdds(Shl(Message(s), 8 * |front|), Message(front), 8);
      ShlCompose(Message(s), 8 * |front|, 8);
      ShlCompose(1, 8 * |front|, 8);
      ByteBelow(Message(front), Shl(1, 8 * |front|), b);
    }
  }

  lemma ByteBelow(m: nat, p: nat, b: Byte)
    requires m < p
    ensures Shl(m, 8) + (b as nat) < Shl(p, 8)
  {
    ShlValue(m);
    ShlValue(p);
  }

  lemma SameLow(u: nat, v: nat, low: nat, k: nat)
    requires low < Shl(1, k)
    ensures Xor(Join(u, low, k), Join(v, low, k)) == Shl(Xor(u, v), k)
  {
    XorDisjoint(u, low, k);
    XorDisjoint(v, low, k);
    XorRegroup(Shl(u, k), low, Shl(v, k), low);
    XorSelf(low);
    XorZero(Xor(Shl(u, k), Shl(v, k)));
    XorShl(u, v, k);
  }

  lemma SameHigh(u: nat, a: nat, b: nat, k: nat)
    requires a < Shl(1, k) && b < Shl(1, k)
    ensures Xor(Join(u, a, k), Join(u, b, k)) == Xor(a, b)
  {
    XorDisjoint(u, a, k);
    XorDisjoint(u, b, k);
    XorRegroup(Shl(u, k), a, Shl(u, k), b);
    XorSelf(Shl(u, k));
    XorSymmetric(0, Xor(a, b));
    XorZero(Xor(a, b));
  }

  lemma {:induction false} MessageInjective(s: seq<Byte>, t: seq<Byte>)
    requires |s| == |t| && Message(s) == Message(t)
    ensures s == t
  {
    if s != [] {
      var n := |s| - 1;
      ShlValue(Message(s[..n]));
      ShlValue(Message(t[..n]));
      MessageInjective(s[..n], t[..n]);
      assert s == s[..n] + [s[n]] && t == t[..n] + [t[n]];
    }
  }

  lemma SamePrefix(before: seq<Byte>, a: seq<Byte>, b: seq<Byte>)
    requires |a| == |b|
    ensures Xor(Message(before + a), Message(before + b)) == Xor(Message(a), Message(b))
  {
    MessageConcat(before, a);
    MessageConcat(before, b);
    SameHigh(Message(before), Message(a), Message(b), 8 * |a|);
  }

  lemma SameSuffix(a: seq<Byte>, b: seq<Byte>, after: seq<Byte>)
    ensures Xor(Message(a + after), Message(b + after)) == Shl(Xor(Message(a), Message(b)), 8 * |after|)
  {
    MessageConcat(a, after);
    MessageConcat(b, after);
    SameLow(Message(a), Message(b), Message(after), 8 * |after|);
  }

  /** Where the difference of two messages sits. */
  lemma DifferenceOf(before: seq<Byte>, a: seq<Byte>, b: seq<Byte>, after: seq<Byte>)
    requires |a| == |b|
    ensures Xor(Message(before + a + after), Message(before + b + after))
      == Shl(Xor(Message(a), Message(b)), 8 * |after|)
  {
    SameSuffix(before + a, before + b, after);
    SamePrefix(before, a, b);
  }

  /** Four hexadecimal digits, most significant first. */
  function HexDigits(n: nat): string
    requires n < WIDTH
  {
    [HexChar(n / 4096), HexChar(n / 256 % 16), HexChar(n / 16 % 16), HexChar(n % 16)]
  }

  lemma HexPadded(n: nat)
    requires n < WIDTH
    ensures PadStart(Hex(n), 4, '0') == HexDigits(n)
  {
    assert HexChar(0) == '0';
    if n < 16 {
      assert Repeat('0', 3) == ['0', '0', '0'];
    } else if n < 256 {
      assert Repeat('0', 2) == ['0', '0'];
    } else {
      Nibbles(n);
      assert Hex(n / 16) == Hex(n / 256) + [HexChar(n / 16 % 16)];
      if n < 4096 {
        assert Repeat('0', 1) == ['0'];
      } else {
        assert Hex(n / 256) == Hex(n / 4096) + [HexChar(n / 256 % 16)];
      }
    }
  }

  lemma Nibbles(n: nat)
    requires n < WIDTH
    ensures n / 16 / 16 == n / 256 && n / 256 / 16 == n / 4096 < 16
  {
  }

  lemma HexCharInjective(a: nat, b: nat)
    requires a < 16 && b < 16 && HexChar(a) == HexChar(b)
    ensures a == b
  {
  }

  lemma HexDigitsInjective(m: nat, n: nat)
    requires m < WIDTH && n < WIDTH && HexDigits(m) == HexDigits(n)
    ensures m == n
  {
    var s, t := HexDigits(m), HexDigits(n);
    assert s[0] == t[0] && s[1] == t[1] && s[2] == t[2] && s[3] == t[3];
    HexCharInjective(m / 4096, n / 4096);
    HexCharInjective(m / 256 % 16, n / 256 % 16);
    HexCharInjective(m / 16 % 16, n / 16 % 16);
    HexCharInjective(m % 16, n % 16);
    NibbleSum(m);
    NibbleSum(n);
  }

  lemma NibbleSum(n: nat)
    requires n < WIDTH
    ensures n == n / 4096 * 4096 + n / 256 % 16 * 256 + n / 16 % 16 * 16 + n % 16
  {
    Nibbles(n);
  }

  /** The padded hexadecimal text tells registers apart. */
  lemma HexTextInjective(m: nat, n: nat)
    requires m < WIDTH && n < WIDTH && PadStart(Hex(m), 4, '0') == PadStart(Hex(n), 4, '0')
    ensures m == n
  {
    HexPadded(m);
    HexPadded(n);
    HexDigitsInjective(m, n);
  }

  predicate IsHexChar(c: char) {
    '0' <= c <= '9' || 'A' <= c <= 'F'
  }

  lemma HexDigitsShape(n: nat)
    requires n < WIDTH
    ensures |HexDigits(n)| == 4 && forall i :: 0 <= i < 4 ==> IsHexChar(HexDigits(n)[i])
  {
  }

  /** Four upper-case hexadecimal characters, whatever the message. */
  lemma ChecksumTextShape(bytes: seq<Byte>)
    ensures |ChecksumText(bytes)| == 4 && forall i :: 0 <= i < 4 ==> IsHexChar(ChecksumText(bytes)[i])
  {
    ChecksumIsRemainder(bytes);
    HexPadded(Checksum(bytes));
    HexDigitsShape(Checksum(bytes));
  }

  /** Any error confined to at most two adjacent bytes changes the checksum text, at any message
      length and any position. */
  lemma BurstChangesText(before: seq<Byte>, a: seq<Byte>, b: seq<Byte>, after: seq<Byte>)
    requires |a| == |b| <= 2 && a != b
    ensures ChecksumText(before + a + after) != ChecksumText(before + b + after)
  {
    var x, y := before + a + after, before + b + after;
    if ChecksumText(x) == ChecksumText(y) {
      ChecksumIsRemainder(x);
      ChecksumIsRemainder(y);
      HexTextInjective(Checksum(x), Checksum(y));
      DifferenceOf(before, a, b, after);
      MessageConcat([], a);
      MessageConcat([], b);
      ShlExponent(8 * |a|, 16);
      ShlValue(1);
      var w := Xor(Message(a), Message(b));
      XorBelow(Message(a), Message(b), 16);
      BurstDetected(x, y, w, 8 * |after|);
      XorCancels(Message(a), Message(b));
      XorSymmetric(0, Message(b));
      XorZero(Message(b));
      MessageInjective(a, b);
    }
  }
}
