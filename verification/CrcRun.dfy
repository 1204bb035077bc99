/** Runs of the checksum loop on a given text: the register as sixteen bits, on which the solver can
    compute, and the proof that it is the register of the program. */
module CrcRun {
  import opened Crc16

  // ----- bits, least significant first, and the number they stand for

  function BitNumber(b: bool): nat {
    if b then 1 else 0
  }

  function Number(s: seq<bool>): nat {
    if s == [] then 0 else BitNumber(s[0]) + 2 * Number(s[1..])
  }

  lemma Halves(s: seq<bool>)
    requires s != []
    ensures Number(s) / 2 == Number(s[1..])
    ensures Number(s) % 2 == 1 <==> s[0]
  {
  }

  lemma {:induction false} NumberXor(s: seq<bool>, t: seq<bool>, u: seq<bool>)
    requires |s| == |t| == |u| && forall i :: 0 <= i < |s| ==> u[i] == (s[i] != t[i])
    ensures Number(u) == Xor(Number(s), Number(t))
  {
    if s != [] {
      NumberXor(s[1..], t[1..], u[1..]);
      XorParts(Number(s), Number(t));
      Halves(s);
      Halves(t);
      Halves(u);
    }
  }

  lemma {:induction false} NumberBelow(s: seq<bool>)
    ensures Number(s) < Shl(1, |s|)
  {
    if s != [] {
      NumberBelow(s[1..]);
    }
  }

  lemma {:induction false} NumberTop(s: seq<bool>, b: bool)
    ensures Number(s + [b]) == Number(s) + Shl(BitNumber(b), |s|)
  {
    if s != [] {
      assert (s + [b])[1..] == s[1..] + [b];
      NumberTop(s[1..], b);
    }
  }

  // ----- the register

  /** The mask of the bit worth 2^i. */
  function Mask(i: nat): bv16 {
    if i == 0 then 1 else Mask(i - 1) << 1
  }

  predicate Has(x: bv16, mask: bv16) {
    x & mask != 0
  }

  function Bits(x: bv16): (s: seq<bool>)
    ensures |s| == 16
  {
    seq(16, i requires 0 <= i < 16 => Has(x, Mask(i)))
  }

  lemma HasXor(x: bv16, y: bv16, mask: bv16)
    requires mask & (mask - 1) == 0
    ensures Has(x ^ y, mask) == (Has(x, mask) != Has(y, mask))
  {
  }

  lemma HasShift(x: bv16, mask: bv16)
    requires mask & 0x8000 == 0
    ensures Has(x << 1, mask << 1) == Has(x, mask)
  {
  }

  lemma {:induction false} MaskOneBit(i: nat)
    ensures Mask(i) & (Mask(i) - 1) == 0
  {
    if i > 0 {
      MaskOneBit(i - 1);
    }
  }

  lemma MaskValues()
    ensures Mask(15) == 0x8000
    ensures forall i :: 0 <= i < 15 ==> Mask(i) & 0x8000 == 0
  {
    assert Mask(0) == 1 && Mask(1) == 2 && Mask(2) == 4 && Mask(3) == 8;
    assert Mask(4) == 0x10 && Mask(5) == 0x20 && Mask(6) == 0x40 && Mask(7) == 0x80;
    assert Mask(8) == 0x100 && Mask(9) == 0x200 && Mask(10) == 0x400 && Mask(11) == 0x800;
    assert Mask(12) == 0x1000 && Mask(13) == 0x2000 && Mask(14) == 0x4000;
  }

  lemma BitsXor(x: bv16, y: bv16)
    ensures forall i :: 0 <= i < 16 ==> Bits(x ^ y)[i] == (Bits(x)[i] != Bits(y)[i])
  {
    forall i | 0 <= i < 16
      ensures Bits(x ^ y)[i] == (Bits(x)[i] != Bits(y)[i])
    {
      MaskOneBit(i);
      HasXor(x, y, Mask(i));
    }
  }

  /** The bit at i moves to i + 1. */
  lemma BitMoves(x: bv16, i: nat)
    requires i < 15
    ensures Has(x << 1, Mask(i + 1)) == Has(x, Mask(i))
  {
    MaskValues();
    HasShift(x, Mask(i));
  }

  lemma LowBitClear(x: bv16)
    ensures !Has(x << 1, Mask(0))
  {
  }

  lemma BitsShift(x: bv16)
    ensures Bits(x << 1) == [false] + Bits(x)[..15]
    ensures Bits(x)[15] == Has(x, 0x8000)
  {
    MaskValues();
    LowBitClear(x);
    forall i: nat | i < 15
      ensures Has(x << 1, Mask(i + 1)) == Has(x, Mask(i))
    {
      BitMoves(x, i);
    }
    MovedUp(Bits(x), Bits(x << 1));
  }

  lemma MovedUp(before: seq<bool>, after: seq<bool>)
    requires |before| == |after| == 16 && !after[0] && forall i: nat :: i < 15 ==> after[i + 1] == before[i]
    ensures after == [false] + before[..15]
  {
    forall k | 0 <= k < 16
      ensures after[k] == ([false] + before[..15])[k]
    {
      if k > 0 {
        assert after[k - 1 + 1] == before[k - 1];
      }
    }
  }

  function Value(x: bv16): nat {
    Number(Bits(x))
  }

  lemma ValueXor(x: bv16, y: bv16)
    ensures Value(x ^ y) == Xor(Value(x), Value(y))
  {
    BitsXor(x, y);
    NumberXor(Bits(x), Bits(y), Bits(x ^ y));
  }

  lemma ValueShift(x: bv16)
    ensures Value(x) < WIDTH
    ensures Has(x, 0x8000) <==> Value(x) >= 0x8000
    ensures Value(x << 1) == if Has(x, 0x8000) then 2 * Value(x) - WIDTH else 2 * Value(x)
  {
    BitsShift(x);
    SplitTop(Bits(x));
  }

  lemma SplitTop(s: seq<bool>)
    requires |s| == 16
    ensures var n := Number(s);
      n < WIDTH && (s[15] <==> n >= 0x8000) && Number([false] + s[..15]) == if s[15] then 2 * n - WIDTH else 2 * n
  {
    var low := s[..15];
    NumberTop(low, s[15]);
    NumberBelow(low);
    assert s == low + [s[15]];
    assert ([false] + low)[1..] == low;
    FifteenthPower();
  }

  lemma FifteenthPower()
    ensures Shl(1, 15) == 0x8000 && Shl(0, 15) == 0
  {
    ShlValue(1);
    ShlCompose(1, 13, 2);
    assert Shl(8192, 2) == 2 * Shl(8192, 1) == 0x8000;
    ShlZero(15);
  }

  /** x with one more low bit */
  function Put(x: bv16, bit: bool): bv16 {
    if bit then (x << 1) ^ 1 else x << 1
  }

  lemma PutValue(w: bv16, n: nat)
    requires n < WIDTH && Value(w) == n / 2
    ensures Value(Put(w, n % 2 == 1)) == n
  {
    ValueShift(w);
    ValueXor(w << 1, 1);
    ValueOfOne();
    XorDisjoint(n / 2, 1, 1);
    assert Shl(n / 2, 1) == 2 * (n / 2);
  }

  lemma {:induction false} AllClear(s: seq<bool>)
    requires forall i :: 0 <= i < |s| ==> !s[i]
    ensures Number(s) == 0
  {
    if s != [] {
      AllClear(s[1..]);
    }
  }

  lemma OneHasNoOther(i: nat)
    ensures !Has(1, Mask(i) << 1)
  {
  }

  lemma ValueOfOne()
    ensures Value(1) == 1
  {
    var s := Bits(1);
    forall i | 0 < i < 16 ensures !s[i] {
      OneHasNoOther(i - 1);
    }
    AllClear(s[1..]);
  }

  // ----- the loop on sixteen bits

  /** One turn of the inner loop, written without a case distinction: b is the bit shifted out. */
  function Shifted(c: bv16): bv16 {
    (c << 1) ^ Feedback(c >> 15)
  }

  function Feedback(b: bv16): bv16 {
    (b << 12) ^ (b << 5) ^ b
  }

  lemma BitShiftedOut(c: bv16)
    ensures c >> 15 == if Has(c, 0x8000) then 1 else 0
  {
  }

  lemma FeedbackOfBit()
    ensures Feedback(1) == 0x1021 && Feedback(0) == 0
  {
  }

  lemma TopBitShifted(c: bv16, d: bv16)
    requires Has(c, 0x8000) && d == c << 1
    ensures Value(d ^ 0x1021) == ShiftBit(Value(c))
  {
    ValueShift(c);
    ValueXor(d, 0x1021);
    ValueOfGenerator();
    ShiftBitTop(Value(c));
  }

  lemma NothingAdded(x: bv16)
    ensures x ^ 0 == x
  {
  }

  lemma ShiftedIsShiftBit(c: bv16)
    ensures Value(Shifted(c)) == ShiftBit(Value(c))
  {
    BitShiftedOut(c);
    FeedbackOfBit();
    if Has(c, 0x8000) {
      TopBitShifted(c, c << 1);
    } else {
      NothingAdded(c << 1);
      ValueShift(c);
      ShiftBitPlain(Value(c));
    }
  }

  lemma ValueOfGenerator()
    ensures Value(0x1021) == 0x1021
  {
    ValueOfOne();
    PutValue(1, 2);
    PutValue(2, 4);
    PutValue(4, 8);
    PutValue(8, 0x10);
    PutValue(0x10, 0x20);
    PutValue(0x20, 0x40);
    PutValue(0x40, 0x81);
    PutValue(0x81, 0x102);
    PutValue(0x102, 0x204);
    PutValue(0x204, 0x408);
    PutValue(0x408, 0x810);
    PutValue(0x810, 0x1021);
  }

  /** What one byte does to the register; h holds the byte in its upper half. */
  function Mixed(c: bv16, h: bv16): bv16 {
    Shifted(Shifted(Shifted(Shifted(Shifted(Shifted(Shifted(Shifted(c ^ h))))))))
  }

  lemma ShiftedTwice(c: bv16, start: nat, k: nat)
    requires Value(c) == ShiftBits(start, k)
    ensures Value(Shifted(Shifted(c))) == ShiftBits(start, k + 2)
  {
    ShiftedIsShiftBit(c);
    ShiftedIsShiftBit(Shifted(c));
    assert ShiftBits(start, k + 1) == ShiftBit(ShiftBits(start, k));
  }

  lemma MixedIsStep(c: bv16, h: bv16, n: Byte)
    requires Value(h) == 256 * (n as nat)
    ensures Value(Mixed(c, h)) == StepByte(Value(c), n)
  {
    var m := c ^ h;
    var v := Value(m);
    ValueXor(c, h);
    ShiftedTwice(m, v, 0);
    ShiftedTwice(Shifted(Shifted(m)), v, 2);
    ShiftedTwice(Shifted(Shifted(Shifted(Shifted(m)))), v, 4);
    ShiftedTwice(Shifted(Shifted(Shifted(Shifted(Shifted(Shifted(m)))))), v, 6);
  }

  // ----- runs over text

  predicate IsAscii(text: string) {
    forall i :: 0 <= i < |text| ==> text[i] as int < 128
  }

  /** `Buffer.from(text, 'utf8')` on text without other characters */
  function Bytes(text: string): (r: seq<Byte>)
    requires IsAscii(text)
  {
    seq(|text|, i requires 0 <= i < |text| => text[i] as int as Byte)
  }

  lemma FiveBits()
    ensures Value(2) == 2 && Value(3) == 3 && Value(4) == 4 && Value(5) == 5 && Value(6) == 6
    ensures Value(7) == 7 && Value(8) == 8 && Value(9) == 9 && Value(0xA) == 0xA && Value(0xB) == 0xB
    ensures Value(0xC) == 0xC && Value(0xD) == 0xD && Value(0xE) == 0xE && Value(0x10) == 0x10 && Value(0x11) == 0x11
    ensures Value(0x12) == 0x12 && Value(0x13) == 0x13 && Value(0x14) == 0x14 && Value(0x17) == 0x17
    ensures Value(0x18) == 0x18
    ensures Value(0x19) == 0x19 && Value(0x1A) == 0x1A && Value(0x1B) == 0x1B && Value(0x1C) == 0x1C
  {
    ValueOfOne();
    PutValue(1, 2);
    PutValue(1, 3);
    PutValue(2, 4);
    PutValue(2, 5);
    PutValue(3, 6);
    PutValue(3, 7);
    PutValue(4, 8);
    PutValue(4, 9);
    PutValue(5, 0xA);
    PutValue(5, 0xB);
    PutValue(6, 0xC);
    PutValue(6, 0xD);
    PutValue(7, 0xE);
    PutValue(8, 0x10);
    PutValue(8, 0x11);
    PutValue(9, 0x12);
    PutValue(9, 0x13);
    PutValue(0xA, 0x14);
    PutValue(0xB, 0x17);
    PutValue(0xC, 0x18);
    PutValue(0xC, 0x19);
    PutValue(0xD, 0x1A);
    PutValue(0xD, 0x1B);
    PutValue(0xE, 0x1C);
  }

  lemma SixBits()
    ensures Value(0x20) == 0x20 && Value(0x23) == 0x23 && Value(0x24) == 0x24 && Value(0x25) == 0x25
    ensures Value(0x26) == 0x26
    ensures Value(0x29) == 0x29
  {
    FiveBits();
    PutValue(0x10, 0x20);
    PutValue(0x11, 0x23);
    PutValue(0x12, 0x24);
    PutValue(0x12, 0x25);
    PutValue(0x13, 0x26);
    PutValue(0x14, 0x29);
  }

  lemma SevenBits()
    ensures Value(0x2E) == 0x2E && Value(0x30) == 0x30 && Value(0x31) == 0x31 && Value(0x32) == 0x32
    ensures Value(0x33) == 0x33
    ensures Value(0x34) == 0x34 && Value(0x35) == 0x35 && Value(0x36) == 0x36 && Value(0x38) == 0x38
    ensures Value(0x39) == 0x39
    ensures Value(0x41) == 0x41 && Value(0x47) == 0x47 && Value(0x48) == 0x48 && Value(0x49) == 0x49
    ensures Value(0x4B) == 0x4B
    ensures Value(0x4C) == 0x4C && Value(0x52) == 0x52 && Value(0x53) == 0x53
  {
    FiveBits();
    SixBits();
    PutValue(0x17, 0x2E);
    PutValue(0x18, 0x30);
    PutValue(0x18, 0x31);
    PutValue(0x19, 0x32);
    PutValue(0x19, 0x33);
    PutValue(0x1A, 0x34);
    PutValue(0x1A, 0x35);
    PutValue(0x1B, 0x36);
    PutValue(0x1C, 0x38);
    PutValue(0x1C, 0x39);
    PutValue(0x20, 0x41);
    PutValue(0x23, 0x47);
    PutValue(0x24, 0x48);
    PutValue(0x24, 0x49);
    PutValue(0x25, 0x4B);
    PutValue(0x26, 0x4C);
    PutValue(0x29, 0x52);
    PutValue(0x29, 0x53);
  }

  lemma {:induction false} ValueLifted(x: bv16, k: nat)
    requires Shl(Value(x), k) < WIDTH
    ensures Value(Lifted(x, k)) == Shl(Value(x), k)
  {
    if k > 0 {
      ValueLifted(x, k - 1);
      ValueShift(Lifted(x, k - 1));
    }
  }

  /** `x << k` */
  function Lifted(x: bv16, k: nat): bv16 {
    if k == 0 then x else Lifted(x, k - 1) << 1
  }

  lemma LiftedByte(x: bv16, h: bv16)
    requires Value(x) < 256 && h == Lifted(x, 8)
    ensures Value(h) == 256 * Value(x)
  {
    ShlValue(Value(x));
    ValueLifted(x, 8);
  }

  /** The characters of the payload below, in the upper half of the register. */
  lemma UpperBytes()
    ensures Value(0x2E00) == 256 * 0x2E && Value(0x3000) == 256 * 0x30 && Value(0x3100) == 256 * 0x31
    ensures Value(0x3200) == 256 * 0x32
    ensures Value(0x3300) == 256 * 0x33 && Value(0x3400) == 256 * 0x34 && Value(0x3500) == 256 * 0x35
    ensures Value(0x3600) == 256 * 0x36
    ensures Value(0x3800) == 256 * 0x38 && Value(0x3900) == 256 * 0x39 && Value(0x4100) == 256 * 0x41
    ensures Value(0x4700) == 256 * 0x47
    ensures Value(0x4800) == 256 * 0x48 && Value(0x4900) == 256 * 0x49 && Value(0x4B00) == 256 * 0x4B
    ensures Value(0x4C00) == 256 * 0x4C
    ensures Value(0x5200) == 256 * 0x52 && Value(0x5300) == 256 * 0x53
  {
    SevenBits();
    LiftedByte(0x2E, 0x2E00);
    LiftedByte(0x30, 0x3000);
    LiftedByte(0x31, 0x3100);
    LiftedByte(0x32, 0x3200);
    LiftedByte(0x33, 0x3300);
    LiftedByte(0x34, 0x3400);
    LiftedByte(0x35, 0x3500);
    LiftedByte(0x36, 0x3600);
    LiftedByte(0x38, 0x3800);
    LiftedByte(0x39, 0x3900);
    LiftedByte(0x41, 0x4100);
    LiftedByte(0x47, 0x4700);
    LiftedByte(0x48, 0x4800);
    LiftedByte(0x49, 0x4900);
    LiftedByte(0x4B, 0x4B00);
    LiftedByte(0x4C, 0x4C00);
    LiftedByte(0x52, 0x5200);
    LiftedByte(0x53, 0x5300);
  }

  // ----- the run, for any register values and steps that the sixteen bits simulate

  /** The characters of a text without others than ASCII, fed to `step` one after the other. */
  function Fold(step: (nat, Byte) -> nat, start: nat, text: string): nat
    requires IsAscii(text)
  {
    if text == "" then start else step(Fold(step, start, text[..|text| - 1]), text[|text| - 1] as int)
  }

  ghost predicate Simulates(mix: (bv16, bv16) -> bv16, value: bv16 -> nat, step: (nat, Byte) -> nat) {
    forall c: bv16, h: bv16, n: Byte :: value(h) == 256 * (n as nat) ==> value(mix(c, h)) == step(value(c), n)
  }

  /** The values of the characters that the payload below consists of. */
  ghost predicate Reads(value: bv16 -> nat) {
    && value(0x2E00) == 256 * 0x2E && value(0x3000) == 256 * 0x30 && value(0x3100) == 256 * 0x31
      && value(0x3200) == 256 * 0x32
    && value(0x3300) == 256 * 0x33 && value(0x3400) == 256 * 0x34 && value(0x3500) == 256 * 0x35
      && value(0x3600) == 256 * 0x36
    && value(0x3800) == 256 * 0x38 && value(0x3900) == 256 * 0x39 && value(0x4100) == 256 * 0x41
      && value(0x4700) == 256 * 0x47
    && value(0x4800) == 256 * 0x48 && value(0x4900) == 256 * 0x49 && value(0x4B00) == 256 * 0x4B
      && value(0x4C00) == 256 * 0x4C
    && value(0x5200) == 256 * 0x52 && value(0x5300) == 256 * 0x53
  }

  lemma One(mix: (bv16, bv16) -> bv16, value: bv16 -> nat, step: (nat, Byte) -> nat, start: nat, text: string, c: bv16,
      h: bv16, next: char)
    requires Simulates(mix, value, step) && IsAscii(text) && next as int < 128
    requires Fold(step, start, text) == value(c) && value(h) == 256 * (next as int)
    ensures Fold(step, start, text + [next]) == value(mix(c, h))
  {
    assert (text + [next])[..|text|] == text;
  }

  /** Four more characters, p, q, r and t in the upper halves, take the register from c to d. */
  lemma Four(mix: (bv16, bv16) -> bv16, value: bv16 -> nat, step: (nat, Byte) -> nat, start: nat, text: string,
             c: bv16, next: string, p: bv16, q: bv16, r: bv16, t: bv16, d: bv16)
    requires Simulates(mix, value, step) && IsAscii(text) && IsAscii(next)
    requires Fold(step, start, text) == value(c) && |next| == 4
    requires value(p) == 256 * (next[0] as int) && value(q) == 256 * (next[1] as int)
    requires value(r) == 256 * (next[2] as int) && value(t) == 256 * (next[3] as int)
    requires d == mix(mix(mix(mix(c, p), q), r), t)
    ensures IsAscii(text + next) && Fold(step, start, text + next) == value(d)
  {
    var c1 := mix(c, p);
    var c2 := mix(c1, q);
    var c3 := mix(c2, r);
    var t1 := text + [next[0]];
    var t2 := t1 + [next[1]];
    var t3 := t2 + [next[2]];
    One(mix, value, step, start, text, c, p, next[0]);
    One(mix, value, step, start, t1, c1, q, next[1]);
    One(mix, value, step, start, t2, c2, r, next[2]);
    One(mix, value, step, start, t3, c3, t, next[3]);
    FourCharacters(text, next);
  }

  lemma FourCharacters(text: string, next: string)
    requires |next| == 4
    ensures text + [next[0]] + [next[1]] + [next[2]] + [next[3]] == text + next
  {
    assert next == [next[0]] + [next[1]] + [next[2]] + [next[3]];
  }

  // the payload, in fours
  const Tags: string := "0002" + "0101" + "0211" // format and kind
  const Account: string := "2632" + "0012" // the account's tag
  const Scheme: string := "GH.S" + "IKA." + "RAIL" // its first value
  const Participant: string := "0104" + "SIKA"
  const AccountNumber: string := "0204" + "2502"
  const Holder: string := Participant + AccountNumber // participant and account number
  const Category: string := "5204" + "5411" // merchant category
  const Nation: string := "5303" + "9365" + "802G"
  const Called: string := "H590" + "3KIR"
  const Names: string := Nation + Called // currency, country, name
  const Closing: string := "6304" // the checksum's tag

  const MarkedText: string := Tags + Account + Scheme + Holder + Category + Names + Closing

  lemma Joined(s: string, t: string, u: string)
    ensures s + t + u == s + (t + u)
  {
  }

  lemma RunTags(value: bv16 -> nat, step: (nat, Byte) -> nat, start: nat, text: string)
    requires Simulates(Mixed, value, step) && Reads(value) && IsAscii(text)
    requires Fold(step, start, text) == value(0xFFFF)
    ensures IsAscii(text + Tags) && Fold(step, start, text + Tags) == value(0x0449)
  {
    var s := text;
    Four(Mixed, value, step, start, s, 0xFFFF, "0002", 0x3000, 0x3000, 0x3000, 0x3200, 0x7E08);
    s := s + "0002";
    Four(Mixed, value, step, start, s, 0x7E08, "0101", 0x3000, 0x3100, 0x3000, 0x3100, 0xB415);
    s := s + "0101";
    Four(Mixed, value, step, start, s, 0xB415, "0211", 0x3000, 0x3200, 0x3100, 0x3100, 0x0449);
    s := s + "0211";
    Joined(text, "0002", "0101");
    Joined(text, "0002" + "0101", "0211");
  }

  lemma RunAccount(value: bv16 -> nat, step: (nat, Byte) -> nat, start: nat, text: string)
    requires Simulates(Mixed, value, step) && Reads(value) && IsAscii(text)
    requires Fold(step, start, text) == value(0x0449)
    ensures IsAscii(text + Account) && Fold(step, start, text + Account) == value(0xA867)
  {
    var s := text;
    Four(Mixed, value, step, start, s, 0x0449, "2632", 0x3200, 0x3600, 0x3300, 0x3200, 0xB99E);
    s := s + "2632";
    Four(Mixed, value, step, start, s, 0xB99E, "0012", 0x3000, 0x3000, 0x3100, 0x3200, 0xA867);
    s := s + "0012";
    Joined(text, "2632", "0012");
  }

  lemma RunScheme(value: bv16 -> nat, step: (nat, Byte) -> nat, start: nat, text: string)
    requires Simulates(Mixed, value, step) && Reads(value) && IsAscii(text)
    requires Fold(step, start, text) == value(0xA867)
    ensures IsAscii(text + Scheme) && Fold(step, start, text + Scheme) == value(0x5715)
  {
    var s := text;
    Four(Mixed, value, step, start, s, 0xA867, "GH.S", 0x4700, 0x4800, 0x2E00, 0x5300, 0xB58C);
    s := s + "GH.S";
    Four(Mixed, value, step, start, s, 0xB58C, "IKA.", 0x4900, 0x4B00, 0x4100, 0x2E00, 0x8849);
    s := s + "IKA.";
    Four(Mixed, value, step, start, s, 0x8849, "RAIL", 0x5200, 0x4100, 0x4900, 0x4C00, 0x5715);
    s := s + "RAIL";
    Joined(text, "GH.S", "IKA.");
    Joined(text, "GH.S" + "IKA.", "RAIL");
  }

  lemma RunParticipant(value: bv16 -> nat, step: (nat, Byte) -> nat, start: nat, text: string)
    requires Simulates(Mixed, value, step) && Reads(value) && IsAscii(text)
    requires Fold(step, start, text) == value(0x5715)
    ensures IsAscii(text + Participant) && Fold(step, start, text + Participant) == value(0xABFC)
  {
    var s := text;
    Four(Mixed, value, step, start, s, 0x5715, "0104", 0x3000, 0x3100, 0x3000, 0x3400, 0x21BB);
    s := s + "0104";
    Four(Mixed, value, step, start, s, 0x21BB, "SIKA", 0x5300, 0x4900, 0x4B00, 0x4100, 0xABFC);
    s := s + "SIKA";
    Joined(text, "0104", "SIKA");
  }

  lemma RunAccountNumber(value: bv16 -> nat, step: (nat, Byte) -> nat, start: nat, text: string)
    requires Simulates(Mixed, value, step) && Reads(value) && IsAscii(text)
    requires Fold(step, start, text) == value(0xABFC)
    ensures IsAscii(text + AccountNumber) && Fold(step, start, text + AccountNumber) == value(0x0433)
  {
    var s := text;
    Four(Mixed, value, step, start, s, 0xABFC, "0204", 0x3000, 0x3200, 0x3000, 0x3400, 0x9634);
    s := s + "0204";
    Four(Mixed, value, step, start, s, 0x9634, "2502", 0x3200, 0x3500, 0x3000, 0x3200, 0x0433);
    s := s + "2502";
    Joined(text, "0204", "2502");
  }

  lemma RunHolder(value: bv16 -> nat, step: (nat, Byte) -> nat, start: nat, text: string)
    requires Simulates(Mixed, value, step) && Reads(value) && IsAscii(text)
    requires Fold(step, start, text) == value(0x5715)
    ensures IsAscii(text + Holder) && Fold(step, start, text + Holder) == value(0x0433)
  {
    RunParticipant(value, step, start, text);
    RunAccountNumber(value, step, start, text + Participant);
    Joined(text, Participant, AccountNumber);
  }

  lemma RunCategory(value: bv16 -> nat, step: (nat, Byte) -> nat, start: nat, text: string)
    requires Simulates(Mixed, value, step) && Reads(value) && IsAscii(text)
    requires Fold(step, start, text) == value(0x0433)
    ensures IsAscii(text + Category) && Fold(step, start, text + Category) == value(0x8A15)
  {
    var s := text;
    Four(Mixed, value, step, start, s, 0x0433, "5204", 0x3500, 0x3200, 0x3000, 0x3400, 0x1E2F);
    s := s + "5204";
    Four(Mixed, value, step, start, s, 0x1E2F, "5411", 0x3500, 0x3400, 0x3100, 0x3100, 0x8A15);
    s := s + "5411";
    Joined(text, "5204", "5411");
  }

  lemma RunNation(value: bv16 -> nat, step: (nat, Byte) -> nat, start: nat, text: string)
    requires Simulates(Mixed, value, step) && Reads(value) && IsAscii(text)
    requires Fold(step, start, text) == value(0x8A15)
    ensures IsAscii(text + Nation) && Fold(step, start, text + Nation) == value(0xEBB4)
  {
    var s := text;
    Four(Mixed, value, step, start, s, 0x8A15, "5303", 0x3500, 0x3300, 0x3000, 0x3300, 0x12FC);
    s := s + "5303";
    Four(Mixed, value, step, start, s, 0x12FC, "9365", 0x3900, 0x3300, 0x3600, 0x3500, 0xEA52);
    s := s + "9365";
    Four(Mixed, value, step, start, s, 0xEA52, "802G", 0x3800, 0x3000, 0x3200, 0x4700, 0xEBB4);
    s := s + "802G";
    Joined(text, "5303", "9365");
    Joined(text, "5303" + "9365", "802G");
  }

  lemma RunCalled(value: bv16 -> nat, step: (nat, Byte) -> nat, start: nat, text: string)
    requires Simulates(Mixed, value, step) && Reads(value) && IsAscii(text)
    requires Fold(step, start, text) == value(0xEBB4)
    ensures IsAscii(text + Called) && Fold(step, start, text + Called) == value(0xA10E)
  {
    var s := text;
    Four(Mixed, value, step, start, s, 0xEBB4, "H590", 0x4800, 0x3500, 0x3900, 0x3000, 0xF49E);
    s := s + "H590";
    Four(Mixed, value, step, start, s, 0xF49E, "3KIR", 0x3300, 0x4B00, 0x4900, 0x5200, 0xA10E);
    s := s + "3KIR";
    Joined(text, "H590", "3KIR");
  }

  lemma RunNames(value: bv16 -> nat, step: (nat, Byte) -> nat, start: nat, text: string)
    requires Simulates(Mixed, value, step) && Reads(value) && IsAscii(text)
    requires Fold(step, start, text) == value(0x8A15)
    ensures IsAscii(text + Names) && Fold(step, start, text + Names) == value(0xA10E)
  {
    RunNation(value, step, start, text);
    RunCalled(value, step, start, text + Nation);
    Joined(text, Nation, Called);
  }

  lemma RunClosing(value: bv16 -> nat, step: (nat, Byte) -> nat, start: nat, text: string)
    requires Simulates(Mixed, value, step) && Reads(value) && IsAscii(text)
    requires Fold(step, start, text) == value(0xA10E)
    ensures IsAscii(text + Closing) && Fold(step, start, text + Closing) == value(0x6304)
  {
    var s := text;
    Four(Mixed, value, step, start, s, 0xA10E, "6304", 0x3600, 0x3300, 0x3000, 0x3400, 0x6304);
    s := s + "6304";
    assert s == text + Closing;
  }

  lemma {:induction false} FoldIsChecksum(text: string)
    requires IsAscii(text)
    ensures Checksum(Bytes(text)) == Fold(StepByte, INITIAL, text)
  {
    if text != "" {
      var front := text[..|text| - 1];
      FoldIsChecksum(front);
      assert Bytes(text)[..|text| - 1] == Bytes(front);
    }
  }

  lemma BitsSimulate()
    ensures Simulates(Mixed, Value, StepByte)
  {
    forall c: bv16, h: bv16, n: Byte | Value(h) == 256 * (n as nat)
      ensures Value(Mixed(c, h)) == StepByte(Value(c), n)
    {
      MixedIsStep(c, h, n);
    }
  }

  lemma BitsRead()
    ensures Reads(Value) && Value(0xFFFF) == INITIAL
  {
    UpperBytes();
    ValueOfInitial();
  }

  lemma RunMarked(value: bv16 -> nat, step: (nat, Byte) -> nat, start: nat)
    requires Simulates(Mixed, value, step) && Reads(value) && value(0xFFFF) == start
    ensures IsAscii(MarkedText) && Fold(step, start, MarkedText) == value(0x6304)
  {
    var s := "";
    RunTags(value, step, start, s);
    s := s + Tags;
    RunAccount(value, step, start, s);
    s := s + Account;
    RunScheme(value, step, start, s);
    s := s + Scheme;
    RunHolder(value, step, start, s);
    s := s + Holder;
    RunCategory(value, step, start, s);
    s := s + Category;
    RunNames(value, step, start, s);
    s := s + Names;
    RunClosing(value, step, start, s);
    s := s + Closing;
    assert "" + Tags == Tags;
  }

  /** The checksum of this payload is the payload's own closing tag. */
  lemma MarkedChecksum()
    ensures IsAscii(MarkedText) && Checksum(Bytes(MarkedText)) == 0x6304
  {
    BitsSimulate();
    BitsRead();
    RunMarked(Value, StepByte, INITIAL);
    FoldIsChecksum(MarkedText);
    ValueOfMarker();
  }

  lemma ValueOfMarker()
    ensures Value(0x6304) == 0x6304
  {
    ValueOfOne();
    PutValue(0x1, 0x3);
    PutValue(0x3, 0x6);
    PutValue(0x6, 0xC);
    PutValue(0xC, 0x18);
    PutValue(0x18, 0x31);
    PutValue(0x31, 0x63);
    PutValue(0x63, 0xC6);
    PutValue(0xC6, 0x18C);
    PutValue(0x18C, 0x318);
    PutValue(0x318, 0x630);
    PutValue(0x630, 0xC60);
    PutValue(0xC60, 0x18C1);
    PutValue(0x18C1, 0x3182);
    PutValue(0x3182, 0x6304);
  }

  lemma ValueOfInitial()
    ensures Value(0xFFFF) == INITIAL
  {
    ValueOfOne();
    PutValue(0x1, 0x3);
    PutValue(0x3, 0x7);
    PutValue(0x7, 0xF);
    PutValue(0xF, 0x1F);
    PutValue(0x1F, 0x3F);
    PutValue(0x3F, 0x7F);
    PutValue(0x7F, 0xFF);
    PutValue(0xFF, 0x1FF);
    PutValue(0x1FF, 0x3FF);
    PutValue(0x3FF, 0x7FF);
    PutValue(0x7FF, 0xFFF);
    PutValue(0xFFF, 0x1FFF);
    PutValue(0x1FFF, 0x3FFF);
    PutValue(0x3FFF, 0x7FFF);
    PutValue(0x7FFF, 0xFFFF);
  }
}
