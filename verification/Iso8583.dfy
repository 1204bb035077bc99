/** The ISO 8583 codec (modules/adapters-iso8583/codec.js): ASCII type indicator, hexadecimal bitmaps,
    and a body laid out by a data-element specification. Proved for every specification. */
module Iso8583 {
  import opened Text
  import opened Collections

  datatype ElementType = Numeric | Alpha | AlphaSpecial | Other

  datatype FieldSpec =
    | Fixed(kind: ElementType, length: nat)
    | LlVar(kind: ElementType, maxLength: nat)
    | LllVar(kind: ElementType, maxLength: nat)

  type Spec = map<int, FieldSpec>

  datatype Message = Message(mti: string, fields: map<int, string>)

  datatype IsoError = InvalidMti | OutOfRange | NoSpec | TooLong | TooShort | InvalidBitmap | BadLength

  // ----- bits in a byte

  type Byte = b: nat | b < 256

  /** `b & (1 << k)` is not zero. */
  predicate TestBit(b: nat, k: nat) {
    if k == 0 then b % 2 == 1 else TestBit(b / 2, k - 1)
  }

  /** `b | (1 << k)` */
  function OrBit(b: nat, k: nat): nat {
    if k == 0 then (if b % 2 == 1 then b else b + 1) else 2 * OrBit(b / 2, k - 1) + b % 2
  }

  lemma {:induction false} OrBitTest(b: nat, j: nat, k: nat)
    ensures TestBit(OrBit(b, j), k) <==> j == k || TestBit(b, k)
  {
    if j > 0 {
      assert OrBit(b, j) / 2 == OrBit(b / 2, j - 1) && OrBit(b, j) % 2 == b % 2;
      if k > 0 {
        OrBitTest(b / 2, j - 1, k - 1);
      }
    } else if k > 0 {
      assert OrBit(b, 0) / 2 == b / 2;
    }
  }

  lemma OrBitBelow(b: nat, k: nat)
    requires k < 8 && b < 256
    ensures OrBit(b, k) < 256
  {
    assert Pow2(4) == 16 && Pow2(8) == 16 * Pow2(4);
    OrBitSmall(b, k, 8);
  }

  function Pow2(k: nat): (p: nat)
    ensures p > 0
  {
    if k == 0 then 1 else 2 * Pow2(k - 1)
  }

  lemma {:induction false} OrBitSmall(b: nat, k: nat, w: nat)
    requires k < w && b < Pow2(w)
    ensures OrBit(b, k) < Pow2(w)
  {
    if k == 0 {
      EvenPower(w);
    } else {
      OrBitSmall(b / 2, k - 1, w - 1);
      assert 2 * OrBit(b / 2, k - 1) + 1 < 2 * Pow2(w - 1);
    }
  }

  lemma EvenPower(w: nat)
    requires w > 0
    ensures Pow2(w) % 2 == 0
  {
  }

  // ----- bitmaps: eight bytes, bit 1 is the top bit of the first

  type Bitmap = s: seq<Byte> | |s| == 8 witness [0, 0, 0, 0, 0, 0, 0, 0]

  type BitNumber = b: int | 1 <= b <= 64 witness 1

  predicate IsBitSet(bitmap: Bitmap, bit: BitNumber) {
    TestBit(bitmap[(bit - 1) / 8], 7 - (bit - 1) % 8)
  }

  function WithBit(bitmap: Bitmap, bit: BitNumber): Bitmap {
    var k := (bit - 1) / 8;
    OrBitBelow(bitmap[k], 7 - (bit - 1) % 8);
    bitmap[k := OrBit(bitmap[k], 7 - (bit - 1) % 8)]
  }

  /** Setting a bit changes that bit only. */
  lemma WithBitSets(bitmap: Bitmap, bit: BitNumber, other: BitNumber)
    ensures IsBitSet(WithBit(bitmap, bit), other) <==> other == bit || IsBitSet(bitmap, other)
  {
    if (bit - 1) / 8 == (other - 1) / 8 {
      OrBitTest(bitmap[(bit - 1) / 8], 7 - (bit - 1) % 8, 7 - (other - 1) % 8);
    }
  }

  const NO_BITS: Bitmap := [0, 0, 0, 0, 0, 0, 0, 0]

  lemma {:induction false} ZeroHasNoBits(k: nat)
    ensures !TestBit(0, k)
  {
    if k > 0 {
      ZeroHasNoBits(k - 1);
    }
  }

  method SetBit(bitmap: array<Byte>, bit: BitNumber)
    requires bitmap.Length == 8
    modifies bitmap
    ensures bitmap[..] == WithBit(old(bitmap[..]), bit)
  {
    var byteIndex := (bit - 1) / 8;
    var bitInByte := 7 - (bit - 1) % 8;
    OrBitBelow(bitmap[byteIndex], bitInByte);
    bitmap[byteIndex] := OrBit(bitmap[byteIndex], bitInByte);
  }

  // ----- hexadecimal text

  predicate IsHex(c: char) {
    '0' <= c <= '9' || 'A' <= c <= 'F' || 'a' <= c <= 'f'
  }

  function HexValue(c: char): (d: nat)
    requires IsHex(c)
    ensures d < 16
  {
    if c <= '9' then c as int - '0' as int
    else if c <= 'F' then c as int - 'A' as int + 10
    else c as int - 'a' as int + 10
  }

  function ToHex(bytes: seq<Byte>): (s: string)
    ensures |s| == 2 * |bytes|
  {
    if bytes == [] then "" else [HexChar(bytes[0] / 16), HexChar(bytes[0] % 16)] + ToHex(bytes[1..])
  }

  predicate AllHex(s: string) {
    forall i :: 0 <= i < |s| ==> IsHex(s[i])
  }

  function FromHex(s: string): (bytes: seq<Byte>)
    requires |s| % 2 == 0 && AllHex(s)
    ensures |bytes| == |s| / 2
  {
    if s == "" then [] else [16 * HexValue(s[0]) + HexValue(s[1])] + FromHex(s[2..])
  }

  lemma HexOfByte(b: Byte)
    ensures IsHex(HexChar(b / 16)) && IsHex(HexChar(b % 16))
    ensures 16 * HexValue(HexChar(b / 16)) + HexValue(HexChar(b % 16)) == b
  {
  }

  /** Reading a bitmap's hexadecimal text gives back its bytes. */
  lemma {:induction false} HexRoundTrip(bytes: seq<Byte>)
    ensures AllHex(ToHex(bytes)) && FromHex(ToHex(bytes)) == bytes
  {
    if bytes != [] {
      HexRoundTrip(bytes[1..]);
      HexOfByte(bytes[0]);
      var s := ToHex(bytes);
      assert s[2..] == ToHex(bytes[1..]);
      assert forall i :: 2 <= i < |s| ==> s[i] == s[2..][i - 2];
    }
  }

  // ----- one data element

  /** `encodeFieldBody` */
  function EncodeFieldBody(value: string, spec: FieldSpec): Result<string, IsoError> {
    match spec
    case LlVar(_, max) =>
      if |value| > max then Err(TooLong) else Ok(PadStart(Print(|value|), 2, '0') + value)
    case LllVar(_, max) =>
      if |value| > max then Err(TooLong) else Ok(PadStart(Print(|value|), 3, '0') + value)
    case Fixed(kind, length) =>
      if |value| > length then Err(TooLong)
      else Ok(if kind.Numeric? then PadStart(value, length, '0') else PadEnd(value, length, ' '))
  }

  datatype Decoded = Decoded(value: string, consumed: int)

  function DecodeVar(s: string, pos: int, width: nat): Result<Decoded, IsoError> {
    ReadVar(s, pos + width, width, ParseInt(Slice(s, pos, pos + width)))
  }

  function ReadVar(s: string, pos: int, width: nat, length: Option<int>): Result<Decoded, IsoError> {
    match length
    case None => Err(BadLength)
    case Some(n) => Ok(Decoded(Slice(s, pos, pos + n), width + n))
  }

  /** `decodeFieldBody`. A length text such as "-9" moves the position backwards, so it may be negative. */
  function DecodeFieldBody(s: string, pos: int, spec: FieldSpec): Result<Decoded, IsoError> {
    match spec
    case LlVar(_, _) => DecodeVar(s, pos, 2)
    case LllVar(_, _) => DecodeVar(s, pos, 3)
    case Fixed(kind, length) =>
      var raw := Slice(s, pos, pos + length);
      Ok(Decoded(if kind.Alpha? || kind.AlphaSpecial? then TrimEnd(raw) else raw, length))
  }

  /** What a value becomes on the wire and back. */
  function Normal(value: string, spec: FieldSpec): string {
    match spec
    case LlVar(_, _) => value
    case LllVar(_, _) => value
    case Fixed(Numeric, length) => PadStart(value, length, '0')
    case Fixed(Other, length) => PadEnd(value, length, ' ')
    case Fixed(_, length) => TrimEnd(PadEnd(value, length, ' '))
  }

  /** The length prefix of a variable field is wide enough for this value. */
  predicate PrefixHolds(value: string, spec: FieldSpec) {
    match spec
    case LlVar(_, _) => |value| <= 99
    case LllVar(_, _) => |value| <= 999
    case Fixed(_, _) => true
  }

  lemma SliceInside(s: string, pos: nat, part: string, after: string)
    requires pos <= |s| && s[pos..] == part + after
    ensures Slice(s, pos, pos + |part|) == part
    ensures s[pos + |part|..] == after
  {
    assert pos + |part| <= |s|;
    assert s[pos..pos + |part|] == s[pos..][..|part|];
    assert s[pos + |part|..] == s[pos..][|part|..];
  }

  lemma DigitsInt(prefix: string, n: nat)
    requires prefix != "" && AllDigits(prefix) && Parse(prefix) == n
    ensures ParseInt(prefix) == Some(n)
  {
    ParseIntOfDigits(prefix);
  }

  lemma DecodeVarIs(s: string, pos: nat, prefix: string, n: int, value: string)
    requires Slice(s, pos, pos + |prefix|) == prefix && ParseInt(prefix) == Some(n)
    requires Slice(s, pos + |prefix|, pos + |prefix| + n) == value
    ensures DecodeVar(s, pos, |prefix|) == Ok(Decoded(value, |prefix| + n))
  {
  }

  lemma SlicesInside(s: string, pos: nat, a: string, b: string, after: string)
    requires pos <= |s| && s[pos..] == a + b + after
    ensures Slice(s, pos, pos + |a|) == a && Slice(s, pos + |a|, pos + |a| + |b|) == b
    ensures pos + |a| + |b| <= |s| && s[pos + |a| + |b|..] == after
  {
    assert s[pos..] == a + (b + after);
    SliceInside(s, pos, a, b + after);
    SliceInside(s, pos + |a|, b, after);
  }

  /** A digit prefix followed by as many characters as it says. */
  lemma VarDecodes(s: string, pos: nat, prefix: string, n: nat, value: string, after: string)
    requires ParseInt(prefix) == Some(n) && n == |value|
    requires pos <= |s| && s[pos..] == prefix + value + after
    ensures DecodeVar(s, pos, |prefix|) == Ok(Decoded(value, |prefix| + n))
    ensures pos + |prefix| + n <= |s| && s[pos + |prefix| + n..] == after
  {
    SlicesInside(s, pos, prefix, value, after);
    DecodeVarIs(s, pos, prefix, n, value);
  }

  lemma PrefixBounds()
    ensures Pow10(2) == 100 && Pow10(3) == 1000
  {
    assert Pow10(1) == 10 * Pow10(0) == 10;
  }

  lemma VariableDecodes(s: string, pos: nat, value: string, spec: FieldSpec, after: string)
    requires !spec.Fixed? && EncodeFieldBody(value, spec).Ok? && PrefixHolds(value, spec)
    requires pos <= |s| && s[pos..] == EncodeFieldBody(value, spec).value + after
    ensures var size := |EncodeFieldBody(value, spec).value|;
      && DecodeFieldBody(s, pos, spec) == Ok(Decoded(value, size))
      && pos + size <= |s| && s[pos + size..] == after
  {
    var width := if spec.LlVar? then 2 else 3;
    PrefixBounds();
    PaddedNumeral(|value|, width);
    DigitsInt(PadStart(Print(|value|), width, '0'), |value|);
    VarDecodes(s, pos, PadStart(Print(|value|), width, '0'), |value|, value, after);
  }

  /** One element decodes to the normal form of its value, and the position moves past it. */
  lemma FieldDecodes(s: string, pos: nat, value: string, spec: FieldSpec, after: string)
    requires EncodeFieldBody(value, spec).Ok? && PrefixHolds(value, spec)
    requires pos <= |s| && s[pos..] == EncodeFieldBody(value, spec).value + after
    ensures var size := |EncodeFieldBody(value, spec).value|;
      && DecodeFieldBody(s, pos, spec) == Ok(Decoded(Normal(value, spec), size))
      && pos + size <= |s| && s[pos + size..] == after
  {
    if spec.Fixed? {
      SliceInside(s, pos, EncodeFieldBody(value, spec).value, after);
    } else {
      VariableDecodes(s, pos, value, spec, after);
    }
  }

  lemma {:induction false} LeadingWidth(n: nat, w: nat)
    requires w > 0 && n >= Pow10(w)
    ensures |Print(n)| > w
  {
    PrintWidth(n, w);
  }

  lemma {:induction false} ParseBelow(s: string)
    requires AllDigits(s)
    ensures Parse(s) < Pow10(|s|)
  {
    if s != [] {
      ParseBelow(s[..|s| - 1]);
    }
  }

  lemma SliceWithin(s: string, i: nat, j: nat)
    ensures |Slice(s, i, j)| <= if i < j then j - i else 0
  {
  }

  /** When more digits follow the ones the decoder reads, the value comes out shorter than the first
      digits can express. */
  lemma VarCutShort(s: string, pos: nat, width: nat, digits: string, after: string)
    requires 0 < width <= |digits| && AllDigits(digits)
    requires pos <= |s| && s[pos..] == digits + after
    ensures DecodeVar(s, pos, width).Ok? && |DecodeVar(s, pos, width).value.value| < Pow10(width)
  {
    var text := digits[..width];
    CutDigits(digits, after, width);
    SliceInside(s, pos, text, digits[width..] + after);
    VarBelow(s, pos, width, text);
  }

  /** A length text of digits announces fewer characters than its width can count. */
  lemma VarBelow(s: string, pos: nat, width: nat, text: string)
    requires 0 < width == |text| && AllDigits(text) && Slice(s, pos, pos + width) == text
    ensures DecodeVar(s, pos, width).Ok? && |DecodeVar(s, pos, width).value.value| < Pow10(width)
  {
    VarReads(s, pos, width, text);
    ParseBelow(text);
    SliceWithin(s, pos + width, pos + width + Parse(text));
  }

  lemma CutDigits(digits: string, after: string, width: nat)
    requires width <= |digits|
    ensures digits + after == digits[..width] + (digits[width..] + after)
  {
  }

  /** A variable field whose length text is digits. */
  lemma VarReads(s: string, pos: nat, width: nat, text: string)
    requires 0 < width == |text| && AllDigits(text) && Slice(s, pos, pos + width) == text
    ensures DecodeVar(s, pos, width).Ok?
    ensures DecodeVar(s, pos, width).value.value == Slice(s, pos + width, pos + width + Parse(text))
  {
    ParseIntOfDigits(text);
    LengthRead(s, pos, width, text, Parse(text));
  }

  lemma LengthRead(s: string, pos: nat, width: nat, text: string, n: nat)
    requires Slice(s, pos, pos + width) == text && ParseInt(text) == Some(n)
    ensures DecodeVar(s, pos, width) == Ok(Decoded(Slice(s, pos + width, pos + width + n), width + n))
  {
  }

  lemma FieldCutShort(s: string, pos: nat, value: string, spec: FieldSpec, after: string)
    requires EncodeFieldBody(value, spec).Ok? && !PrefixHolds(value, spec)
    requires pos <= |s| && s[pos..] == EncodeFieldBody(value, spec).value + after
    ensures DecodeFieldBody(s, pos, spec).Ok? && DecodeFieldBody(s, pos, spec).value.value != Normal(value, spec)
  {
    PrefixBounds();
    var width := if spec.LlVar? then 2 else 3;
    LeadingWidth(|value|, width);
    var digits := Print(|value|);
    assert EncodeFieldBody(value, spec).value + after == digits + (value + after);
    VarCutShort(s, pos, width, digits, value + after);
  }

  // ----- the whole message

  predicate IsMti(s: string) {
    |s| == 4 && AllDigits(s)
  }

  lemma {:induction false} LeastExists(keys: set<int>)
    ensures keys == {} || exists k :: k in keys && forall j :: j in keys ==> k <= j
  {
    if forall x :: x !in keys {
      assert keys == {};
    } else {
      var x :| x in keys;
      var rest := keys - {x};
      LeastExists(rest);
      assert forall j :: j in keys ==> j == x || j in rest;
      if rest != {} {
        var y :| y in rest && forall j :: j in rest ==> y <= j;
        var k := if x <= y then x else y;
        assert k in keys && forall j :: j in keys ==> k <= j;
      }
    }
  }

  function Least(keys: set<int>): (k: int)
    requires keys != {}
    ensures k in keys && forall j :: j in keys ==> k <= j
  {
    LeastExists(keys);
    var k :| k in keys && forall j :: j in keys ==> k <= j;
    k
  }

  /** `Object.keys(fields).map(Number).sort((a, b) => a - b)` */
  function SortedKeys(keys: set<int>): (ns: seq<int>)
    ensures forall n :: n in ns <==> n in keys
    ensures forall i, j :: 0 <= i < j < |ns| ==> ns[i] < ns[j]
  {
    if keys == {} then []
    else
      var k := Least(keys);
      [k] + SortedKeys(keys - {k})
  }

  predicate InRange(ns: seq<int>) {
    InRangeUpTo(ns, |ns|)
  }

  predicate InRangeUpTo(ns: seq<int>, i: nat)
    requires i <= |ns|
  {
    forall k :: 0 <= k < i ==> 2 <= ns[k] <= 128
  }

  predicate NeedsSecondary(ns: seq<int>) {
    exists n :: n in ns && n > 64
  }

  /** What one number does to the primary bitmap. */
  function MarkLow(bitmap: Bitmap, n: int): Bitmap
    requires 2 <= n <= 128
  {
    if n <= 64 then WithBit(bitmap, n) else bitmap
  }

  /** What one number does to the secondary bitmap. */
  function MarkHigh(bitmap: Bitmap, n: int): Bitmap
    requires 2 <= n <= 128
  {
    if n <= 64 then bitmap else WithBit(bitmap, n - 64)
  }

  /** The primary bitmap after the first i numbers; bit 1 announces a secondary bitmap. */
  function PrimaryAfter(ns: seq<int>, i: nat): Bitmap
    requires i <= |ns| && InRangeUpTo(ns, i)
  {
    if i == 0 then (if NeedsSecondary(ns) then WithBit(NO_BITS, 1) else NO_BITS)
    else MarkLow(PrimaryAfter(ns, i - 1), ns[i - 1])
  }

  function SecondaryAfter(ns: seq<int>, i: nat): Bitmap
    requires i <= |ns| && InRangeUpTo(ns, i)
  {
    if i == 0 then NO_BITS else MarkHigh(SecondaryAfter(ns, i - 1), ns[i - 1])
  }

  lemma {:induction false} PrimaryListed(ns: seq<int>, i: nat, b: BitNumber)
    requires i <= |ns| && InRangeUpTo(ns, i)
    ensures IsBitSet(PrimaryAfter(ns, i), b) <==> b in ns[..i] || (b == 1 && NeedsSecondary(ns))
  {
    if i == 0 {
      ZeroHasNoBits(7 - (b - 1) % 8);
      WithBitSets(NO_BITS, 1, b);
    } else {
      PrimaryListed(ns, i - 1, b);
      assert ns[..i] == ns[..i - 1] + [ns[i - 1]];
      if ns[i - 1] <= 64 {
        WithBitSets(PrimaryAfter(ns, i - 1), ns[i - 1], b);
      }
    }
  }

  lemma {:induction false} SecondaryListed(ns: seq<int>, i: nat, b: BitNumber)
    requires i <= |ns| && InRangeUpTo(ns, i)
    ensures IsBitSet(SecondaryAfter(ns, i), b) <==> b + 64 in ns[..i]
  {
    if i == 0 {
      ZeroHasNoBits(7 - (b - 1) % 8);
    } else {
      SecondaryListed(ns, i - 1, b);
      assert ns[..i] == ns[..i - 1] + [ns[i - 1]];
      if ns[i - 1] > 64 {
        WithBitSets(SecondaryAfter(ns, i - 1), ns[i - 1] - 64, b);
      }
    }
  }

  function Primary(ns: seq<int>): Bitmap
    requires InRange(ns)
  {
    PrimaryAfter(ns, |ns|)
  }

  function Secondary(ns: seq<int>): Bitmap
    requires InRange(ns)
  {
    SecondaryAfter(ns, |ns|)
  }

  predicate Known(ns: seq<int>, fields: map<int, string>) {
    forall i :: 0 <= i < |ns| ==> ns[i] in fields
  }

  /** The bodies from the i-th on, one after the other, or the first error. */
  function Body(ns: seq<int>, i: nat, fields: map<int, string>, spec: Spec): Result<string, IsoError>
    requires i <= |ns| && Known(ns, fields)
    decreases |ns| - i
  {
    if i == |ns| then Ok("")
    else if ns[i] !in spec then Err(NoSpec)
    else
      var first :- EncodeFieldBody(fields[ns[i]], spec[ns[i]]);
      var rest :- Body(ns, i + 1, fields, spec);
      Ok(first + rest)
  }

  function Bitmaps(ns: seq<int>): string
    requires InRange(ns)
  {
    ToHex(Primary(ns)) + if NeedsSecondary(ns) then ToHex(Secondary(ns)) else ""
  }

  function EncodedText(m: Message, spec: Spec): Result<string, IsoError> {
    var ns := SortedKeys(m.fields.Keys);
    if !IsMti(m.mti) then Err(InvalidMti)
    else if !InRange(ns) then Err(OutOfRange)
    else
      var body :- Body(ns, 0, m.fields, spec);
      Ok(m.mti + Bitmaps(ns) + body)
  }

  lemma EncodedOf(m: Message, spec: Spec, ns: seq<int>, text: string, body: string)
    requires IsMti(m.mti) && ns == SortedKeys(m.fields.Keys) && InRange(ns) && Body(ns, 0, m.fields, spec) == Ok(body)
    requires text == m.mti + Bitmaps(ns) + body
    ensures EncodedText(m, spec) == Ok(text) && Encoded(m, spec) == Ok(ToAscii(text))
  {
  }

  /** `Buffer.from(s, 'ascii')` keeps the low eight bits of each character. */
  function ToAscii(s: string): (bytes: seq<Byte>)
    ensures |bytes| == |s|
  {
    seq(|s|, i requires 0 <= i < |s| => s[i] as int % 256)
  }

  /** `buf.toString('ascii')` keeps the low seven bits of each byte. */
  function FromAscii(bytes: seq<Byte>): (s: string)
    ensures |s| == |bytes|
  {
    seq(|bytes|, i requires 0 <= i < |bytes| => (bytes[i] % 128) as char)
  }

  function Encoded(m: Message, spec: Spec): Result<seq<Byte>, IsoError> {
    var text :- EncodedText(m, spec);
    Ok(ToAscii(text))
  }

  /** One turn of the loop that sets the bits. */
  method MarkNumber(primary: array<Byte>, secondary: array<Byte>, n: int)
    requires primary.Length == 8 && secondary.Length == 8 && primary != secondary && 2 <= n <= 128
    modifies primary, secondary
    ensures primary[..] == MarkLow(old(primary[..]), n) && secondary[..] == MarkHigh(old(secondary[..]), n)
  {
    if n <= 64 {
      SetBit(primary, n);
    } else {
      SetBit(secondary, n - 64);
    }
  }

  /** The loop of `setBit` calls over the sorted field numbers. */
  method SetBits(ns: seq<int>, primary: array<Byte>, secondary: array<Byte>) returns (ok: bool)
    requires primary.Length == 8 && secondary.Length == 8 && primary != secondary
    requires primary[..] == NO_BITS && secondary[..] == NO_BITS
    modifies primary, secondary
    ensures ok == InRange(ns)
    ensures ok ==> primary[..] == Primary(ns) && secondary[..] == Secondary(ns)
  {
    if exists n :: n in ns && n > 64 {
      SetBit(primary, 1);
    }
    var i := 0;
    while i < |ns|
      invariant 0 <= i <= |ns| && InRangeUpTo(ns, i)
      invariant primary[..] == PrimaryAfter(ns, i) && secondary[..] == SecondaryAfter(ns, i)
    {
      if ns[i] < 2 || ns[i] > 128 {
        return false;
      }
      BitmapsStep(ns, i);
      MarkNumber(primary, secondary, ns[i]);
      i := i + 1;
    }
    return true;
  }

  lemma BitmapsStep(ns: seq<int>, i: nat)
    requires i < |ns| && InRangeUpTo(ns, i) && 2 <= ns[i] <= 128
    ensures InRangeUpTo(ns, i + 1)
    ensures PrimaryAfter(ns, i + 1) == MarkLow(PrimaryAfter(ns, i), ns[i])
    ensures SecondaryAfter(ns, i + 1) == MarkHigh(SecondaryAfter(ns, i), ns[i])
  {
  }

  /** `whole` is the text so far followed by what appending the rest adds. */
  predicate Extends(whole: Result<string, IsoError>, body: string, rest: Result<string, IsoError>) {
    whole == match rest case Ok(more) => Ok(body + more) case Err(e) => Err(e)
  }

  lemma ExtendsBy(whole: Result<string, IsoError>, body: string, piece: string, rest: Result<string, IsoError>,
      tail: Result<string, IsoError>)
    requires Extends(whole, body, rest)
    requires rest == match tail case Ok(more) => Ok(piece + more) case Err(e) => Err(e)
    ensures Extends(whole, body + piece, tail)
  {
    if tail.Ok? {
      assert body + (piece + tail.value) == (body + piece) + tail.value;
    }
  }

  method AppendBodies(ns: seq<int>, fields: map<int, string>, spec: Spec) returns (r: Result<string, IsoError>)
    requires Known(ns, fields)
    ensures r == Body(ns, 0, fields, spec)
  {
    var body := "";
    var i := 0;
    ghost var whole := Body(ns, 0, fields, spec);
    assert whole.Ok? ==> "" + whole.value == whole.value;
    while i < |ns|
      invariant 0 <= i <= |ns|
      invariant Extends(whole, body, Body(ns, i, fields, spec))
    {
      if ns[i] !in spec {
        return Err(NoSpec);
      }
      var piece := EncodeFieldBody(fields[ns[i]], spec[ns[i]]);
      if piece.Err? {
        return Err(piece.error);
      }
      ExtendsBy(whole, body, piece.value, Body(ns, i, fields, spec), Body(ns, i + 1, fields, spec));
      body := body + piece.value;
      i := i + 1;
    }
    assert body + "" == body;
    return Ok(body);
  }

  method HexBitmaps(ns: seq<int>) returns (r: Result<string, IsoError>)
    ensures r == if InRange(ns) then Ok(Bitmaps(ns)) else Err(OutOfRange)
  {
    var primary := new Byte[8](_ => 0);
    var secondary := new Byte[8](_ => 0);
    assert primary[..] == NO_BITS && secondary[..] == NO_BITS;
    var inRange := SetBits(ns, primary, secondary);
    if !inRange {
      return Err(OutOfRange);
    }
    var secondaryHex := "";
    if exists n :: n in ns && n > 64 {
      secondaryHex := ToHex(secondary[..]);
    }
    return Ok(ToHex(primary[..]) + secondaryHex);
  }

  method Encode8583(m: Message, spec: Spec) returns (r: Result<seq<Byte>, IsoError>)
    ensures r == Encoded(m, spec)
  {
    if !(|m.mti| == 4 && AllDigits(m.mti)) {
      return Err(InvalidMti);
    }
    var ns := SortedKeys(m.fields.Keys);
    var bitmaps := HexBitmaps(ns);
    if bitmaps.Err? {
      return Err(bitmaps.error);
    }
    var body := AppendBodies(ns, m.fields, spec);
    if body.Err? {
      return Err(body.error);
    }
    var text := m.mti + bitmaps.value + body.value;
    EncodedOf(m, spec, ns, text, body.value);
    return Ok(ToAscii(text));
  }

  // ----- decoding

  predicate Present(primary: Bitmap, secondary: Option<Bitmap>, n: int)
    requires 2 <= n <= 128
  {
    if n <= 64 then IsBitSet(primary, n) else secondary.Some? && IsBitSet(secondary.value, n - 64)
  }

  /** The element numbers that the bitmaps announce. */
  function Announced(primary: Bitmap, secondary: Option<Bitmap>): (bits: set<int>)
    ensures forall n :: n in bits ==> 2 <= n <= 128
  {
    set n | 2 <= n <= 128 && Present(primary, secondary, n)
  }

  /** The elements from number n on, read from position pos. */
  function DecodeFrom(s: string, pos: int, n: nat, bits: set<int>, spec: Spec):
    Result<map<int, string>, IsoError>
    requires 2 <= n <= 129
    decreases 129 - n
  {
    if n == 129 then Ok(map[])
    else if n !in bits then DecodeFrom(s, pos, n + 1, bits, spec)
    else if n !in spec then Err(NoSpec)
    else
      var field :- DecodeFieldBody(s, pos, spec[n]);
      var rest :- DecodeFrom(s, pos + field.consumed, n + 1, bits, spec);
      Ok(map[n := field.value] + rest)
  }

  predicate IsBitmapText(s: string) {
    |s| == 16 && AllHex(s)
  }

  datatype Header = Header(primary: Bitmap, secondary: Option<Bitmap>, size: nat)

  /** The bitmaps that follow the type indicator. */
  function DecodeBitmaps(s: string): Result<Header, IsoError>
    requires |s| >= 20
  {
    if !IsBitmapText(s[4..20]) then Err(InvalidBitmap)
    else
      var primary := FromHex(s[4..20]);
      if !IsBitSet(primary, 1) then Ok(Header(primary, None, 20))
      else
        var text := Slice(s, 20, 36);
        if !IsBitmapText(text) then Err(InvalidBitmap) else Ok(Header(primary, Some(FromHex(text)), 36))
  }

  function DecodedText(s: string, spec: Spec): Result<Message, IsoError> {
    if |s| < 20 then Err(TooShort)
    else if !IsMti(s[..4]) then Err(InvalidMti)
    else
      var h :- DecodeBitmaps(s);
      var fields :- DecodeFrom(s, h.size, 2, Announced(h.primary, h.secondary), spec);
      Ok(Message(s[..4], fields))
  }

  function DecodedMessage(bytes: seq<Byte>, spec: Spec): Result<Message, IsoError> {
    DecodedText(FromAscii(bytes), spec)
  }

  lemma MapStep(fields: map<int, string>, n: int, value: string, rest: map<int, string>)
    requires n !in rest
    ensures fields + (map[n := value] + rest) == fields[n := value] + rest
  {
  }

  lemma {:induction false} DecodedAfter(s: string, pos: int, n: nat, bits: set<int>, spec: Spec, k: int)
    requires 2 <= n <= 129 && k < n && DecodeFrom(s, pos, n, bits, spec).Ok?
    ensures k !in DecodeFrom(s, pos, n, bits, spec).value
    decreases 129 - n
  {
    if n < 129 {
      if n in bits {
        var field := DecodeFieldBody(s, pos, spec[n]).value;
        DecodedAfter(s, pos + field.consumed, n + 1, bits, spec, k);
      } else {
        DecodedAfter(s, pos, n + 1, bits, spec, k);
      }
    }
  }

  /** `whole` is what reading the rest adds to the fields read so far. */
  predicate Continues(whole: Result<map<int, string>, IsoError>, fields: map<int, string>,
      rest: Result<map<int, string>, IsoError>) {
    whole == match rest case Ok(more) => Ok(fields + more) case Err(e) => Err(e)
  }

  /** `whole` is what the element n with this value adds to the elements after it. */
  predicate Adds(n: int, value: string, whole: Result<map<int, string>, IsoError>,
      tail: Result<map<int, string>, IsoError>) {
    match tail
    case Ok(rest) => n !in rest && whole == Ok(map[n := value] + rest)
    case Err(e) => whole == Err(e)
  }

  /** One element read, and whatever comes of the rest. */
  lemma DecodeHere(s: string, pos: int, n: nat, bits: set<int>, spec: Spec, value: string, size: int,
                   tail: Result<map<int, string>, IsoError>)
    requires 2 <= n <= 128 && n in bits && n in spec
    requires DecodeFieldBody(s, pos, spec[n]) == Ok(Decoded(value, size))
    requires tail == DecodeFrom(s, pos + size, n + 1, bits, spec)
    ensures DecodeFrom(s, pos, n, bits, spec) == if tail.Ok? then Ok(map[n := value] + tail.value) else tail
  {
  }

  lemma DecodeStep(s: string, pos: int, n: nat, bits: set<int>, spec: Spec, value: string, size: int)
    requires 2 <= n <= 128 && n in bits && n in spec
    requires DecodeFieldBody(s, pos, spec[n]) == Ok(Decoded(value, size))
    ensures Adds(n, value, DecodeFrom(s, pos, n, bits, spec),
                 DecodeFrom(s, pos + size, n + 1, bits, spec))
  {
    var tail := DecodeFrom(s, pos + size, n + 1, bits, spec);
    DecodeHere(s, pos, n, bits, spec, value, size, tail);
    if tail.Ok? {
      DecodedAfter(s, pos + size, n + 1, bits, spec, n);
    }
  }

  lemma ContinuesOver(whole: Result<map<int, string>, IsoError>, fields: map<int, string>, n: int, value: string,
                      here: Result<map<int, string>, IsoError>, tail: Result<map<int, string>, IsoError>)
    requires Continues(whole, fields, here) && Adds(n, value, here, tail)
    ensures Continues(whole, fields[n := value], tail)
  {
    if tail.Ok? {
      MapStep(fields, n, value, tail.value);
    }
  }

  lemma ContinuesFromStart(whole: Result<map<int, string>, IsoError>)
    ensures Continues(whole, map[], whole)
  {
    if whole.Ok? {
      assert map[] + whole.value == whole.value;
    }
  }

  lemma ContinuesToEnd(whole: Result<map<int, string>, IsoError>, fields: map<int, string>)
    requires Continues(whole, fields, Ok(map[]))
    ensures whole == Ok(fields)
  {
    assert fields + map[] == fields;
  }

  /** The loop over the field numbers, from a given position. */
  lemma ElementRead(s: string, pos: int, n: nat, bits: set<int>, spec: Spec, value: string, size: int,
                    whole: Result<map<int, string>, IsoError>, fields: map<int, string>)
    requires 2 <= n <= 128 && n in bits && n in spec
    requires DecodeFieldBody(s, pos, spec[n]) == Ok(Decoded(value, size))
    requires Continues(whole, fields, DecodeFrom(s, pos, n, bits, spec))
    ensures Continues(whole, fields[n := value], DecodeFrom(s, pos + size, n + 1, bits, spec))
  {
    DecodeStep(s, pos, n, bits, spec, value, size);
    ContinuesOver(whole, fields, n, value, DecodeFrom(s, pos, n, bits, spec),
      DecodeFrom(s, pos + size, n + 1, bits, spec));
  }

  /** What one turn of the reading loop does. */
  datatype Turn = Skip | Stop(error: IsoError) | Read(value: string, consumed: int)

  method ReadElement(s: string, pos: int, n: nat, primary: Bitmap, secondary: Option<Bitmap>, spec: Spec)
      returns (t: Turn)
    requires 2 <= n <= 128
    ensures var bits := Announced(primary, secondary);
      match t
      case Skip => n !in bits
      case Stop(e) => n in bits && DecodeFrom(s, pos, n, bits, spec) == Err(e)
      case Read(value, consumed) =>
        n in bits && n in spec && DecodeFieldBody(s, pos, spec[n]) == Ok(Decoded(value, consumed))
  {
    if !Present(primary, secondary, n) {
      return Skip;
    }
    if n !in spec {
      return Stop(NoSpec);
    }
    var field := DecodeFieldBody(s, pos, spec[n]);
    if field.Err? {
      return Stop(field.error);
    }
    return Read(field.value.value, field.value.consumed);
  }

  method ReadFields(s: string, start: int, primary: Bitmap, secondary: Option<Bitmap>, spec: Spec)
    returns (r: Result<map<int, string>, IsoError>)
    ensures r == DecodeFrom(s, start, 2, Announced(primary, secondary), spec)
  {
    ghost var bits := Announced(primary, secondary);
    var fields: map<int, string> := map[];
    var pos := start;
    var n := 2;
    ghost var whole := DecodeFrom(s, start, 2, bits, spec);
    ContinuesFromStart(whole);
    while n <= 128
      invariant 2 <= n <= 129
      invariant Continues(whole, fields, DecodeFrom(s, pos, n, bits, spec))
    {
      var turn := ReadElement(s, pos, n, primary, secondary, spec);
      match turn {
        case Skip =>
        case Stop(error) =>
          return Err(error);
        case Read(value, consumed) =>
          ElementRead(s, pos, n, bits, spec, value, consumed, whole, fields);
          fields := fields[n := value];
          pos := pos + consumed;
      }
      n := n + 1;
    }
    ContinuesToEnd(whole, fields);
    return Ok(fields);
  }

  method Decode8583(bytes: seq<Byte>, spec: Spec) returns (r: Result<Message, IsoError>)
    ensures r == DecodedMessage(bytes, spec)
  {
    var ascii := FromAscii(bytes);
    if |ascii| < 4 + 16 {
      return Err(TooShort);
    }
    var mti := ascii[..4];
    if !(|mti| == 4 && AllDigits(mti)) {
      return Err(InvalidMti);
    }
    var pos := 4;
    var primaryHex := ascii[pos..pos + 16];
    pos := pos + 16;
    if !IsBitmapText(primaryHex) {
      return Err(InvalidBitmap);
    }
    var primary: Bitmap := FromHex(primaryHex);
    var secondary: Option<Bitmap> := None;
    if IsBitSet(primary, 1) {
      var secondaryHex := Slice(ascii, pos, pos + 16);
      pos := pos + 16;
      if !IsBitmapText(secondaryHex) {
        return Err(InvalidBitmap);
      }
      secondary := Some(FromHex(secondaryHex));
    }
    var fields := ReadFields(ascii, pos, primary, secondary, spec);
    if fields.Err? {
      return Err(fields.error);
    }
    return Ok(Message(mti, fields.value));
  }

  // ----- decoding inverts encoding

  ghost predicate Sorted(ns: seq<int>) {
    forall i, j :: 0 <= i < j < |ns| ==> ns[i] < ns[j]
  }

  /** The i-th number is the first that is at least n. */
  ghost predicate StartsAt(ns: seq<int>, i: nat, n: int)
    requires i <= |ns|
  {
    && (i < |ns| ==> n <= ns[i])
    && (i > 0 ==> ns[i - 1] < n)
  }

  lemma NumberAt(ns: seq<int>, i: nat, n: int)
    requires Sorted(ns) && i <= |ns| && StartsAt(ns, i, n)
    ensures n in ns <==> i < |ns| && ns[i] == n
  {
    if n in ns {
      var k :| 0 <= k < |ns| && ns[k] == n;
      assert k == i;
    }
  }

  ghost predicate Specified(ns: seq<int>, spec: Spec) {
    forall i :: 0 <= i < |ns| ==> ns[i] in spec
  }

  lemma {:induction false} BodySpecified(ns: seq<int>, i: nat, fields: map<int, string>, spec: Spec)
    requires i <= |ns| && Known(ns, fields) && Body(ns, i, fields, spec).Ok?
    ensures forall k :: i <= k < |ns| ==> ns[k] in spec
    decreases |ns| - i
  {
    if i < |ns| {
      BodySpecified(ns, i + 1, fields, spec);
    }
  }

  function NormalFields(ns: seq<int>, i: nat, fields: map<int, string>, spec: Spec): map<int, string>
    requires i <= |ns| && Known(ns, fields) && Specified(ns, spec)
    decreases |ns| - i
  {
    if i == |ns| then map[]
    else map[ns[i] := Normal(fields[ns[i]], spec[ns[i]])] + NormalFields(ns, i + 1, fields, spec)
  }

  lemma {:induction false} NormalFieldsKeys(ns: seq<int>, i: nat, fields: map<int, string>, spec: Spec, k: int)
    requires i <= |ns| && Known(ns, fields) && Specified(ns, spec)
    ensures k in NormalFields(ns, i, fields, spec) <==> k in ns[i..]
    ensures k in ns[i..] ==>
      k in fields && k in spec && NormalFields(ns, i, fields, spec)[k] == Normal(fields[k], spec[k])
    decreases |ns| - i
  {
    if i < |ns| {
      NormalFieldsKeys(ns, i + 1, fields, spec, k);
      assert ns[i..] == [ns[i]] + ns[i + 1..];
    }
  }

  predicate PrefixHoldsAt(n: int, fields: map<int, string>, spec: Spec) {
    n in fields && n in spec && PrefixHolds(fields[n], spec[n])
  }

  /** Every prefix from the i-th on holds. */
  ghost predicate PrefixesHold(ns: seq<int>, i: nat, fields: map<int, string>, spec: Spec)
    requires i <= |ns|
    decreases |ns| - i
  {
    i == |ns| || (PrefixHoldsAt(ns[i], fields, spec) && PrefixesHold(ns, i + 1, fields, spec))
  }

  lemma {:induction false} PrefixesEach(ns: seq<int>, i: nat, fields: map<int, string>, spec: Spec)
    requires i <= |ns|
    ensures PrefixesHold(ns, i, fields, spec) <==> forall k :: i <= k < |ns| ==> PrefixHoldsAt(ns[k], fields, spec)
    decreases |ns| - i
  {
    if i < |ns| {
      PrefixesEach(ns, i + 1, fields, spec);
    }
  }

  ghost predicate Marks(bits: set<int>, ns: seq<int>) {
    forall k :: 2 <= k <= 128 ==> (k in bits <==> k in ns)
  }

  lemma HeadOnce(ns: seq<int>, i: nat, fields: map<int, string>, spec: Spec)
    requires i < |ns| && Known(ns, fields) && Specified(ns, spec) && Sorted(ns)
    ensures ns[i] !in NormalFields(ns, i + 1, fields, spec)
  {
    NormalFieldsKeys(ns, i + 1, fields, spec, ns[i]);
  }

  lemma BodyStep(s: string, pos: nat, ns: seq<int>, i: nat, fields: map<int, string>, spec: Spec)
      returns (piece: string, after: string)
    requires i < |ns| && Known(ns, fields)
    requires Body(ns, i, fields, spec).Ok? && pos <= |s| && s[pos..] == Body(ns, i, fields, spec).value
    ensures ns[i] in spec && EncodeFieldBody(fields[ns[i]], spec[ns[i]]) == Ok(piece)
    ensures Body(ns, i + 1, fields, spec) == Ok(after) && s[pos..] == piece + after
  {
    piece, after := EncodeFieldBody(fields[ns[i]], spec[ns[i]]).value, Body(ns, i + 1, fields, spec).value;
  }

  /** The element with number n is read, and the text of the others follows it. */
  lemma ElementReads(s: string, pos: nat, n: nat, fields: map<int, string>, spec: Spec, bits: set<int>, piece: string,
      after: string)
    requires 2 <= n <= 128 && n in bits && PrefixHoldsAt(n, fields, spec)
    requires EncodeFieldBody(fields[n], spec[n]) == Ok(piece) && pos <= |s| && s[pos..] == piece + after
    ensures pos + |piece| <= |s| && s[pos + |piece|..] == after
    ensures Adds(n, Normal(fields[n], spec[n]), DecodeFrom(s, pos, n, bits, spec),
                 DecodeFrom(s, pos + |piece|, n + 1, bits, spec))
  {
    FieldDecodes(s, pos, fields[n], spec[n], after);
    DecodeStep(s, pos, n, bits, spec, Normal(fields[n], spec[n]), |piece|);
  }

  lemma ElementCutShort(s: string, pos: nat, n: nat, ns: seq<int>, i: nat, fields: map<int, string>, spec: Spec,
      bits: set<int>)
    requires 2 <= n <= 128 && i < |ns| && ns[i] == n && Known(ns, fields) && Specified(ns, spec) && n in bits
    requires Body(ns, i, fields, spec).Ok? && pos <= |s| && s[pos..] == Body(ns, i, fields, spec).value
    requires !PrefixHoldsAt(n, fields, spec)
    ensures DecodeFrom(s, pos, n, bits, spec) != Ok(NormalFields(ns, i, fields, spec))
  {
    FieldCutShort(s, pos, fields[n], spec[n], Body(ns, i + 1, fields, spec).value);
    var Decoded(value, size) := DecodeFieldBody(s, pos, spec[n]).value;
    DecodeStep(s, pos, n, bits, spec, value, size);
    NormalFieldsKeys(ns, i, fields, spec, n);
    assert n in ns[i..];
  }

  lemma StepFinishes(ns: seq<int>, i: nat, fields: map<int, string>, spec: Spec,
                     whole: Result<map<int, string>, IsoError>, tail: Result<map<int, string>, IsoError>)
    requires i < |ns| && Known(ns, fields) && Specified(ns, spec) && Sorted(ns)
    requires PrefixHoldsAt(ns[i], fields, spec) && Adds(ns[i], Normal(fields[ns[i]], spec[ns[i]]), whole, tail)
    requires tail == Ok(NormalFields(ns, i + 1, fields, spec)) <==> PrefixesHold(ns, i + 1, fields, spec)
    ensures whole == Ok(NormalFields(ns, i, fields, spec)) <==> PrefixesHold(ns, i, fields, spec)
  {
    HeadOnce(ns, i, fields, spec);
    TailsAgree(ns[i], Normal(fields[ns[i]], spec[ns[i]]), whole, tail, NormalFields(ns, i + 1, fields, spec));
  }

  lemma TailsAgree(n: int, value: string, whole: Result<map<int, string>, IsoError>,
      tail: Result<map<int, string>, IsoError>, rest: map<int, string>)
    requires Adds(n, value, whole, tail) && n !in rest
    ensures whole == Ok(map[n := value] + rest) <==> tail == Ok(rest)
  {
    if tail.Ok? && map[n := value] + rest == map[n := value] + tail.value {
      var c := map[n := value] + rest;
      assert rest == c - {n} && tail.value == c - {n};
    }
  }

  lemma PastTheLast(s: string, pos: nat, ns: seq<int>, i: nat, fields: map<int, string>, spec: Spec, bits: set<int>)
    requires InRange(ns) && i <= |ns| && StartsAt(ns, i, 129) && Known(ns, fields) && Specified(ns, spec)
    ensures DecodeFrom(s, pos, 129, bits, spec) == Ok(NormalFields(ns, i, fields, spec))
    ensures PrefixesHold(ns, i, fields, spec)
  {
    assert i == |ns|;
  }

  /** An element not in the message is passed over. */
  lemma PassesOver(s: string, pos: nat, n: nat, ns: seq<int>, i: nat, bits: set<int>, spec: Spec)
    requires 2 <= n <= 128 && Sorted(ns) && Marks(bits, ns) && i <= |ns| && StartsAt(ns, i, n)
    requires i == |ns| || ns[i] != n
    ensures StartsAt(ns, i, n + 1) && DecodeFrom(s, pos, n, bits, spec) == DecodeFrom(s, pos, n + 1, bits, spec)
  {
    NumberAt(ns, i, n);
  }

  /** An element in the message is read, and the others follow it. */
  lemma ReadsOver(s: string, pos: nat, n: nat, ns: seq<int>, i: nat, fields: map<int, string>, spec: Spec,
      bits: set<int>)
    returns (next: nat)
    requires Known(ns, fields) && Sorted(ns) && Marks(bits, ns) && 2 <= n <= 128 && i < |ns| && ns[i] == n
    requires Body(ns, i, fields, spec).Ok? && pos <= |s| && s[pos..] == Body(ns, i, fields, spec).value
    requires PrefixHoldsAt(n, fields, spec)
    ensures StartsAt(ns, i + 1, n + 1) && Body(ns, i + 1, fields, spec).Ok?
    ensures next <= |s| && s[next..] == Body(ns, i + 1, fields, spec).value
    ensures Adds(n, Normal(fields[n], spec[n]), DecodeFrom(s, pos, n, bits, spec),
      DecodeFrom(s, next, n + 1, bits, spec))
  {
    var piece, after := BodyStep(s, pos, ns, i, fields, spec);
    ElementReads(s, pos, n, fields, spec, bits, piece, after);
    next := pos + |piece|;
  }

  /** Reading the concatenated bodies gives the normal form of every value, if and only if every
      length prefix holds. */
  lemma {:induction false} BodyDecodes(s: string, pos: nat, n: nat, ns: seq<int>, i: nat, fields: map<int, string>,
      spec: Spec, bits: set<int>)
    requires Known(ns, fields) && Specified(ns, spec) && Sorted(ns) && InRange(ns) && Marks(bits, ns)
    requires 2 <= n <= 129 && i <= |ns| && StartsAt(ns, i, n)
    requires Body(ns, i, fields, spec).Ok? && pos <= |s| && s[pos..] == Body(ns, i, fields, spec).value
    ensures DecodeFrom(s, pos, n, bits, spec) == Ok(NormalFields(ns, i, fields, spec)) <==>
      PrefixesHold(ns, i, fields, spec)
    decreases 129 - n
  {
    if n == 129 {
      PastTheLast(s, pos, ns, i, fields, spec, bits);
    } else if i == |ns| || ns[i] != n {
      PassesOver(s, pos, n, ns, i, bits, spec);
      BodyDecodes(s, pos, n + 1, ns, i, fields, spec, bits);
    } else if !PrefixHoldsAt(n, fields, spec) {
      NumberAt(ns, i, n);
      ElementCutShort(s, pos, n, ns, i, fields, spec, bits);
    } else {
      var next := ReadsOver(s, pos, n, ns, i, fields, spec, bits);
      BodyDecodes(s, next, n + 1, ns, i + 1, fields, spec, bits);
      StepFinishes(ns, i, fields, spec, DecodeFrom(s, pos, n, bits, spec), DecodeFrom(s, next, n + 1, bits, spec));
    }
  }

  /** The bitmaps list exactly the elements of the message. */
  lemma BitmapsMark(ns: seq<int>)
    requires InRange(ns)
    ensures IsBitSet(Primary(ns), 1) <==> NeedsSecondary(ns)
    ensures Marks(Announced(Primary(ns), if NeedsSecondary(ns) then Some(Secondary(ns)) else None), ns)
  {
    PrimaryListed(ns, |ns|, 1);
    assert ns[..|ns|] == ns;
    forall k | 2 <= k <= 128
      ensures Present(Primary(ns), if NeedsSecondary(ns) then Some(Secondary(ns)) else None, k) <==> k in ns
    {
      if k <= 64 {
        PrimaryListed(ns, |ns|, k);
      } else {
        SecondaryListed(ns, |ns|, k - 64);
      }
    }
  }

  lemma BitmapTextReads(bitmap: Bitmap)
    ensures IsBitmapText(ToHex(bitmap)) && FromHex(ToHex(bitmap)) == bitmap
  {
    HexRoundTrip(bitmap);
  }

  lemma HeaderDecodes(mti: string, ns: seq<int>, body: string)
    requires IsMti(mti) && InRange(ns)
    ensures var s := mti + Bitmaps(ns) + body;
      var secondary := if NeedsSecondary(ns) then Some(Secondary(ns)) else None;
      var size := if NeedsSecondary(ns) then 36 else 20;
      && |s| >= 20 && s[..4] == mti && size <= |s| && s[size..] == body
      && DecodeBitmaps(s) == Ok(Header(Primary(ns), secondary, size))
  {
    var s := mti + Bitmaps(ns) + body;
    BitmapTextReads(Primary(ns));
    BitmapTextReads(Secondary(ns));
    BitmapsMark(ns);
    assert s[..4] == mti;
    assert s[4..20] == ToHex(Primary(ns));
    if NeedsSecondary(ns) {
      assert s[20..36] == ToHex(Secondary(ns));
      assert s[36..] == body;
    } else {
      assert s[20..] == body;
    }
  }

  ghost predicate SevenBitText(s: string) {
    forall i :: 0 <= i < |s| ==> s[i] as int < 128
  }

  ghost predicate SevenBit(fields: map<int, string>) {
    forall n :: n in fields ==> SevenBitText(fields[n])
  }

  lemma AsciiRoundTrip(s: string)
    requires SevenBitText(s)
    ensures FromAscii(ToAscii(s)) == s
  {
    var t := FromAscii(ToAscii(s));
    forall i | 0 <= i < |s|
      ensures t[i] == s[i]
    {
      assert ToAscii(s)[i] == s[i] as int;
    }
  }

  lemma {:induction false} PrintSevenBit(n: nat)
    ensures SevenBitText(Print(n))
  {
    assert forall c :: IsDigit(c) ==> c as int < 128;
  }

  lemma PieceSevenBit(value: string, spec: FieldSpec)
    requires SevenBitText(value) && EncodeFieldBody(value, spec).Ok?
    ensures SevenBitText(EncodeFieldBody(value, spec).value)
  {
    PrintSevenBit(|value|);
  }

  lemma {:induction false} BodySevenBit(ns: seq<int>, i: nat, fields: map<int, string>, spec: Spec)
    requires i <= |ns| && Known(ns, fields) && SevenBit(fields) && Body(ns, i, fields, spec).Ok?
    ensures SevenBitText(Body(ns, i, fields, spec).value)
    decreases |ns| - i
  {
    if i < |ns| {
      BodySevenBit(ns, i + 1, fields, spec);
      var n := ns[i];
      assert n in fields && SevenBitText(fields[n]);
      PieceSevenBit(fields[n], spec[n]);
    }
  }

  lemma {:induction false} HexSevenBit(bytes: seq<Byte>)
    ensures SevenBitText(ToHex(bytes))
  {
    HexRoundTrip(bytes);
    assert forall c :: IsHex(c) ==> c as int < 128;
  }

  lemma TextSevenBit(mti: string, ns: seq<int>, body: string)
    requires IsMti(mti) && InRange(ns) && SevenBitText(body)
    ensures SevenBitText(mti + Bitmaps(ns) + body)
  {
    HexSevenBit(Primary(ns));
    HexSevenBit(Secondary(ns));
    assert forall c :: IsDigit(c) ==> c as int < 128;
  }

  predicate Encodable(n: int, fields: map<int, string>, spec: Spec) {
    n in fields && n in spec && EncodeFieldBody(fields[n], spec[n]).Ok?
  }

  /** `encode8583` accepts a message exactly when the type indicator has four digits and every element
      has a number from 2 to 128, a specification, and a value within its length. */
  lemma AcceptedExactly(m: Message, spec: Spec)
    ensures Encoded(m, spec).Ok? <==>
      && IsMti(m.mti)
      && (forall n :: n in m.fields ==> 2 <= n <= 128)
      && (forall n :: n in m.fields ==> Encodable(n, m.fields, spec))
  {
    var ns := SortedKeys(m.fields.Keys);
    BodyAccepted(ns, 0, m.fields, spec);
    EveryKey(ns, m.fields, n => 2 <= n <= 128);
    EveryKey(ns, m.fields, n => Encodable(n, m.fields, spec));
    AcceptedParts(m, spec, ns);
  }

  lemma AcceptedParts(m: Message, spec: Spec, ns: seq<int>)
    requires ns == SortedKeys(m.fields.Keys)
    ensures Encoded(m, spec).Ok? <==> IsMti(m.mti) && InRange(ns) && Body(ns, 0, m.fields, spec).Ok?
  {
  }

  /** What holds along the sorted numbers holds of every element. */
  lemma EveryKey(ns: seq<int>, fields: map<int, string>, p: int -> bool)
    requires ns == SortedKeys(fields.Keys)
    ensures (forall i :: 0 <= i < |ns| ==> p(ns[i])) <==> forall n :: n in fields ==> p(n)
  {
    if forall i :: 0 <= i < |ns| ==> p(ns[i]) {
      forall n | n in fields
        ensures p(n)
      {
        assert n in ns;
      }
    } else {
      var i :| 0 <= i < |ns| && !p(ns[i]);
      assert ns[i] in ns && ns[i] in fields;
    }
  }

  lemma {:induction false} BodyAccepted(ns: seq<int>, i: nat, fields: map<int, string>, spec: Spec)
    requires i <= |ns| && Known(ns, fields)
    ensures Body(ns, i, fields, spec).Ok? <==> forall k :: i <= k < |ns| ==> Encodable(ns[k], fields, spec)
    decreases |ns| - i
  {
    if i < |ns| {
      BodyAccepted(ns, i + 1, fields, spec);
    }
  }

  ghost predicate FullySpecified(m: Message, spec: Spec) {
    forall n :: n in m.fields ==> n in spec
  }

  function NormalMessage(m: Message, spec: Spec): Message
    requires FullySpecified(m, spec)
  {
    Message(m.mti, map n | n in m.fields :: Normal(m.fields[n], spec[n]))
  }

  lemma TextDecodes(mti: string, ns: seq<int>, fields: map<int, string>, spec: Spec, s: string)
    requires IsMti(mti) && InRange(ns) && Sorted(ns) && Known(ns, fields) && Specified(ns, spec)
    requires Body(ns, 0, fields, spec).Ok? && s == mti + Bitmaps(ns) + Body(ns, 0, fields, spec).value
    ensures DecodedText(s, spec) == Ok(Message(mti, NormalFields(ns, 0, fields, spec))) <==>
      PrefixesHold(ns, 0, fields, spec)
  {
    HeaderDecodes(mti, ns, Body(ns, 0, fields, spec).value);
    BitmapsMark(ns);
    var h := DecodeBitmaps(s).value;
    BodyDecodes(s, h.size, 2, ns, 0, fields, spec, Announced(h.primary, h.secondary));
    DecodedTextOf(s, mti, spec, h);
  }

  lemma DecodedTextOf(s: string, mti: string, spec: Spec, h: Header)
    requires |s| >= 20 && s[..4] == mti && IsMti(mti) && DecodeBitmaps(s) == Ok(h)
    ensures DecodedText(s, spec) == match DecodeFrom(s, h.size, 2, Announced(h.primary, h.secondary), spec)
                                    case Ok(fields) => Ok(Message(mti, fields))
                                    case Err(e) => Err(e)
  {
  }

  lemma NormalOfMessage(m: Message, spec: Spec, ns: seq<int>)
    requires ns == SortedKeys(m.fields.Keys) && FullySpecified(m, spec)
    ensures Specified(ns, spec) && NormalFields(ns, 0, m.fields, spec) == NormalMessage(m, spec).fields
  {
    var a, b := NormalFields(ns, 0, m.fields, spec), NormalMessage(m, spec).fields;
    forall k: int
      ensures k in a <==> k in b
      ensures k in a ==> a[k] == b[k]
    {
      NormalOfKey(m, spec, ns, k);
    }
    SameMaps(a, b);
  }

  lemma NormalOfKey(m: Message, spec: Spec, ns: seq<int>, k: int)
    requires ns == SortedKeys(m.fields.Keys) && FullySpecified(m, spec) && Specified(ns, spec)
    ensures k in NormalFields(ns, 0, m.fields, spec) <==> k in m.fields
    ensures k in m.fields ==> NormalFields(ns, 0, m.fields, spec)[k] == Normal(m.fields[k], spec[k])
  {
    assert ns[0..] == ns;
    NormalFieldsKeys(ns, 0, m.fields, spec, k);
  }

  lemma OverElements(m: Message, spec: Spec, ns: seq<int>)
    requires ns == SortedKeys(m.fields.Keys)
    ensures PrefixesHold(ns, 0, m.fields, spec) <==> forall n :: n in m.fields ==> PrefixHoldsAt(n, m.fields, spec)
  {
    PrefixesEach(ns, 0, m.fields, spec);
    EveryKey(ns, m.fields, n => PrefixHoldsAt(n, m.fields, spec));
  }

  lemma AllSpecified(m: Message, spec: Spec, ns: seq<int>)
    requires ns == SortedKeys(m.fields.Keys) && Body(ns, 0, m.fields, spec).Ok?
    ensures Specified(ns, spec) && FullySpecified(m, spec)
  {
    BodySpecified(ns, 0, m.fields, spec);
    EveryKey(ns, m.fields, n => n in spec);
  }

  /** For every specification and every accepted 7-bit message, decoding the encoded bytes gives back
      the type indicator and the same elements, each in normal form, if and only if no value is
      longer than its own length prefix can say. */
  lemma RoundTrip(m: Message, spec: Spec)
    requires Encoded(m, spec).Ok? && SevenBit(m.fields)
    ensures FullySpecified(m, spec)
    ensures DecodedMessage(Encoded(m, spec).value, spec) == Ok(NormalMessage(m, spec))
      <==> forall n :: n in m.fields ==> PrefixHoldsAt(n, m.fields, spec)
  {
    var ns := SortedKeys(m.fields.Keys);
    AllSpecified(m, spec, ns);
    var body := Body(ns, 0, m.fields, spec).value;
    var s := m.mti + Bitmaps(ns) + body;
    BodySevenBit(ns, 0, m.fields, spec);
    TextSevenBit(m.mti, ns, body);
    AsciiRoundTrip(s);
    EncodedOf(m, spec, ns, s, body);
    TextDecodes(m.mti, ns, m.fields, spec, s);
    NormalOfMessage(m, spec, ns);
    OverElements(m, spec, ns);
  }

  // ----- a value longer than its length prefix can say

  lemma {:induction false} NoneInBetween(s: string, pos: int, from: nat, n: nat, bits: set<int>, spec: Spec)
    requires 2 <= from <= n <= 129 && forall k :: from <= k < n ==> k !in bits
    ensures DecodeFrom(s, pos, from, bits, spec) == DecodeFrom(s, pos, n, bits, spec)
    decreases n - from
  {
    if from < n {
      NoneInBetween(s, pos, from + 1, n, bits, spec);
    }
  }

  /** A single element is read, and nothing after it. */
  lemma OneElementRead(s: string, pos: int, n: nat, bits: set<int>, spec: Spec, value: string, size: int)
    requires 2 <= n <= 128 && Marks(bits, [n]) && n in spec
    requires DecodeFieldBody(s, pos, spec[n]) == Ok(Decoded(value, size))
    ensures DecodeFrom(s, pos, 2, bits, spec) == Ok(map[n := value])
  {
    assert forall k :: k in [n] <==> k == n;
    NoneInBetween(s, pos, 2, n, bits, spec);
    NoneInBetween(s, pos + size, n + 1, 129, bits, spec);
    DecodeHere(s, pos, n, bits, spec, value, size, Ok(map[]));
    assert map[n := value] + map[] == map[n := value];
  }

  lemma HundredPrinted()
    ensures Print(100) == "100" && Parse("10") == 10
  {
    assert Print(1) == "1" && Print(10) == "10";
    assert Parse("1") == 1 && "10"[..1] == "1";
  }

  /** The length 100 is read as 10, and its last digit as the first character of the value. */
  lemma HundredRead(s: string, pos: nat, value: string)
    requires |value| == 100 && pos <= |s| && s[pos..] == "100" + value
    ensures DecodeVar(s, pos, 2) == Ok(Decoded("0" + value[..9], 12))
  {
    HundredPrinted();
    ParseIntOfDigits("10");
    assert "100" + value == "10" + ("0" + value[..9]) + value[9..];
    VarDecodes(s, pos, "10", 10, "0" + value[..9], value[9..]);
  }

  lemma OneKey(n: int)
    ensures SortedKeys({n}) == [n]
  {
    var ns := SortedKeys({n});
    assert n in ns && forall i :: 0 <= i < |ns| ==> ns[i] in ns;
  }

  /** An element of exactly a hundred characters, of any number and under any limit that allows
      it, with a length prefix of two digits: the encoder accepts it, and the decoder finds ten characters, the
      first of them the last digit of the length. */
  lemma HundredCharacters(mti: string, n: nat, value: string, kind: ElementType, maxLength: nat)
    requires IsMti(mti) && 2 <= n <= 128 && SevenBitText(value) && |value| == 100 <= maxLength
    ensures var m, spec := Message(mti, map[n := value]), map[n as int := LlVar(kind, maxLength)];
      && Encoded(m, spec).Ok?
      && DecodedMessage(Encoded(m, spec).value, spec) == Ok(Message(mti, map[n := "0" + value[..9]]))
  {
    var m, spec := Message(mti, map[n := value]), map[n as int := LlVar(kind, maxLength)];
    var ns := [n as int];
    var body := "100" + value;
    OneKey(n);
    assert m.fields.Keys == {n as int};
    HundredBody(n, value, kind, maxLength);
    var s := mti + Bitmaps(ns) + body;
    EncodedOf(m, spec, ns, s, body);
    TextSevenBit(mti, ns, body);
    AsciiRoundTrip(s);
    HeaderDecodes(mti, ns, body);
    BitmapsMark(ns);
    var h := DecodeBitmaps(s).value;
    HundredRead(s, h.size, value);
    OneElementRead(s, h.size, n, Announced(h.primary, h.secondary), spec, "0" + value[..9], 12);
    DecodedTextOf(s, mti, spec, h);
  }

  lemma HundredBody(n: int, value: string, kind: ElementType, maxLength: nat)
    requires |value| == 100 <= maxLength
    ensures Body([n], 0, map[n := value], map[n := LlVar(kind, maxLength)]) == Ok("100" + value)
  {
    HundredPrinted();
    assert Body([n], 1, map[n := value], map[n := LlVar(kind, maxLength)]) == Ok("");
    assert "100" + value + "" == "100" + value;
  }

  /** A message with an account number of a hundred sevens comes back with a zero and nine sevens. */
  lemma LongValueMisread()
    ensures var m := Message("0200", map[2 := seq(100, _ => '7')]);
      var spec := map[2 := LlVar(Numeric, 100)];
      && Encoded(m, spec).Ok?
      && DecodedMessage(Encoded(m, spec).value, spec) == Ok(Message("0200", map[2 := "0777777777"]))
  {
    var value := seq(100, _ => '7');
    SevensText(value);
    HundredCharacters("0200", 2, value, Numeric, 100);
  }

  lemma SevensText(value: string)
    requires |value| == 100 && forall i :: 0 <= i < |value| ==> value[i] == '7'
    ensures SevenBitText(value) && "0" + value[..9] == "0777777777"
  {
  }

  // ----- encoding again

  ghost predicate OnlySpacesTrimmed(value: string) {
    forall i :: |TrimEnd(value)| <= i < |value| ==> value[i] == ' '
  }

  /** White space that decoding strips from the end is only the spaces encoding would put back. */
  ghost predicate EndsInSpaces(n: int, fields: map<int, string>, spec: Spec) {
    && n in fields && n in spec
    && (spec[n].Fixed? && (spec[n].kind.Alpha? || spec[n].kind.AlphaSpecial?) ==> OnlySpacesTrimmed(fields[n]))
  }

  lemma {:induction false} TrimPadded(value: string, k: nat)
    ensures TrimEnd(value + Repeat(' ', k)) == TrimEnd(value)
  {
    if k == 0 {
      assert value + Repeat(' ', 0) == value;
    } else {
      var s := value + Repeat(' ', k);
      assert s[..|s| - 1] == value + Repeat(' ', k - 1);
      TrimPadded(value, k - 1);
    }
  }

  lemma PadTrimmed(value: string, width: nat)
    requires |value| <= width
    ensures PadEnd(TrimEnd(PadEnd(value, width, ' ')), width, ' ') == PadEnd(value, width, ' ')
      <==> OnlySpacesTrimmed(value)
  {
    var padded := PadEnd(value, width, ' ');
    assert padded == value + Repeat(' ', width - |value|);
    TrimPadded(value, width - |value|);
    var t := TrimEnd(value);
    var again := PadEnd(t, width, ' ');
    assert again == t + Repeat(' ', width - |t|);
    assert forall i :: 0 <= i < |t| ==> again[i] == t[i] == value[i] == padded[i];
    assert forall i :: |t| <= i < width ==> again[i] == ' ';
    assert forall i :: |value| <= i < width ==> padded[i] == ' ';
    if again == padded {
      assert forall i :: |t| <= i < |value| ==> value[i] == padded[i] == again[i];
    }
  }

  lemma PieceAgain(n: int, fields: map<int, string>, spec: Spec)
    requires Encodable(n, fields, spec)
    ensures var piece, again :=
      EncodeFieldBody(fields[n], spec[n]), EncodeFieldBody(Normal(fields[n], spec[n]), spec[n]);
      again.Ok? && |again.value| == |piece.value| && (again == piece <==> EndsInSpaces(n, fields, spec))
  {
    if spec[n].Fixed? && (spec[n].kind.Alpha? || spec[n].kind.AlphaSpecial?) {
      PadTrimmed(fields[n], spec[n].length);
    }
  }

  lemma ConcatEqual(a: string, b: string, c: string, d: string)
    requires |a| == |b|
    ensures a + c == b + d <==> a == b && c == d
  {
    if a + c == b + d {
      assert a == (a + c)[..|a|] && b == (b + d)[..|a|];
      assert c == (a + c)[|a|..] && d == (b + d)[|a|..];
    }
  }

  ghost predicate NormalAlong(ns: seq<int>, fields: map<int, string>, normal: map<int, string>, spec: Spec)
    requires Known(ns, fields) && Known(ns, normal) && Specified(ns, spec)
  {
    forall i :: 0 <= i < |ns| ==> normal[ns[i]] == Normal(fields[ns[i]], spec[ns[i]])
  }

  ghost predicate SpacesFrom(ns: seq<int>, i: nat, fields: map<int, string>, spec: Spec)
    requires i <= |ns|
    decreases |ns| - i
  {
    i == |ns| || (EndsInSpaces(ns[i], fields, spec) && SpacesFrom(ns, i + 1, fields, spec))
  }

  lemma {:induction false} SpacesEach(ns: seq<int>, i: nat, fields: map<int, string>, spec: Spec)
    requires i <= |ns|
    ensures SpacesFrom(ns, i, fields, spec) <==> forall k :: i <= k < |ns| ==> EndsInSpaces(ns[k], fields, spec)
    decreases |ns| - i
  {
    if i < |ns| {
      SpacesEach(ns, i + 1, fields, spec);
    }
  }

  lemma {:induction false} BodyAgain(ns: seq<int>, i: nat, fields: map<int, string>, normal: map<int, string>,
      spec: Spec)
    requires i <= |ns| && Known(ns, fields) && Specified(ns, spec) && Known(ns, normal) && Body(ns, i, fields, spec).Ok?
    requires NormalAlong(ns, fields, normal, spec)
    ensures Body(ns, i, normal, spec).Ok?
    ensures Body(ns, i, normal, spec) == Body(ns, i, fields, spec) <==> SpacesFrom(ns, i, fields, spec)
    decreases |ns| - i
  {
    if i < |ns| {
      BodyAgain(ns, i + 1, fields, normal, spec);
      BodyPieceAgain(ns, i, fields, normal, spec);
    }
  }

  lemma BodyOf(ns: seq<int>, i: nat, fields: map<int, string>, spec: Spec, piece: string, rest: string)
    requires i < |ns| && Known(ns, fields) && ns[i] in spec && EncodeFieldBody(fields[ns[i]], spec[ns[i]]) == Ok(piece)
    requires Body(ns, i + 1, fields, spec) == Ok(rest)
    ensures Body(ns, i, fields, spec) == Ok(piece + rest)
  {
  }

  lemma BodyPieceAgain(ns: seq<int>, i: nat, fields: map<int, string>, normal: map<int, string>, spec: Spec)
    requires i < |ns| && Known(ns, fields) && ns[i] in spec && Known(ns, normal) && Body(ns, i, fields, spec).Ok?
    requires normal[ns[i]] == Normal(fields[ns[i]], spec[ns[i]]) && Body(ns, i + 1, normal, spec).Ok?
    ensures Body(ns, i, normal, spec).Ok?
    ensures Body(ns, i, normal, spec) == Body(ns, i, fields, spec)
      <==> EndsInSpaces(ns[i], fields, spec) && Body(ns, i + 1, normal, spec) == Body(ns, i + 1, fields, spec)
  {
    var n := ns[i];
    PieceAgain(n, fields, spec);
    var piece, again := EncodeFieldBody(fields[n], spec[n]).value, EncodeFieldBody(normal[n], spec[n]).value;
    var rest, restAgain := Body(ns, i + 1, fields, spec).value, Body(ns, i + 1, normal, spec).value;
    BodyOf(ns, i, fields, spec, piece, rest);
    BodyOf(ns, i, normal, spec, again, restAgain);
    ConcatEqual(again, piece, restAgain, rest);
  }

  /** Encoding the normal form again gives the same bytes, if and only if the white space at the end
      of every alphanumeric fixed value is spaces only. */
  lemma EncodeAgain(m: Message, spec: Spec)
    requires Encoded(m, spec).Ok? && SevenBit(m.fields)
    ensures FullySpecified(m, spec)
    ensures Encoded(NormalMessage(m, spec), spec) == Encoded(m, spec)
      <==> forall n :: n in m.fields ==> EndsInSpaces(n, m.fields, spec)
  {
    var ns := SortedKeys(m.fields.Keys);
    AllSpecified(m, spec, ns);
    NormalSevenBit(m, spec);
    NormalBodies(m, spec, ns);
    SameBytes(m, NormalMessage(m, spec), spec, ns);
  }

  lemma NormalBodies(m: Message, spec: Spec, ns: seq<int>)
    requires ns == SortedKeys(m.fields.Keys) && FullySpecified(m, spec) && Body(ns, 0, m.fields, spec).Ok?
    ensures NormalMessage(m, spec).fields.Keys == m.fields.Keys
    ensures Body(ns, 0, NormalMessage(m, spec).fields, spec).Ok?
    ensures Body(ns, 0, NormalMessage(m, spec).fields, spec) == Body(ns, 0, m.fields, spec)
      <==> forall n :: n in m.fields ==> EndsInSpaces(n, m.fields, spec)
  {
    var normal := NormalMessage(m, spec).fields;
    assert normal.Keys == m.fields.Keys;
    BodyAgain(ns, 0, m.fields, normal, spec);
    SpacesEach(ns, 0, m.fields, spec);
    EveryKey(ns, m.fields, n => EndsInSpaces(n, m.fields, spec));
  }

  lemma SameBytes(m: Message, other: Message, spec: Spec, ns: seq<int>)
    requires m.mti == other.mti && m.fields.Keys == other.fields.Keys && SevenBit(m.fields) && SevenBit(other.fields)
    requires Encoded(m, spec).Ok? && ns == SortedKeys(m.fields.Keys) && Body(ns, 0, other.fields, spec).Ok?
    ensures Encoded(other, spec) == Encoded(m, spec) <==> Body(ns, 0, other.fields, spec) == Body(ns, 0, m.fields, spec)
  {
    var front := m.mti + Bitmaps(ns);
    var body, again := Body(ns, 0, m.fields, spec).value, Body(ns, 0, other.fields, spec).value;
    EncodedOf(m, spec, ns, front + body, body);
    EncodedOf(other, spec, ns, front + again, again);
    BodySevenBit(ns, 0, m.fields, spec);
    TextSevenBit(m.mti, ns, body);
    BodySevenBit(ns, 0, other.fields, spec);
    TextSevenBit(m.mti, ns, again);
    AsciiInjective(front + again, front + body);
    ConcatEqual(front, front, again, body);
  }

  lemma AsciiInjective(s: string, t: string)
    requires SevenBitText(s) && SevenBitText(t)
    ensures ToAscii(s) == ToAscii(t) <==> s == t
  {
    AsciiRoundTrip(s);
    AsciiRoundTrip(t);
  }

  lemma NormalSevenBit(m: Message, spec: Spec)
    requires FullySpecified(m, spec) && SevenBit(m.fields)
    ensures SevenBit(NormalMessage(m, spec).fields)
  {
  }
}
