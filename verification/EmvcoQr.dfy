/** The EMVCo merchant-presented QR codec (modules/overlays-qr/emvco-encoder.js, emvco-decoder.js):
    nested tag-length-value text closed by a checksum. */
module EmvcoQr {
  import opened Text
  import Decimal
  import opened Crc16

  /** Every rejection of the codec carries the same code; Endless stands for the inputs on which the
      decoder's loop never ends, so that it gives no answer at all. */
  datatype QrError = ValidationFailed | Endless

  datatype Field = Field(id: string, value: string)

  /** `Buffer.from(text, 'utf8')` */
  type Utf8 = string -> seq<Byte>

  const PAYLOAD_FORMAT_INDICATOR := "01"
  const POI_STATIC := "11"
  const POI_DYNAMIC := "12"
  const SIKA_MAI_TAG := "26"
  const SIKA_GUI := "GH.SIKA.RAIL"
  const COUNTRY_CODE := "GH"
  const CRC_MARKER := "6304"
  const MAX_MERCHANT_NAME := 25
  const MAX_MERCHANT_CITY := 15
  const CURRENCY_NUMERIC: map<string, string> := map[
    "GHS" := "936", "USD" := "840", "EUR" := "978", "GBP" := "826", "NGN" := "566", "KES" := "404"]

  // ----- one field

  /** `tlv` on an id of two characters. */
  function Tlv(f: Field): Result<string, QrError> {
    if |f.id| != 2 || |f.value| > 99 then Err(ValidationFailed)
    else Ok(f.id + PadStart(Print(|f.value|), 2, '0') + f.value)
  }

  predicate Fits(f: Field) {
    |f.id| == 2 && |f.value| <= 99
  }

  predicate AllFit(fields: seq<Field>) {
    forall f :: f in fields ==> Fits(f)
  }

  /** `parseInt(text, 10)` on two characters, case by case. */
  function ParseIntOfTwo(text: string): Option<int>
    requires |text| == 2
  {
    var c, d := text[0], text[1];
    if IsDigit(c) then
      Some(if IsDigit(d) then 10 * DigitValue(c) + DigitValue(d) else DigitValue(c))
    else if !IsDigit(d) then None
    else if c == '-' then Some(0 - DigitValue(d) as int)
    else if c == '+' || IsSpace(c) then Some(DigitValue(d))
    else None
  }

  lemma ParseIntOfTwoAgrees(text: string)
    requires |text| == 2
    ensures ParseIntOfTwo(text) == ParseInt(text)
  {
    var c, d := text[0], text[1];
    assert SkipSpace(text, 2) == 2;
    assert SkipSpace(text, 0) == if !IsSpace(c) then 0 else if !IsSpace(d) then 1 else 2;
    assert forall n: nat :: NumberFrom(text, 2, n) == n;
    assert forall n: nat :: NumberFrom(text, 1, n) == if IsDigit(d) then 10 * n + DigitValue(d) else n;
    assert IsDigit(c) ==> NumberFrom(text, 0, 0) == NumberFrom(text, 1, DigitValue(c));
  }

  datatype Step = Done | Reject | Parsed(field: Field, next: int)

  /** One turn of the `parseTlvs` loop with the cursor at i. A length below -4 moves the cursor back,
      possibly before the text, where `slice` counts from the end. */
  function StepAt(s: string, i: int): Step {
    if i >= |s| then Done
    else if i + 4 > |s| then Reject
    else
      var digits := Slice(s, i + 2, i + 4);
      if |digits| != 2 || ParseIntOfTwo(digits).None? then Reject
      else
        var next := i + 4 + ParseIntOfTwo(digits).value;
        if next > |s| then Reject else Parsed(Field(Slice(s, i, i + 2), Slice(s, i + 4, next)), next)
  }

  /** What the loop gives from cursor i when it ends after at most this many fields, and None when it
      is still running by then. */
  function FieldsWithin(s: string, i: int, turns: nat): Option<Result<seq<Field>, QrError>>
    decreases turns
  {
    match StepAt(s, i)
    case Done => Some(Ok([]))
    case Reject => Some(Err(ValidationFailed))
    case Parsed(field, next) => if turns == 0 then None else Prefixed(field, FieldsWithin(s, next, turns - 1))
  }

  function Prefixed(field: Field, r: Option<Result<seq<Field>, QrError>>): Option<Result<seq<Field>, QrError>> {
    if r.Some? && r.value.Ok? then Some(Ok([field] + r.value.value)) else r
  }

  /** The body of the loop. */
  method ReadTlv(s: string, i: int) returns (step: Step)
    requires i < |s|
    ensures step == StepAt(s, i) && !step.Done?
  {
    if i + 4 > |s| {
      return Reject;
    }
    var id := Slice(s, i, i + 2);
    var digits := Slice(s, i + 2, i + 4);
    if |digits| != 2 {
      return Reject;
    }
    var length := ParseIntOfTwo(digits);
    if length.None? {
      return Reject;
    }
    if i + 4 + length.value > |s| {
      return Reject;
    }
    return Parsed(Field(id, Slice(s, i + 4, i + 4 + length.value)), i + 4 + length.value);
  }

  /** `parseTlvs`, cut off after so many fields: what its loop returns or throws, or None while it is
      still running. */
  method ParseTlvs(s: string, turns: nat) returns (r: Option<Result<seq<Field>, QrError>>)
    ensures r == FieldsWithin(s, 0, turns)
  {
    var out: seq<Field> := [];
    var i := 0;
    var left := turns;
    ghost var whole := FieldsWithin(s, 0, turns);
    FoundNothing(whole);
    while i < |s|
      invariant left >= 0
      invariant GoesOn(whole, out, s, i, left)
      decreases left
    {
      var step := ReadTlv(s, i);
      Turn(whole, out, s, i, left, step);
      match step {
        case Reject =>
          return Some(Err(ValidationFailed));
        case Parsed(field, next) =>
          if left == 0 {
            return None;
          }
          out := out + [field];
          i := next;
          left := left - 1;
      }
    }
    Finished(whole, out, s, i, left);
    return Some(Ok(out));
  }

  /** The result r of the rest of the loop, after the fields in `out`. */
  function Found(out: seq<Field>, r: Option<Result<seq<Field>, QrError>>): Option<Result<seq<Field>, QrError>> {
    if r.Some? && r.value.Ok? then Some(Ok(out + r.value.value)) else r
  }

  /** The whole loop comes to what the rest of it adds to `out`. */
  ghost predicate GoesOn(whole: Option<Result<seq<Field>, QrError>>, out: seq<Field>, s: string, i: int, left: nat) {
    whole == Found(out, FieldsWithin(s, i, left))
  }

  lemma FoundNothing(r: Option<Result<seq<Field>, QrError>>)
    ensures Found([], r) == r
  {
    if r.Some? && r.value.Ok? {
      assert [] + r.value.value == r.value.value;
    }
  }

  lemma FoundOneMore(out: seq<Field>, field: Field, r: Option<Result<seq<Field>, QrError>>)
    ensures Found(out, Prefixed(field, r)) == Found(out + [field], r)
  {
    if r.Some? && r.value.Ok? {
      assert out + ([field] + r.value.value) == (out + [field]) + r.value.value;
    }
  }

  lemma Finished(whole: Option<Result<seq<Field>, QrError>>, out: seq<Field>, s: string, i: int, left: nat)
    requires GoesOn(whole, out, s, i, left) && i >= |s|
    ensures whole == Some(Ok(out))
  {
    assert out + [] == out;
  }

  /** What one turn makes of the loop. */
  lemma Turn(whole: Option<Result<seq<Field>, QrError>>, out: seq<Field>, s: string, i: int, left: nat, step: Step)
    requires GoesOn(whole, out, s, i, left) && step == StepAt(s, i)
    ensures step.Reject? ==> whole == Some(Err(ValidationFailed))
    ensures step.Parsed? && left == 0 ==> whole == None
    ensures step.Parsed? && left > 0 ==> GoesOn(whole, out + [step.field], s, step.next, left - 1)
  {
    if step.Parsed? && left > 0 {
      FoundOneMore(out, step.field, FieldsWithin(s, step.next, left - 1));
    }
  }

  // ----- when the loop ends

  /** The loop ends: after some number of fields it is done or throws. */
  ghost predicate Ends(s: string) {
    exists turns: nat :: FieldsWithin(s, 0, turns).Some?
  }

  /** The cursor after the field at i, if there is one. */
  function Advance(s: string): int -> Option<int> {
    i => if StepAt(s, i).Parsed? then Some(StepAt(s, i).next) else None
  }

  /** n steps from i, if all can be taken. */
  function After(advance: int -> Option<int>, i: int, n: nat): Option<int>
    decreases n
  {
    if n == 0 then Some(i) else if advance(i).Some? then After(advance, advance(i).value, n - 1) else None
  }

  /** The cursor after n fields from cursor i, if the loop gets that far. */
  function CursorAfter(s: string, i: int, n: nat): Option<int> {
    After(Advance(s), i, n)
  }

  lemma {:induction false} StillRunning(s: string, i: int, turns: nat)
    ensures FieldsWithin(s, i, turns).None? <==> CursorAfter(s, i, turns + 1).Some?
    decreases turns
  {
    match StepAt(s, i)
    case Parsed(_, next) =>
      if turns > 0 {
        StillRunning(s, next, turns - 1);
      } else {
        assert CursorAfter(s, i, 1) == CursorAfter(s, next, 0);
      }
    case _ =>
  }

  lemma {:induction false} AfterLater(advance: int -> Option<int>, i: int, m: nat, n: nat, there: int)
    requires After(advance, i, m) == Some(there)
    ensures After(advance, i, m + n) == After(advance, there, n)
    decreases m
  {
    if m > 0 {
      AfterLater(advance, advance(i).value, m - 1, n, there);
    }
  }

  lemma {:induction false} AfterEarlier(advance: int -> Option<int>, i: int, m: nat, n: nat)
    requires m <= n && After(advance, i, n).Some?
    ensures After(advance, i, m).Some?
    decreases m
  {
    if m > 0 {
      AfterEarlier(advance, advance(i).value, m - 1, n - 1);
    }
  }

  lemma CursorLater(s: string, i: int, m: nat, n: nat)
    requires CursorAfter(s, i, m).Some?
    ensures CursorAfter(s, i, m + n) == CursorAfter(s, CursorAfter(s, i, m).value, n)
  {
    AfterLater(Advance(s), i, m, n, CursorAfter(s, i, m).value);
  }

  lemma CursorEarlier(s: string, i: int, m: nat, n: nat)
    requires m <= n && CursorAfter(s, i, n).Some?
    ensures CursorAfter(s, i, m).Some?
  {
    AfterEarlier(Advance(s), i, m, n);
  }

  /** A loop that gives its result within some number of fields gives the same within more. */
  lemma {:induction false} ResultStays(s: string, i: int, turns: nat, more: nat)
    requires turns <= more && FieldsWithin(s, i, turns).Some?
    ensures FieldsWithin(s, i, more) == FieldsWithin(s, i, turns)
    decreases turns
  {
    match StepAt(s, i)
    case Parsed(_, next) => ResultStays(s, next, turns - 1, more - 1);
    case _ =>
  }

  /** The cursor stands at the same place after a and after b fields. */
  predicate Repeats(s: string, a: nat, b: nat) {
    a < b && CursorAfter(s, 0, a).Some? && CursorAfter(s, 0, b) == CursorAfter(s, 0, a)
  }

  /** Once a cursor comes back, it comes back forever. */
  lemma {:induction false} RepeatNeverEnds(s: string, a: nat, b: nat, n: nat)
    requires Repeats(s, a, b)
    ensures CursorAfter(s, 0, n).Some?
    decreases n
  {
    if n <= b {
      CursorEarlier(s, 0, n, b);
    } else {
      var k := n - b;
      RepeatNeverEnds(s, a, b, a + k);
      AfterRepeat(s, a, b, k);
    }
  }

  lemma AfterRepeat(s: string, a: nat, b: nat, k: nat)
    requires Repeats(s, a, b)
    ensures CursorAfter(s, 0, b + k) == CursorAfter(s, 0, a + k)
  {
    CursorLater(s, 0, a, k);
    CursorLater(s, 0, b, k);
  }

  /** A field is parsed only with the cursor in this range, of 2 * |s| - 1 positions. */
  lemma ParsedWithin(s: string, i: int)
    requires StepAt(s, i).Parsed?
    ensures -|s| - 2 <= i <= |s| - 4
  {
  }

  /** Among more numbers than there are values, two are equal. */
  lemma {:induction false} Pigeonhole(c: seq<int>, low: int, n: nat) returns (a: nat, b: nat)
    requires |c| > n >= 1 && forall k :: 0 <= k < |c| ==> low <= c[k] < low + n
    ensures a < b < |c| && c[a] == c[b]
    decreases n
  {
    var top := low + n - 1;
    if n == 1 {
      a, b := 0, 1;
    } else if i: nat, j: nat :| i < j < |c| && c[i] == top && c[j] == top {
      a, b := i, j;
    } else if p: nat :| p < |c| && c[p] == top {
      a, b := Pigeonhole(c[..p] + c[p + 1..], low, n - 1);
      a, b := if a < p then a else a + 1, if b < p then b else b + 1;
    } else {
      a, b := Pigeonhole(c, low, n - 1);
    }
  }

  /** The number of fields within which a loop over s that ends at all has ended. */
  function Bound(s: string): nat {
    2 * |s|
  }

  /** A loop still running after that many fields has stood somewhere twice. */
  lemma LongRunRepeats(s: string) returns (a: nat, b: nat)
    requires FieldsWithin(s, 0, Bound(s)).None?
    ensures Repeats(s, a, b) && b <= Bound(s)
  {
    var n := Bound(s);
    StillRunning(s, 0, n);
    forall k: nat | k <= n
      ensures CursorAfter(s, 0, k).Some? && -|s| - 2 <= CursorAfter(s, 0, k).value <= |s| - 4
    {
      CursorInRange(s, k, n + 1);
    }
    var cursors := seq(n + 1, k requires 0 <= k <= n => CursorAfter(s, 0, k).value);
    CursorInRange(s, 0, n + 1);
    a, b := Pigeonhole(cursors, -|s| - 2, n - 1);
  }

  lemma CursorInRange(s: string, k: nat, n: nat)
    requires k < n && CursorAfter(s, 0, n).Some?
    ensures CursorAfter(s, 0, k).Some? && -|s| - 2 <= CursorAfter(s, 0, k).value <= |s| - 4
  {
    CursorEarlier(s, 0, k, n);
    CursorEarlier(s, 0, k + 1, n);
    CursorLater(s, 0, k, 1);
    ParsedWithin(s, CursorAfter(s, 0, k).value);
  }

  /** The loop ends exactly when its cursor never stands at one place twice, which shows within
      2 * |s| fields: then the loop has ended by that time. */
  lemma EndsExactly(s: string)
    ensures Ends(s) <==> FieldsWithin(s, 0, Bound(s)).Some?
    ensures Ends(s) <==> !exists a: nat, b: nat :: b <= Bound(s) && Repeats(s, a, b)
    ensures Ends(s) <==> !exists a: nat, b: nat :: Repeats(s, a, b)
  {
    if a: nat, b: nat :| Repeats(s, a, b) {
      forall turns: nat
        ensures FieldsWithin(s, 0, turns).None?
      {
        RepeatNeverEnds(s, a, b, turns + 1);
        StillRunning(s, 0, turns);
      }
    }
    if FieldsWithin(s, 0, Bound(s)).None? {
      var a, b := LongRunRepeats(s);
    }
  }

  lemma {:induction false} NeverSaysEndless(s: string, i: int, turns: nat)
    ensures FieldsWithin(s, i, turns) != Some(Err(Endless))
    decreases turns
  {
    match StepAt(s, i)
    case Parsed(_, next) =>
      if turns > 0 {
        NeverSaysEndless(s, next, turns - 1);
      }
    case _ =>
  }

  /** The fields of a text; Endless when the loop does not end. */
  function Fields(s: string): Result<seq<Field>, QrError> {
    match FieldsWithin(s, 0, Bound(s))
    case None => Err(Endless)
    case Some(r) => r
  }

  /** Whatever the loop returns or throws, after however many fields, is Fields; and Fields is Endless
      exactly when the loop does not end. */
  lemma FieldsExact(s: string)
    ensures forall turns: nat :: FieldsWithin(s, 0, turns).Some? ==> FieldsWithin(s, 0, turns).value == Fields(s)
    ensures Fields(s) == Err(Endless) <==> !Ends(s)
  {
    EndsExactly(s);
    NeverSaysEndless(s, 0, Bound(s));
    forall turns: nat | FieldsWithin(s, 0, turns).Some?
      ensures FieldsWithin(s, 0, turns).value == Fields(s)
    {
      ResultStays(s, 0, turns, turns + Bound(s));
      ResultStays(s, 0, Bound(s), turns + Bound(s));
    }
  }

  /** The cursor moves forward exactly when the length is not a minus sign and a digit from 4 up. */
  lemma ProgressExact(s: string, i: int)
    requires StepAt(s, i).Parsed?
    ensures var digits := Slice(s, i + 2, i + 4);
      StepAt(s, i).next > i <==> !(digits[0] == '-' && '4' <= digits[1] <= '9')
  {
  }

  /** No minus sign stands before a digit from 4 up. */
  predicate NoStepBack(s: string) {
    forall k: nat :: k + 1 < |s| && s[k] == '-' ==> !('4' <= s[k + 1] <= '9')
  }

  lemma ForwardOnly(s: string, i: int)
    requires NoStepBack(s) && StepAt(s, i).Parsed?
    ensures StepAt(s, i).next > i
  {
    var k := SlicePosition(|s|, i + 2);
    assert Slice(s, i + 2, i + 4) == s[k..k + 2];
    ProgressExact(s, i);
  }

  lemma {:induction false} CursorGrows(s: string, i: int, n: nat)
    requires NoStepBack(s) && CursorAfter(s, i, n).Some?
    ensures CursorAfter(s, i, n).value >= i + n
    decreases n
  {
    if n > 0 {
      ForwardOnly(s, i);
      CursorGrows(s, StepAt(s, i).next, n - 1);
    }
  }

  /** The loop ends on every text that has no minus sign before a digit from 4 up. */
  lemma ForwardEnds(s: string)
    requires NoStepBack(s)
    ensures Ends(s)
  {
    EndsExactly(s);
    forall a: nat, b: nat | Repeats(s, a, b)
      ensures false
    {
      CursorLater(s, 0, a, b - a);
      CursorGrows(s, CursorAfter(s, 0, a).value, b - a);
    }
  }

  lemma FieldsStep(s: string, i: int, f: Field, next: int, turns: nat, rest: seq<Field>)
    requires StepAt(s, i) == Parsed(f, next) && FieldsWithin(s, next, turns) == Some(Ok(rest))
    ensures FieldsWithin(s, i, turns + 1) == Some(Ok([f] + rest))
  {
  }

  /** With a length of "-4" the cursor stays where it is, and the loop never ends. */
  lemma StuckForever(turns: nat)
    ensures FieldsWithin("AB-4", 0, turns).None? && Fields("AB-4") == Err(Endless)
  {
    var s := "AB-4";
    assert s[2..4] == ['-', '4'] && s[0..2] == "AB";
    assert StepAt(s, 0) == Parsed(Field("AB", ""), 0);
    assert CursorAfter(s, 0, 1) == CursorAfter(s, 0, 0);
    assert Repeats(s, 0, 1);
    RepeatNeverEnds(s, 0, 1, turns + 1);
    StillRunning(s, 0, turns);
    EndsExactly(s);
    FieldsExact(s);
  }

  /** A length below -4 takes the cursor back, and the loop can still end: here the cursor stands at
      0, 4, 3 and 8. */
  lemma BackAndDone()
    ensures Fields("AA00B1-5") == Ok([Field("AA", ""), Field("B1", ""), Field("0B", "5")])
    ensures !NoStepBack("AA00B1-5")
  {
    var s := "AA00B1-5";
    assert s[2..4] == "00" && s[0..2] == "AA" && s[6..8] == "-5" && s[4..6] == "B1";
    assert s[5..7] == "1-" && s[3..5] == "0B" && s[7..8] == "5";
    assert StepAt(s, 0) == Parsed(Field("AA", ""), 4);
    assert StepAt(s, 4) == Parsed(Field("B1", ""), 3);
    assert StepAt(s, 3) == Parsed(Field("0B", "5"), 8);
    assert FieldsWithin(s, 8, 0) == Some(Ok([]));
    var f, g, h := Field("AA", ""), Field("B1", ""), Field("0B", "5");
    FieldsStep(s, 3, h, 8, 0, []);
    FieldsStep(s, 4, g, 3, 1, [h] + []);
    FieldsStep(s, 0, f, 4, 2, [g] + ([h] + []));
    assert [f, g, h] == [f] + ([g] + ([h] + []));
    FieldsExact(s);
    assert s[6] == '-' && s[7] == '5';
  }

  // ----- parsing inverts printing

  function TextOf(f: Field): string {
    f.id + PadStart(Print(|f.value|), 2, '0') + f.value
  }

  /** The text that appending the fields one after the other produces. */
  function Concat(fields: seq<Field>): string {
    if fields == [] then "" else TextOf(fields[0]) + Concat(fields[1..])
  }

  lemma ConcatAppend(a: seq<Field>, b: seq<Field>)
    ensures Concat(a + b) == Concat(a) + Concat(b)
  {
    if a == [] {
      assert a + b == b;
    } else {
      assert (a + b)[1..] == a[1..] + b;
      ConcatAppend(a[1..], b);
    }
  }

  lemma LengthDigits(n: nat)
    requires n <= 99
    ensures var t := PadStart(Print(n), 2, '0'); |t| == 2 && AllDigits(t) && ParseIntOfTwo(t) == Some(n)
  {
    if n < 10 {
      assert PadStart(Print(n), 2, '0') == ['0', DigitChar(n)];
    } else {
      assert Print(n) == [DigitChar(n / 10), DigitChar(n % 10)];
    }
  }

  /** Where the parts of a field's text lie. */
  lemma FieldLies(s: string, i: nat, f: Field, digits: string, after: string)
    requires i <= |s| && |f.id| == 2 && |digits| == 2 && s[i..] == f.id + digits + f.value + after
    ensures i + 4 + |f.value| <= |s| && s[i..i + 2] == f.id && s[i + 2..i + 4] == digits
    ensures s[i + 4..i + 4 + |f.value|] == f.value && s[i + 4 + |f.value|..] == after
  {
    var t := s[i..];
    var n := |f.value|;
    assert t[..2] == f.id && t[2..4] == digits && t[4..4 + n] == f.value && t[4 + n..] == after;
    assert s[i..i + 2] == t[..2];
    assert s[i + 2..i + 4] == t[2..4];
    assert s[i + 4..i + 4 + n] == t[4..4 + n];
    assert s[i + 4 + n..] == t[4 + n..];
  }

  lemma StepOverField(s: string, i: nat, f: Field, after: string)
    requires i <= |s| && s[i..] == TextOf(f) + after && Fits(f)
    ensures StepAt(s, i) == Parsed(f, i + |TextOf(f)|) && s[i + |TextOf(f)|..] == after
  {
    LengthDigits(|f.value|);
    FieldLies(s, i, f, PadStart(Print(|f.value|), 2, '0'), after);
  }

  lemma {:induction false} FieldsOfConcatFrom(s: string, i: nat, fields: seq<Field>)
    requires i <= |s| && s[i..] == Concat(fields) && AllFit(fields)
    ensures FieldsWithin(s, i, |fields|) == Some(Ok(fields))
    decreases |fields|
  {
    if fields != [] {
      var f, rest := fields[0], fields[1..];
      var next := i + |TextOf(f)|;
      StepOverField(s, i, f, Concat(rest));
      FieldsOfConcatFrom(s, next, rest);
      FieldsStep(s, i, f, next, |rest|, rest);
      assert fields == [f] + rest;
    }
  }

  /** Parsing the concatenation of any fields that `tlv` accepts gives back those fields. */
  lemma FieldsOfConcat(fields: seq<Field>)
    requires AllFit(fields)
    ensures Fields(Concat(fields)) == Ok(fields)
  {
    FieldsOfConcatFrom(Concat(fields), 0, fields);
    FieldsExact(Concat(fields));
  }

  /** The text read from i on has two digits wherever the parser looks for a length. */
  predicate DigitLengths(s: string, i: nat)
    decreases |s| - i
  {
    match StepAt(s, i)
    case Parsed(field, next) =>
      IsDigit(s[i + 2]) && IsDigit(s[i + 3]) && (DigitsMoveOn(s, i); DigitLengths(s, next))
    case _ => true
  }

  lemma DigitsMoveOn(s: string, i: nat)
    requires StepAt(s, i).Parsed? && IsDigit(s[i + 2]) && IsDigit(s[i + 3])
    ensures StepAt(s, i).next > i
  {
    assert s[i + 2..i + 4] == [s[i + 2], s[i + 3]];
  }

  lemma TwoDigits(c: char, d: char)
    requires IsDigit(c) && IsDigit(d)
    ensures var n := 10 * DigitValue(c) + DigitValue(d); n <= 99 && PadStart(Print(n), 2, '0') == [c, d]
  {
    var n := 10 * DigitValue(c) + DigitValue(d);
    assert DigitChar(DigitValue(c)) == c && DigitChar(DigitValue(d)) == d;
    if n < 10 {
      assert PadStart(Print(n), 2, '0') == ['0'] + [DigitChar(n)];
    } else {
      assert Print(n) == Print(n / 10) + [DigitChar(n % 10)];
    }
  }

  lemma StepText(s: string, i: nat)
    requires i < |s| && StepAt(s, i).Parsed? && IsDigit(s[i + 2]) && IsDigit(s[i + 3])
    ensures i < StepAt(s, i).next <= |s| && s[i..StepAt(s, i).next] == TextOf(StepAt(s, i).field)
  {
    DigitsStep(s, i);
    TwoDigits(s[i + 2], s[i + 3]);
    FieldParts(s, i, StepAt(s, i).next);
  }

  /** A step over a field whose length is two digits. */
  lemma DigitsStep(s: string, i: nat)
    requires i < |s| && StepAt(s, i).Parsed? && IsDigit(s[i + 2]) && IsDigit(s[i + 3])
    ensures var n := 10 * DigitValue(s[i + 2]) + DigitValue(s[i + 3]);
      i + 4 + n <= |s| && StepAt(s, i) == Parsed(Field(s[i..i + 2], s[i + 4..i + 4 + n]), i + 4 + n)
  {
    assert s[i + 2..i + 4] == [s[i + 2], s[i + 3]];
  }

  lemma FieldParts(s: string, i: nat, next: nat)
    requires i + 4 <= next <= |s|
    ensures s[i..next] == s[i..i + 2] + [s[i + 2], s[i + 3]] + s[i + 4..next]
  {
  }

  lemma {:induction false} ConcatOfFieldsFrom(s: string, i: nat, turns: nat, fields: seq<Field>)
    requires i <= |s| && DigitLengths(s, i) && FieldsWithin(s, i, turns) == Some(Ok(fields))
    ensures Concat(fields) == s[i..]
    decreases |s| - i
  {
    if i < |s| {
      var next := StepAt(s, i).next;
      OneFieldFirst(s, i, turns, fields);
      StepText(s, i);
      ConcatOfFieldsFrom(s, next, turns - 1, fields[1..]);
      TwoParts(s, i, next);
    }
  }

  lemma TwoParts(s: string, i: nat, next: nat)
    requires i <= next <= |s|
    ensures s[i..] == s[i..next] + s[next..]
  {
  }

  lemma OneFieldFirst(s: string, i: nat, turns: nat, fields: seq<Field>)
    requires i < |s| && DigitLengths(s, i) && FieldsWithin(s, i, turns) == Some(Ok(fields))
    ensures StepAt(s, i).Parsed? && IsDigit(s[i + 2]) && IsDigit(s[i + 3])
    ensures StepAt(s, i).next > i && DigitLengths(s, StepAt(s, i).next)
    ensures turns > 0 && fields != [] && fields[0] == StepAt(s, i).field
    ensures FieldsWithin(s, StepAt(s, i).next, turns - 1) == Some(Ok(fields[1..]))
  {
    var rest := FieldsWithin(s, StepAt(s, i).next, turns - 1).value.value;
    assert ([StepAt(s, i).field] + rest)[1..] == rest;
  }

  /** And printing what was parsed gives back the text, whenever every length was two digits. */
  lemma ConcatOfFields(s: string)
    requires DigitLengths(s, 0) && Fields(s).Ok?
    ensures Concat(Fields(s).value) == s
  {
    EndsExactly(s);
    NeverSaysEndless(s, 0, Bound(s));
    ConcatOfFieldsFrom(s, 0, Bound(s), Fields(s).value);
  }

  lemma {:induction false} DigitsEndFrom(s: string, i: nat)
    requires i <= |s| && DigitLengths(s, i)
    ensures FieldsWithin(s, i, |s| - i).Some?
    decreases |s| - i
  {
    if StepAt(s, i).Parsed? {
      var next := StepAt(s, i).next;
      StepText(s, i);
      DigitsEndFrom(s, next);
      ResultStays(s, next, |s| - next, |s| - i - 1);
    }
  }

  /** And the loop ends on every such text. */
  lemma DigitsEnd(s: string)
    requires DigitLengths(s, 0)
    ensures Ends(s)
  {
    DigitsEndFrom(s, 0);
  }

  // ----- encoding

  /** The encoder's argument; an absent, null or empty optional text is "". */
  datatype MpmInput = MpmInput(
    qrType: string, merchantParticipant: string, merchantAccountValue: string, mcc: string,
    currency: string, amountMinor: string, amountFractionDigits: nat, merchantName: string,
    merchantCity: string, reference: string)

  function MerchantInfo(x: MpmInput): seq<Field> {
    [Field("00", SIKA_GUI), Field("01", x.merchantParticipant), Field("02", x.merchantAccountValue)]
  }

  function CurrencyNumber(currency: string): string {
    if currency in CURRENCY_NUMERIC then CURRENCY_NUMERIC[currency] else ""
  }

  function AmountFields(x: MpmInput): seq<Field> {
    if x.qrType == "DYNAMIC" then [Field("54", Decimal.MinorToDecimal(x.amountMinor, x.amountFractionDigits))] else []
  }

  function NameFields(x: MpmInput): seq<Field> {
    [Field("58", COUNTRY_CODE), Field("59", x.merchantName)]
  }

  function CityFields(x: MpmInput): seq<Field> {
    if x.merchantCity != "" then [Field("60", x.merchantCity)] else []
  }

  function ReferenceFields(x: MpmInput): seq<Field> {
    if x.reference != "" then [Field("62", TextOf(Field("05", x.reference)))] else []
  }

  function FirstFields(x: MpmInput): seq<Field> {
    [Field("00", PAYLOAD_FORMAT_INDICATOR), Field("01", if x.qrType == "STATIC" then POI_STATIC else POI_DYNAMIC),
     Field(SIKA_MAI_TAG, Concat(MerchantInfo(x))), Field("52", x.mcc), Field("53", CurrencyNumber(x.currency))]
  }

  /** The fields of the payload, in the order they are appended. */
  function HeadFields(x: MpmInput): seq<Field> {
    FirstFields(x) + AmountFields(x) + NameFields(x) + CityFields(x) + ReferenceFields(x)
  }

  /** The encoder's own checks. */
  predicate ChecksPass(x: MpmInput) {
    && (x.qrType == "STATIC" || x.qrType == "DYNAMIC")
    && x.merchantParticipant != "" && x.merchantAccountValue != ""
    && |x.mcc| == 4 && AllDigits(x.mcc)
    && x.currency in CURRENCY_NUMERIC
    && |x.merchantName| <= MAX_MERCHANT_NAME && |x.merchantCity| <= MAX_MERCHANT_CITY
    && (x.qrType == "DYNAMIC" ==> x.amountMinor != "")
  }

  /** What the encoder accepts: the checks pass and every value fits a two-digit length. */
  predicate Encodable(x: MpmInput) {
    && ChecksPass(x)
    && AllFit(MerchantInfo(x))
    && (x.reference != "" ==> Fits(Field("05", x.reference)))
    && AllFit(HeadFields(x))
  }

  lemma MerchantInfoSize(x: MpmInput)
    requires AllFit(MerchantInfo(x))
    ensures |Concat(MerchantInfo(x))| == 24 + |x.merchantParticipant| + |x.merchantAccountValue|
  {
    var a, b, c := MerchantInfo(x)[0], MerchantInfo(x)[1], MerchantInfo(x)[2];
    assert MerchantInfo(x)[1..] == [b, c] && [b, c][1..] == [c] && [c][1..] == [];
    TextSize(a);
    TextSize(b);
    TextSize(c);
    assert Concat([c]) == TextOf(c) + Concat([]) && Concat([b, c]) == TextOf(b) + Concat([c]);
  }

  lemma TextSize(f: Field)
    requires Fits(f)
    ensures |TextOf(f)| == 4 + |f.value|
  {
    TwoDigitSize(|f.value|);
  }

  lemma TwoDigitSize(n: nat)
    requires n <= 99
    ensures |PadStart(Print(n), 2, '0')| == 2
  {
    if n < 10 {
      assert Repeat('0', 1) == "0";
    } else {
      assert |Print(n / 10)| == 1;
    }
  }

  /** What the encoder accepts, in lengths: a static or dynamic code, a four-digit category, one of six
      currencies, a name of at most 25 and a city of at most 15 characters, merchant data of at most 75 characters
      together, a reference of at most 95, and for a dynamic code an amount. */
  lemma EncodableExactly(x: MpmInput)
    ensures Encodable(x) <==>
      && (x.qrType == "STATIC" || x.qrType == "DYNAMIC")
      && x.merchantParticipant != "" && x.merchantAccountValue != ""
      && |x.merchantParticipant| + |x.merchantAccountValue| <= 75
      && |x.mcc| == 4 && AllDigits(x.mcc) && x.currency in {"GHS", "USD", "EUR", "GBP", "NGN", "KES"}
      && |x.merchantName| <= 25 && |x.merchantCity| <= 15 && |x.reference| <= 95
      && (x.qrType == "DYNAMIC" ==>
        x.amountMinor != "" && |Decimal.MinorToDecimal(x.amountMinor, x.amountFractionDigits)| <= 99)
  {
    MerchantFits(x);
    ReferenceFits(x);
    if ChecksPass(x) && AllFit(MerchantInfo(x)) {
      MerchantInfoSize(x);
      HeadLengths(x);
    }
  }

  lemma MerchantFits(x: MpmInput)
    ensures AllFit(MerchantInfo(x)) <==> |x.merchantParticipant| <= 99 && |x.merchantAccountValue| <= 99
  {
    assert MerchantInfo(x)[1] in MerchantInfo(x) && MerchantInfo(x)[2] in MerchantInfo(x);
    assert |SIKA_GUI| == 12;
  }

  lemma ReferenceFits(x: MpmInput)
    ensures x.reference != "" && |x.reference| <= 99 ==> |TextOf(Field("05", x.reference))| == 4 + |x.reference|
  {
    if |x.reference| <= 99 {
      TextSize(Field("05", x.reference));
    }
  }

  lemma FirstFit(x: MpmInput)
    requires ChecksPass(x) && AllFit(MerchantInfo(x))
    ensures AllFit(FirstFields(x)) <==> |Concat(MerchantInfo(x))| <= 99
  {
    assert FirstFields(x)[2] in FirstFields(x);
  }

  lemma OneFits(f: Field)
    ensures AllFit([f]) <==> Fits(f)
  {
    assert f in [f];
  }

  lemma HeadLengths(x: MpmInput)
    requires ChecksPass(x) && AllFit(MerchantInfo(x))
    ensures AllFit(HeadFields(x)) <==>
      && |Concat(MerchantInfo(x))| <= 99
      && (x.qrType == "DYNAMIC" ==> |Decimal.MinorToDecimal(x.amountMinor, x.amountFractionDigits)| <= 99)
      && (x.reference != "" ==> |TextOf(Field("05", x.reference))| <= 99)
  {
    HeadFits(x);
    FirstFit(x);
    OneFits(Field("54", Decimal.MinorToDecimal(x.amountMinor, x.amountFractionDigits)));
    OneFits(Field("60", x.merchantCity));
    OneFits(Field("62", TextOf(Field("05", x.reference))));
    NamesFit(x);
  }

  lemma NamesFit(x: MpmInput)
    requires ChecksPass(x)
    ensures AllFit(NameFields(x))
  {
  }

  function Payload(x: MpmInput): string {
    Concat(HeadFields(x)) + CRC_MARKER
  }

  function Encoded(x: MpmInput, utf8: Utf8): string {
    Payload(x) + ChecksumText(utf8(Payload(x)))
  }

  /** Append fields to the payload one after the other; the first value that does not fit ends it. */
  function Appended(payload: string, fields: seq<Field>): (r: Result<string, QrError>)
    ensures r == if AllFit(fields) then Ok(payload + Concat(fields)) else Err(ValidationFailed)
    decreases |fields|
  {
    if fields == [] then
      assert payload + "" == payload;
      Ok(payload)
    else
      assert fields == [fields[0]] + fields[1..];
      assert AllFit(fields) <==> Fits(fields[0]) && AllFit(fields[1..]);
      assert payload + TextOf(fields[0]) + Concat(fields[1..]) == payload + Concat(fields);
      match Tlv(fields[0])
      case Ok(t) => Appended(payload + t, fields[1..])
      case Err(e) => Err(e)
  }

  lemma AllFitAppend(a: seq<Field>, b: seq<Field>)
    ensures AllFit(a + b) <==> AllFit(a) && AllFit(b)
  {
    assert forall f :: f in a + b <==> f in a || f in b;
  }

  lemma HeadFits(x: MpmInput)
    ensures AllFit(HeadFields(x)) <==>
      AllFit(FirstFields(x)) && AllFit(AmountFields(x)) && AllFit(NameFields(x)) && AllFit(CityFields(x))
        && AllFit(ReferenceFields(x))
  {
    var a, b, c, d, e := FirstFields(x), AmountFields(x), NameFields(x), CityFields(x), ReferenceFields(x);
    AllFitAppend(a + b + c + d, e);
    AllFitAppend(a + b + c, d);
    AllFitAppend(a + b, c);
    AllFitAppend(a, b);
  }

  /** The payload up to the checksum tag, appended piece by piece. */
  method AppendHead(x: MpmInput) returns (r: Result<string, QrError>)
    ensures r == if AllFit(HeadFields(x)) then Ok(Concat(HeadFields(x))) else Err(ValidationFailed)
  {
    HeadConcat(x);
    HeadFits(x);
    var payload :- Appended("", FirstFields(x));
    assert payload == Concat(FirstFields(x));
    payload :- Appended(payload, AmountFields(x));
    payload :- Appended(payload, NameFields(x));
    payload :- Appended(payload, CityFields(x));
    payload :- Appended(payload, ReferenceFields(x));
    return Ok(payload);
  }

  /** `encodeMpm`: the checks, the nested account field, the payload, the checksum over everything
      including its own tag and length. */
  method EncodeMpm(x: MpmInput, utf8: Utf8) returns (r: Result<string, QrError>)
    ensures r == if Encodable(x) then Ok(Encoded(x, utf8)) else Err(ValidationFailed)
  {
    if !ChecksPass(x) {
      return Err(ValidationFailed);
    }
    var mai :- Appended("", MerchantInfo(x));
    if x.reference != "" {
      var inner :- Tlv(Field("05", x.reference));
    }
    var payload :- AppendHead(x);
    var withCrcPrefix := payload + CRC_MARKER;
    var crc := Crc16CcittFalse(utf8(withCrcPrefix));
    return Ok(withCrcPrefix + crc);
  }

  lemma HeadConcat(x: MpmInput)
    ensures Concat(HeadFields(x)) == Concat(FirstFields(x)) + Concat(AmountFields(x))
      + Concat(NameFields(x)) + Concat(CityFields(x)) + Concat(ReferenceFields(x))
  {
    var a, b, c, d, e := FirstFields(x), AmountFields(x), NameFields(x),
      CityFields(x), ReferenceFields(x);
    ConcatAppend(a + b + c + d, e);
    ConcatAppend(a + b + c, d);
    ConcatAppend(a + b, c);
    ConcatAppend(a, b);
  }

  // ----- decoding

  datatype Decoded = Decoded(
    payloadFormat: Option<string>, qrType: string, merchantParticipant: Option<string>,
    merchantAccountValue: Option<string>, mcc: Option<string>, currency: string, amount: Option<string>,
    countryCode: Option<string>, merchantName: Option<string>, merchantCity: Option<string>,
    reference: Option<string>)

  /** The value of the first field with this id, if any. */
  function Get(fields: seq<Field>, id: string): Option<string> {
    if fields == [] then None else if fields[0].id == id then Some(fields[0].value) else Get(fields[1..], id)
  }

  /** The last position at or before i where the marker stands. */
  function LastMarker(s: string, i: nat): Option<nat>
    requires i + 4 <= |s|
  {
    if s[i..i + 4] == CRC_MARKER then Some(i) else if i == 0 then None else LastMarker(s, i - 1)
  }

  function ToUpper(s: string): (r: string)
    ensures |r| == |s|
  {
    seq(|s|, i requires 0 <= i < |s| => if 'a' <= s[i] <= 'z' then (s[i] as int - 32) as char else s[i])
  }

  function CurrencyOfNumber(number: Option<string>): Option<string> {
    if number == Some("936") then Some("GHS") else if number == Some("840") then Some("USD")
    else if number == Some("978") then Some("EUR") else if number == Some("826") then Some("GBP")
    else if number == Some("566") then Some("NGN") else if number == Some("404") then Some("KES")
    else None
  }

  function TypeOfPoi(poi: Option<string>): Option<string> {
    if poi == Some(POI_STATIC) then Some("STATIC") else if poi == Some(POI_DYNAMIC) then Some("DYNAMIC") else None
  }

  function ReferenceOf(head: seq<Field>): Result<Option<string>, QrError> {
    match Get(head, "62")
    case None => Ok(None)
    case Some(data) =>
      if data == "" then Ok(None)
      else
        var inner :- Fields(data);
        Ok(Get(inner, "05"))
  }

  /** The decoder once the checksum has been accepted. */
  function DecodeFields(head: seq<Field>): Result<Decoded, QrError> {
    var mai := Get(head, SIKA_MAI_TAG);
    if mai.None? || mai.value == "" then Err(ValidationFailed)
    else
      var inner :- Fields(mai.value);
      if Get(inner, "00") != Some(SIKA_GUI) then Err(ValidationFailed)
      else
        var qrType := TypeOfPoi(Get(head, "01"));
        var currency := CurrencyOfNumber(Get(head, "53"));
        if qrType.None? || currency.None? then Err(ValidationFailed)
        else
          var reference :- ReferenceOf(head);
          Ok(Decoded(Get(head, "00"), qrType.value, Get(inner, "01"), Get(inner, "02"), Get(head, "52"),
            currency.value, Get(head, "54"), Get(head, "58"), Get(head, "59"), Get(head, "60"), reference))
  }

  function DecodeMpm(encoded: string, utf8: Utf8): Result<Decoded, QrError> {
    if |encoded| < 8 then Err(ValidationFailed)
    else
      var start := LastMarker(encoded, |encoded| - 4);
      if start.None? || start.value + 8 != |encoded| then Err(ValidationFailed)
      else if ToUpper(encoded[start.value + 4..]) != ChecksumText(utf8(encoded[..start.value + 4])) then
        Err(ValidationFailed)
      else
        var head :- Fields(encoded[..start.value]);
        DecodeFields(head)
  }

  // ----- the decoder answers

  lemma SliceKeeps(s: string, i: int, j: int)
    requires NoStepBack(s)
    ensures NoStepBack(Slice(s, i, j))
  {
    var from := SlicePosition(|s|, i);
    var t := Slice(s, i, j);
    forall k: nat | k + 1 < |t| && t[k] == '-'
      ensures !('4' <= t[k + 1] <= '9')
    {
      assert t[k] == s[from + k] && t[k + 1] == s[from + k + 1];
    }
  }

  lemma {:induction false} ValuesKeep(s: string, i: int, turns: nat, fields: seq<Field>)
    requires NoStepBack(s) && FieldsWithin(s, i, turns) == Some(Ok(fields))
    ensures forall f :: f in fields ==> NoStepBack(f.value)
    decreases turns
  {
    if StepAt(s, i).Parsed? {
      var next := StepAt(s, i).next;
      SliceKeeps(s, i + 4, next);
      ValuesKeep(s, next, turns - 1, FieldsWithin(s, next, turns - 1).value.value);
    }
  }

  lemma {:induction false} GetKeeps(fields: seq<Field>, id: string)
    requires (forall f :: f in fields ==> NoStepBack(f.value)) && Get(fields, id).Some?
    ensures NoStepBack(Get(fields, id).value)
  {
    if fields[0].id != id {
      GetKeeps(fields[1..], id);
    }
  }

  /** The decoder gives an answer for every text that has no minus sign before a digit from 4 up. */
  lemma DecoderAnswers(encoded: string, utf8: Utf8)
    requires NoStepBack(encoded)
    ensures DecodeMpm(encoded, utf8) != Err(Endless)
  {
    if |encoded| >= 8 && LastMarker(encoded, |encoded| - 4).Some? {
      var start := LastMarker(encoded, |encoded| - 4).value;
      MarkerBefore(encoded, |encoded| - 4);
      assert Slice(encoded, 0, start) == encoded[..start];
      SliceKeeps(encoded, 0, start);
      FieldsAnswer(encoded[..start]);
      if Fields(encoded[..start]).Ok? {
        HeadAnswers(Fields(encoded[..start]).value);
      }
    }
  }

  lemma {:induction false} MarkerBefore(s: string, i: nat)
    requires i + 4 <= |s| && LastMarker(s, i).Some?
    ensures LastMarker(s, i).value <= i
  {
    if s[i..i + 4] != CRC_MARKER {
      MarkerBefore(s, i - 1);
    }
  }

  lemma FieldsAnswer(s: string)
    requires NoStepBack(s)
    ensures Fields(s) != Err(Endless)
    ensures Fields(s).Ok? ==> forall f :: f in Fields(s).value ==> NoStepBack(f.value)
  {
    ForwardEnds(s);
    FieldsExact(s);
    EndsExactly(s);
    if Fields(s).Ok? {
      ValuesKeep(s, 0, Bound(s), Fields(s).value);
    }
  }

  lemma HeadAnswers(head: seq<Field>)
    requires forall f :: f in head ==> NoStepBack(f.value)
    ensures DecodeFields(head) != Err(Endless)
  {
    if Get(head, SIKA_MAI_TAG).Some? {
      GetKeeps(head, SIKA_MAI_TAG);
      FieldsAnswer(Get(head, SIKA_MAI_TAG).value);
    }
    if Get(head, "62").Some? {
      GetKeeps(head, "62");
      FieldsAnswer(Get(head, "62").value);
    }
  }

  // ----- the round trip

  function Present(s: string): Option<string> {
    if s == "" then None else Some(s)
  }

  /** What the decoder should report for an encoded input. */
  function Expected(x: MpmInput): Decoded
    requires Encodable(x)
  {
    Decoded(Some(PAYLOAD_FORMAT_INDICATOR), x.qrType, Some(x.merchantParticipant), Some(x.merchantAccountValue),
      Some(x.mcc),
      x.currency,
      if x.qrType == "DYNAMIC" then Some(Decimal.MinorToDecimal(x.amountMinor, x.amountFractionDigits)) else None,
      Some(COUNTRY_CODE), Some(x.merchantName), Present(x.merchantCity), Present(x.reference))
  }

  lemma {:induction false} GetAppend(a: seq<Field>, b: seq<Field>, id: string)
    ensures Get(a + b, id) == if Get(a, id).Some? then Get(a, id) else Get(b, id)
  {
    if a == [] {
      assert a + b == b;
    } else {
      assert (a + b)[1..] == a[1..] + b;
      GetAppend(a[1..], b, id);
    }
  }

  lemma GetCons(f: Field, rest: seq<Field>, id: string)
    ensures Get([f] + rest, id) == if f.id == id then Some(f.value) else Get(rest, id)
  {
    assert ([f] + rest)[1..] == rest;
  }

  /** Looking a tag up in the head means looking through its pieces in turn. */
  lemma GetInHead(x: MpmInput, id: string)
    ensures Get(HeadFields(x), id) ==
      if Get(FirstFields(x), id).Some? then Get(FirstFields(x), id)
      else if Get(AmountFields(x), id).Some? then Get(AmountFields(x), id)
      else if Get(NameFields(x), id).Some? then Get(NameFields(x), id)
      else if Get(CityFields(x), id).Some? then Get(CityFields(x), id)
      else Get(ReferenceFields(x), id)
  {
    var a, b, c, d, e := FirstFields(x), AmountFields(x), NameFields(x), CityFields(x), ReferenceFields(x);
    GetAppend(a + b + c + d, e, id);
    GetAppend(a + b + c, d, id);
    GetAppend(a + b, c, id);
    GetAppend(a, b, id);
  }

  lemma MarkerPosition(p: string, crc: string)
    requires |crc| == 4
    ensures var s := p + CRC_MARKER + crc;
      LastMarker(s, |s| - 4) == Some(if crc == CRC_MARKER then |p| + 4 else |p|)
  {
    var s, n := p + CRC_MARKER + crc, |p|;
    assert s[n..n + 4] == CRC_MARKER && s[n + 4..n + 8] == crc;
    if crc != CRC_MARKER {
      assert s[n + 3] == '4' && s[n + 2] == '0' && s[n + 1] == '3';
      assert s[n + 3..n + 7][0] != CRC_MARKER[0] && s[n + 2..n + 6][0] != CRC_MARKER[0]
        && s[n + 1..n + 5][0] != CRC_MARKER[0];
      assert LastMarker(s, n) == Some(n);
      assert LastMarker(s, n + 1) == Some(n);
      assert LastMarker(s, n + 2) == Some(n);
      assert LastMarker(s, n + 3) == Some(n);
    }
  }

  lemma UpperStays(s: string)
    requires forall i :: 0 <= i < |s| ==> IsHexChar(s[i])
    ensures ToUpper(s) == s
  {
  }

  lemma MerchantInfoDecodes(x: MpmInput)
    requires AllFit(MerchantInfo(x))
    ensures Concat(MerchantInfo(x)) != "" && Fields(Concat(MerchantInfo(x))) == Ok(MerchantInfo(x))
    ensures Get(MerchantInfo(x), "00") == Some(SIKA_GUI)
    ensures Get(MerchantInfo(x), "01") == Some(x.merchantParticipant)
    ensures Get(MerchantInfo(x), "02") == Some(x.merchantAccountValue)
  {
    FieldsOfConcat(MerchantInfo(x));
    var m := MerchantInfo(x);
    assert m == [m[0]] + ([m[1]] + ([m[2]] + []));
    forall id | id == "00" || id == "01" || id == "02"
      ensures Get(m, id) ==
        if id == "00" then Some(m[0].value) else if id == "01" then Some(m[1].value) else Some(m[2].value)
    {
      GetCons(m[0], [m[1]] + ([m[2]] + []), id);
      GetCons(m[1], [m[2]] + [], id);
      GetCons(m[2], [], id);
    }
  }

  lemma ReferenceDecodes(x: MpmInput)
    requires x.reference != "" ==> Fits(Field("05", x.reference))
    requires Get(HeadFields(x), "62") == Get(ReferenceFields(x), "62")
    ensures ReferenceOf(HeadFields(x)) == Ok(Present(x.reference))
  {
    if x.reference != "" {
      var f := Field("05", x.reference);
      FieldsOfConcat([f]);
      assert Concat([f]) == TextOf(f) + "" == TextOf(f);
      assert Get(ReferenceFields(x), "62") == Some(TextOf(f));
    }
  }

  lemma GetInFirst(x: MpmInput, id: string)
    ensures var f := FirstFields(x);
      Get(f, id) ==
        if id == "00" then Some(f[0].value) else if id == "01" then Some(f[1].value)
        else if id == "26" then Some(f[2].value) else if id == "52" then Some(f[3].value)
        else if id == "53" then Some(f[4].value) else None
  {
    var f := FirstFields(x);
    assert f == [f[0]] + ([f[1]] + ([f[2]] + ([f[3]] + ([f[4]] + []))));
    GetCons(f[0], [f[1]] + ([f[2]] + ([f[3]] + ([f[4]] + []))), id);
    GetCons(f[1], [f[2]] + ([f[3]] + ([f[4]] + [])), id);
    GetCons(f[2], [f[3]] + ([f[4]] + []), id);
    GetCons(f[3], [f[4]] + [], id);
    GetCons(f[4], [], id);
  }

  lemma GetInNames(x: MpmInput, id: string)
    ensures Get(NameFields(x), id) ==
      if id == "58" then Some(COUNTRY_CODE) else if id == "59" then Some(x.merchantName) else None
  {
    var f := NameFields(x);
    assert f == [f[0]] + ([f[1]] + []);
    GetCons(f[0], [f[1]] + [], id);
    GetCons(f[1], [], id);
  }

  /** Each tag of the head holds what its field was given, and absent fields are not found. */
  lemma HeadLookup(x: MpmInput, id: string)
    ensures Get(HeadFields(x), id) ==
      if id == "00" || id == "01" || id == "26" || id == "52" || id == "53" then Get(FirstFields(x), id)
      else if id == "58" || id == "59" then Get(NameFields(x), id)
      else if id == "54" then Get(AmountFields(x), id)
      else if id == "60" then Get(CityFields(x), id)
      else if id == "62" then Get(ReferenceFields(x), id)
      else None
  {
    GetInHead(x, id);
    GetInFirst(x, id);
    GetInNames(x, id);
  }

  /** The head's tags hold the values the decoder should report. */
  predicate HoldsInput(head: seq<Field>, x: MpmInput)
    requires Encodable(x)
  {
    && Get(head, "00") == Some(PAYLOAD_FORMAT_INDICATOR)
    && Get(head, "01") == Some(if x.qrType == "STATIC" then POI_STATIC else POI_DYNAMIC)
    && Get(head, "26") == Some(Concat(MerchantInfo(x)))
    && Get(head, "52") == Some(x.mcc)
    && Get(head, "53") == Some(CurrencyNumber(x.currency))
    && Get(head, "54") == Expected(x).amount
    && Get(head, "58") == Some(COUNTRY_CODE)
    && Get(head, "59") == Some(x.merchantName)
    && Get(head, "60") == Present(x.merchantCity)
    && ReferenceOf(head) == Ok(Present(x.reference))
  }

  lemma FirstHoldsInput(x: MpmInput)
    requires Encodable(x)
    ensures var head := HeadFields(x);
      && Get(head, "00") == Some(PAYLOAD_FORMAT_INDICATOR)
      && Get(head, "01") == Some(if x.qrType == "STATIC" then POI_STATIC else POI_DYNAMIC)
      && Get(head, "26") == Some(Concat(MerchantInfo(x)))
  {
    HeadLookup(x, "00");
    HeadLookup(x, "01");
    HeadLookup(x, "26");
    GetInFirst(x, "00");
    GetInFirst(x, "01");
    GetInFirst(x, "26");
  }

  lemma MoneyHoldsInput(x: MpmInput)
    requires Encodable(x)
    ensures var head := HeadFields(x);
      && Get(head, "52") == Some(x.mcc)
      && Get(head, "53") == Some(CurrencyNumber(x.currency))
      && Get(head, "54") == Expected(x).amount
  {
    HeadLookup(x, "52");
    HeadLookup(x, "53");
    HeadLookup(x, "54");
    GetInFirst(x, "52");
    GetInFirst(x, "53");
  }

  lemma NamesHoldInput(x: MpmInput)
    requires Encodable(x)
    ensures var head := HeadFields(x);
      && Get(head, "58") == Some(COUNTRY_CODE)
      && Get(head, "59") == Some(x.merchantName)
      && Get(head, "60") == Present(x.merchantCity)
  {
    HeadLookup(x, "58");
    HeadLookup(x, "59");
    HeadLookup(x, "60");
    GetInNames(x, "58");
    GetInNames(x, "59");
  }

  lemma HeadHoldsInput(x: MpmInput)
    requires Encodable(x)
    ensures HoldsInput(HeadFields(x), x)
  {
    FirstHoldsInput(x);
    MoneyHoldsInput(x);
    NamesHoldInput(x);
    HeadLookup(x, "62");
    ReferenceDecodes(x);
  }

  lemma HeldInputDecodes(head: seq<Field>, x: MpmInput)
    requires Encodable(x) && HoldsInput(head, x)
    ensures DecodeFields(head) == Ok(Expected(x))
  {
    MerchantInfoDecodes(x);
    CurrencyRoundTrip(x.currency);
  }

  lemma CurrencyRoundTrip(currency: string)
    requires currency in CURRENCY_NUMERIC
    ensures CurrencyOfNumber(Some(CurrencyNumber(currency))) == Some(currency)
  {
  }

  /** Decoding what the encoder produced gives back every field, for every input the encoder accepts,
      exactly when the checksum text is not "6304"; with that one checksum the decoder takes the
      checksum itself for the tag and rejects the payload. */
  lemma QrRoundTrip(x: MpmInput, utf8: Utf8)
    requires Encodable(x)
    ensures DecodeMpm(Encoded(x, utf8), utf8)
      == if ChecksumText(utf8(Payload(x))) == CRC_MARKER then Err(ValidationFailed) else Ok(Expected(x))
  {
    var p, crc := Concat(HeadFields(x)), ChecksumText(utf8(Payload(x)));
    ChecksumTextShape(utf8(Payload(x)));
    ClosedPayload(p, crc, utf8);
    assert Encoded(x, utf8) == p + CRC_MARKER + crc;
    if crc != CRC_MARKER {
      FieldsOfConcat(HeadFields(x));
      HeadHoldsInput(x);
      HeldInputDecodes(HeadFields(x), x);
    }
  }

  /** What the decoder does with a text closed by the tag and its checksum. */
  lemma ClosedPayload(p: string, crc: string, utf8: Utf8)
    requires |crc| == 4 && (forall i :: 0 <= i < |crc| ==> IsHexChar(crc[i]))
    requires crc == ChecksumText(utf8(p + CRC_MARKER))
    ensures DecodeMpm(p + CRC_MARKER + crc, utf8) ==
      if crc == CRC_MARKER then Err(ValidationFailed)
      else if Fields(p).Ok? then DecodeFields(Fields(p).value) else Err(Fields(p).error)
  {
    var s := p + CRC_MARKER + crc;
    MarkerPosition(p, crc);
    UpperStays(crc);
    assert s[..|p|] == p && s[..|p| + 4] == p + CRC_MARKER && s[|p| + 4..] == crc;
  }

  /** Changing at most two adjacent bytes of an encoded payload, the closing tag among them, never
      leaves a checksum that the old checksum text would satisfy. */
  lemma DamagedPayloadRejected(before: seq<Byte>, a: seq<Byte>, b: seq<Byte>, after: seq<Byte>, encoded: string,
      utf8: Utf8)
    requires |a| == |b| <= 2 && a != b
    requires |encoded| >= 4 && utf8(encoded[..|encoded| - 4]) == before + b + after
    requires ToUpper(encoded[|encoded| - 4..]) == ChecksumText(before + a + after)
    ensures DecodeMpm(encoded, utf8) == Err(ValidationFailed)
  {
    BurstChangesText(before, a, b, after);
  }
}
