/** String operations shared by the codecs: padding, and decimal numerals as `String(n)` prints
    them and `BigInt(s)` reads them. */
module Text {

  datatype Option<+T> = None | Some(value: T)

  datatype Result<+T, +E> = Ok(value: T) | Err(error: E) {
    predicate IsFailure() {
      Err?
    }

    function PropagateFailure<U>(): Result<U, E>
      requires Err?
    {
      Err(error)
    }

    function Extract(): T
      requires Ok?
    {
      value
    }
  }

  function Repeat(c: char, n: nat): (r: string)
    ensures |r| == n
    ensures forall i :: 0 <= i < n ==> r[i] == c
  {
    seq(n, _ => c)
  }

  /** `s.padStart(width, c)` */
  function PadStart(s: string, width: nat, c: char): string {
    if |s| >= width then s else Repeat(c, width - |s|) + s
  }

  /** `s.padEnd(width, c)` */
  function PadEnd(s: string, width: nat, c: char): string {
    if |s| >= width then s else s + Repeat(c, width - |s|)
  }

  predicate IsDigit(c: char) {
    '0' <= c <= '9'
  }

  predicate AllDigits(s: string) {
    forall i :: 0 <= i < |s| ==> IsDigit(s[i])
  }

  function DigitValue(c: char): nat
    requires IsDigit(c)
  {
    c as int - '0' as int
  }

  function DigitChar(d: nat): (c: char)
    requires d < 10
    ensures IsDigit(c) && DigitValue(c) == d
  {
    ('0' as int + d) as char
  }

  /** The decimal numeral of `n`: no sign, no leading zero. */
  function Print(n: nat): (s: string)
    ensures s != [] && AllDigits(s)
  {
    if n < 10 then [DigitChar(n)] else Print(n / 10) + [DigitChar(n % 10)]
  }

  /** The value of a digit string, leading zeros allowed; `BigInt("")` is 0. */
  function Parse(s: string): nat
    requires AllDigits(s)
  {
    if s == [] then 0 else Parse(s[..|s| - 1]) * 10 + DigitValue(s[|s| - 1])
  }

  /** A digit string that is the numeral of its own value. */
  predicate Canonical(s: string) {
    s != [] && AllDigits(s) && (|s| > 1 ==> s[0] != '0')
  }

  lemma {:induction false} ParsePrint(n: nat)
    ensures Parse(Print(n)) == n
  {
    if n >= 10 {
      ParsePrint(n / 10);
      assert Print(n)[..|Print(n)| - 1] == Print(n / 10);
    }
  }

  lemma {:induction false} PrintCanonical(n: nat)
    ensures Canonical(Print(n))
    ensures n > 0 ==> Print(n)[0] != '0'
  {
    if n >= 10 {
      PrintCanonical(n / 10);
    }
  }

  lemma {:induction false} ParsePositive(s: string)
    requires AllDigits(s) && s != [] && s[0] != '0'
    ensures Parse(s) > 0
  {
    if |s| > 1 {
      ParsePositive(s[..|s| - 1]);
    }
  }

  lemma {:induction false} PrintParse(s: string)
    requires Canonical(s)
    ensures Print(Parse(s)) == s
  {
    var front := s[..|s| - 1];
    assert s == front + [s[|s| - 1]];
    if |s| > 1 {
      PrintParse(front);
      ParsePositive(front);
      assert Parse(s) / 10 == Parse(front);
      assert Parse(s) % 10 == DigitValue(s[|s| - 1]);
    }
  }

  lemma PrintInjective(m: nat, n: nat)
    requires Print(m) == Print(n)
    ensures m == n
  {
    ParsePrint(m);
    ParsePrint(n);
  }

  lemma {:induction false} ParseZeros(k: nat, s: string)
    requires AllDigits(s)
    ensures AllDigits(Repeat('0', k) + s) && Parse(Repeat('0', k) + s) == Parse(s)
    decreases k + |s|
  {
    var t := Repeat('0', k) + s;
    if s != [] {
      assert t[..|t| - 1] == Repeat('0', k) + s[..|s| - 1];
      ParseZeros(k, s[..|s| - 1]);
    } else if k > 0 {
      assert t[..|t| - 1] == Repeat('0', k - 1) + s;
      ParseZeros(k - 1, s);
    }
  }

  /** An upper-case hexadecimal digit. */
  function HexChar(d: nat): char
    requires d < 16
  {
    if d < 10 then ('0' as int + d) as char else ('A' as int + (d - 10)) as char
  }

  function Pow10(k: nat): (p: nat)
    ensures p > 0
  {
    if k == 0 then 1 else 10 * Pow10(k - 1)
  }

  lemma {:induction false} Pow10Add(j: nat, k: nat)
    ensures Pow10(j + k) == Pow10(j) * Pow10(k)
  {
    if j > 0 {
      Pow10Add(j - 1, k);
      assert Pow10(j + k) == 10 * (Pow10(j - 1) * Pow10(k)) == (10 * Pow10(j - 1)) * Pow10(k);
    }
  }

  lemma {:induction false} ParseAppend(s: string, t: string)
    requires AllDigits(s) && AllDigits(t)
    ensures AllDigits(s + t) && Parse(s + t) == Parse(s) * Pow10(|t|) + Parse(t)
  {
    if t == [] {
      assert s + t == s;
    } else {
      var front := t[..|t| - 1];
      assert (s + t)[..|s + t| - 1] == s + front;
      ParseAppend(s, front);
      Horner(Parse(s), Pow10(|front|), Parse(front), DigitValue(t[|t| - 1]));
    }
  }

  lemma Horner(a: int, p: int, f: int, d: int)
    ensures (a * p + f) * 10 + d == a * (10 * p) + (f * 10 + d)
  {
  }

  /** The numeral of n has at most w digits exactly when n < 10^w. */
  lemma {:induction false} PrintWidth(n: nat, w: nat)
    requires w > 0
    ensures |Print(n)| <= w <==> n < Pow10(w)
  {
    if n >= 10 {
      if w == 1 {
        assert Pow10(1) == 10 * Pow10(0) == 10;
      } else {
        PrintWidth(n / 10, w - 1);
        assert n / 10 < Pow10(w - 1) <==> n < 10 * Pow10(w - 1);
      }
    } else {
      assert Pow10(w) == 10 * Pow10(w - 1);
    }
  }

  /** A value printed into a field of w digits reads back as itself. */
  lemma PaddedNumeral(n: nat, w: nat)
    requires n < Pow10(w) && w > 0
    ensures var s := PadStart(Print(n), w, '0'); |s| == w && AllDigits(s) && Parse(s) == n
  {
    PrintWidth(n, w);
    ParsePrint(n);
    if |Print(n)| < w {
      ParseZeros(w - |Print(n)|, Print(n));
    }
  }

  /** The position of the first `c`, or |s| when there is none. */
  function Find(s: string, c: char): (i: nat)
    ensures i <= |s|
    ensures forall k :: 0 <= k < i ==> s[k] != c
    ensures i < |s| ==> s[i] == c
  {
    if s == [] || s[0] == c then 0 else 1 + Find(s[1..], c)
  }

  /** The characters that `\s` and `trim()` treat as white space. */
  predicate IsSpace(c: char) {
    var n := c as int;
    0x09 <= n <= 0x0D || n == 0x20 || n == 0xA0 || n == 0x1680 || 0x2000 <= n <= 0x200A
    || n == 0x2028 || n == 0x2029 || n == 0x202F || n == 0x205F || n == 0x3000 || n == 0xFEFF
  }

  function TrimStart(s: string): string {
    if s != [] && IsSpace(s[0]) then TrimStart(s[1..]) else s
  }

  /** `s.replace(/\s+$/, '')` */
  function TrimEnd(s: string): (r: string)
    ensures r <= s
    ensures r != [] ==> !IsSpace(r[|r| - 1])
    ensures forall i :: |r| <= i < |s| ==> IsSpace(s[i])
  {
    if s != [] && IsSpace(s[|s| - 1]) then TrimEnd(s[..|s| - 1]) else s
  }

  function Trim(s: string): string {
    TrimEnd(TrimStart(s))
  }

  /** A position as `slice` reads it: negative positions count from the end, and all are clipped. */
  function SlicePosition(length: nat, i: int): (p: nat)
    ensures p <= length
    ensures 0 <= i <= length ==> p == i
  {
    if i < 0 then (if length + i < 0 then 0 else length + i) else if i > length then length else i
  }

  /** `s.slice(from, to)` */
  function Slice(s: string, from: int, to: int): string {
    var i, j := SlicePosition(|s|, from), SlicePosition(|s|, to);
    if i < j then s[i..j] else ""
  }

  /** The first position from i on that holds no white space. */
  function SkipSpace(s: string, i: nat): (j: nat)
    requires i <= |s|
    ensures i <= j <= |s|
    decreases |s| - i
  {
    if i < |s| && IsSpace(s[i]) then SkipSpace(s, i + 1) else i
  }

  /** The digits from position i on, read after the digits worth `value`. */
  function NumberFrom(s: string, i: nat, value: nat): nat
    decreases |s| - i
  {
    if i < |s| && IsDigit(s[i]) then NumberFrom(s, i + 1, 10 * value + DigitValue(s[i])) else value
  }

  /** `parseInt(s, 10)`: white space and one sign may come first, and what follows the digits is
      ignored. */
  function ParseInt(s: string): Option<int> {
    var i := SkipSpace(s, 0);
    var j := if i < |s| && (s[i] == '-' || s[i] == '+') then i + 1 else i;
    if j >= |s| || !IsDigit(s[j]) then None
    else
      var n := NumberFrom(s, j, 0);
      Some(if s[i] == '-' then 0 - n else n)
  }

  lemma {:induction false} NumberIsParse(s: string, i: nat)
    requires i <= |s| && AllDigits(s)
    ensures NumberFrom(s, i, Parse(s[..i])) == Parse(s)
    decreases |s| - i
  {
    if i < |s| {
      assert s[..i + 1][..i] == s[..i];
      NumberIsParse(s, i + 1);
    } else {
      assert s[..i] == s;
    }
  }

  lemma ParseIntOfDigits(s: string)
    requires s != [] && AllDigits(s)
    ensures ParseInt(s) == Some(Parse(s))
  {
    assert s[..0] == "";
    assert !IsSpace(s[0]);
    NumberIsParse(s, 0);
  }
}
