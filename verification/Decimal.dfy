/** Minor-unit strings and their decimal renderings: the printers and readers that the QR, SWIFT,
    ISO 20022 and money code each write out again share one shape, proved here once. */
module Decimal {
  import opened Text

  datatype DecimalError = NotInteger | ExceedsPrecision

  /** Left-pad to at least one integer digit, then cut off the last `digits` characters. */
  function SplitMinor(minor: string, digits: nat, separator: char): string
    requires digits > 0
  {
    var padded := PadStart(minor, digits + 1, '0');
    padded[..|padded| - digits] + [separator] + padded[|padded| - digits..]
  }

  /** `minorToDecimal` for a currency of `digits` minor digits. */
  function MinorToDecimal(minor: string, digits: nat): string {
    if digits == 0 then minor else SplitMinor(minor, digits, '.')
  }

  /** The text is digits, optionally followed by '.' and one to `digits` digits. */
  predicate IsDecimalText(s: string, digits: nat) {
    var dot := Find(s, '.');
    && dot > 0
    && AllDigits(s[..dot])
    && (dot < |s| ==> 1 <= |s| - dot - 1 <= digits && AllDigits(s[dot + 1..]))
  }

  /** The digits after the point, if any. */
  function Fraction(s: string): string {
    var dot := Find(s, '.');
    if dot < |s| then s[dot + 1..] else ""
  }

  /** The minor units of a decimal text, read without trimming. */
  function ReadDecimal(s: string, digits: nat): Result<string, DecimalError> {
    if digits == 0 then
      if s != [] && AllDigits(s) then Ok(s) else Err(NotInteger)
    else if IsDecimalText(s, digits) then
      Ok(MajorAndFraction(s[..Find(s, '.')], Fraction(s), digits))
    else
      Err(ExceedsPrecision)
  }

  /** `decimalToMinor` */
  function DecimalToMinor(text: string, digits: nat): Result<string, DecimalError> {
    ReadDecimal(Trim(text), digits)
  }

  /** `BigInt(major + frac.padEnd(m, '0')).toString()` */
  function MajorAndFraction(major: string, fraction: string, digits: nat): string
    requires AllDigits(major) && AllDigits(fraction)
  {
    var padded := PadEnd(fraction, digits, '0');
    assert AllDigits(major + padded);
    Print(Parse(major + padded))
  }

  lemma TrimNothing(s: string)
    requires s == [] || (!IsSpace(s[0]) && !IsSpace(s[|s| - 1]))
    ensures Trim(s) == s
  {
  }

  lemma FindSeparator(left: string, separator: char, right: string)
    requires forall i :: 0 <= i < |left| ==> left[i] != separator
    ensures Find(left + [separator] + right, separator) == |left|
  {
    var i := Find(left + [separator] + right, separator);
    assert (left + [separator] + right)[|left|] == separator;
  }

  /** What SplitMinor keeps: the padded digits, cut in two, with the same value. */
  lemma SplitMinorParts(minor: string, digits: nat, separator: char)
    returns (major: string, fraction: string)
    requires digits > 0 && AllDigits(minor) && minor != []
    ensures SplitMinor(minor, digits, separator) == major + [separator] + fraction
    ensures |fraction| == digits && major != []
    ensures AllDigits(major) && AllDigits(fraction) && AllDigits(major + fraction)
    ensures Parse(major + fraction) == Parse(minor)
  {
    var padded := PadStart(minor, digits + 1, '0');
    major, fraction := padded[..|padded| - digits], padded[|padded| - digits..];
    assert major + fraction == padded;
    if |minor| < digits + 1 {
      ParseZeros(digits + 1 - |minor|, minor);
    }
  }

  /** Printing a canonical minor amount and reading it back is the identity, at any size and for
      any number of minor digits. */
  lemma DecimalRoundTrip(minor: string, digits: nat)
    requires Canonical(minor)
    ensures DecimalToMinor(MinorToDecimal(minor, digits), digits) == Ok(minor)
  {
    if digits == 0 {
      TrimNothing(minor);
    } else {
      var major, fraction := SplitMinorParts(minor, digits, '.');
      var text := MinorToDecimal(minor, digits);
      FindSeparator(major, '.', fraction);
      assert text[..|major|] == major && text[|major| + 1..] == fraction;
      TrimNothing(text);
      PrintParse(minor);
    }
  }

  /** The number of minor units that `major`.`fraction` denotes. */
  function MinorUnits(major: string, fraction: string, digits: nat): nat
    requires AllDigits(major) && AllDigits(fraction) && |fraction| <= digits
  {
    Parse(major) * Pow10(digits) + Parse(fraction) * Pow10(digits - |fraction|)
  }

  lemma {:induction false} ParseTrailingZeros(s: string, k: nat)
    requires AllDigits(s)
    ensures AllDigits(s + Repeat('0', k)) && Parse(s + Repeat('0', k)) == Parse(s) * Pow10(k)
  {
    ParseZeros(k, "");
    assert Repeat('0', k) + "" == Repeat('0', k);
    ParseAppend(s, Repeat('0', k));
  }

  lemma MajorAndFractionValue(major: string, fraction: string, digits: nat)
    requires AllDigits(major) && AllDigits(fraction) && |fraction| <= digits
    ensures MajorAndFraction(major, fraction, digits) == Print(MinorUnits(major, fraction, digits))
  {
    var zeros := Repeat('0', digits - |fraction|);
    var padded := PadEnd(fraction, digits, '0');
    assert padded == fraction + zeros;
    ParseTrailingZeros(fraction, digits - |fraction|);
    ParseAppend(major, padded);
  }

  lemma NoPointInDigits(s: string)
    requires AllDigits(s)
    ensures Find(s, '.') == |s|
  {
  }

  /** What is accepted: digits, and with minor digits possibly a point and that many digits at most. */
  lemma DecimalAccepted(text: string, digits: nat)
    ensures DecimalToMinor(text, digits).Ok? <==> IsDecimalText(Trim(text), digits)
  {
    if AllDigits(Trim(text)) {
      NoPointInDigits(Trim(text));
    }
  }

  /** The number of minor units that an accepted text denotes. */
  function UnitsOf(s: string, digits: nat): nat
    requires IsDecimalText(s, digits)
  {
    MinorUnits(s[..Find(s, '.')], Fraction(s), digits)
  }

  /** Reading never changes the value: whatever text is accepted, for any number of minor digits, the
      minor string has exactly that many minor units as its value; and it is their numeral exactly
      when there are minor digits or the text is itself a numeral. */
  lemma DecimalToMinorValue(text: string, digits: nat)
    requires IsDecimalText(Trim(text), digits)
    ensures DecimalToMinor(text, digits).Ok?
    ensures var minor, units := DecimalToMinor(text, digits).value, UnitsOf(Trim(text), digits);
      && AllDigits(minor) && Parse(minor) == units
      && (minor == Print(units) <==> digits > 0 || Canonical(Trim(text)))
  {
    var s := Trim(text);
    DecimalAccepted(text, digits);
    ParsePrint(UnitsOf(s, digits));
    PrintCanonical(UnitsOf(s, digits));
    if digits > 0 {
      MajorAndFractionValue(s[..Find(s, '.')], Fraction(s), digits);
    } else {
      assert s[..|s|] == s;
      assert Parse(s) * Pow10(0) == Parse(s);
      if Canonical(s) {
        PrintParse(s);
      }
    }
  }

  /** A currency without minor digits keeps leading zeros: the minor string is then no numeral. */
  lemma LeadingZerosKept()
    ensures DecimalToMinor("007", 0) == Ok("007") && Print(Parse("007")) == "7"
  {
    var s := "007";
    TrimNothing(s);
    assert s[..2] == "00" && s[..2][..1] == "0" && s[..1] == "0";
    assert Parse(s[..1]) == 0 && Parse(s[..2]) == 0;
    assert Parse(s) == 7;
  }
}
