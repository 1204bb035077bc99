/** Known answers: what the wire codecs write for given values, character by character. */
module WireExamples {
  import opened Text
  import D = Decimal
  import S = SwiftMt
  import I = Iso8583

  // ----- amounts

  /** A decimal amount is the digits with a separator before the last ones, padded with zeros; it reads as
      major + fraction / 10^digits. */
  lemma SplitExactly(minor: string, digits: nat, separator: char) returns (major: string, fraction: string)
    requires digits > 0 && AllDigits(minor) && minor != ""
    ensures D.SplitMinor(minor, digits, separator) == major + [separator] + fraction && |fraction| == digits
    ensures AllDigits(major) && AllDigits(fraction) && major != ""
    ensures Parse(major) * Pow10(digits) + Parse(fraction) == Parse(minor)
  {
    major, fraction := D.SplitMinorParts(minor, digits, separator);
    ParseAppend(major, fraction);
  }

  /** What a SWIFT amount is: digits, a comma, and as many digits as the currency has decimals, so that a comma
      ends an amount without decimals. */
  lemma SwiftAmountExactly(minor: string, currency: string) returns (major: string, fraction: string)
    requires currency in S.CURRENCY_DECIMALS && AllDigits(minor) && minor != ""
    ensures S.MinorToSwiftAmount(minor, currency) == Ok(major + "," + fraction)
    ensures AllDigits(major) && AllDigits(fraction) && major != "" && |fraction| == S.CURRENCY_DECIMALS[currency]
    ensures Parse(major) * Pow10(S.CURRENCY_DECIMALS[currency]) + Parse(fraction) == Parse(minor)
  {
    var digits := S.CURRENCY_DECIMALS[currency];
    if digits == 0 {
      major, fraction := minor, "";
      assert minor + "," + "" == minor + [','];
    } else {
      major, fraction := SplitExactly(minor, digits, ',');
      assert major + [','] + fraction == major + "," + fraction;
    }
  }

  /** And a decimal amount elsewhere: a point instead, and none in a currency without decimals. */
  lemma DecimalExactly(minor: string, digits: nat) returns (major: string, fraction: string)
    requires AllDigits(minor) && minor != ""
    ensures D.MinorToDecimal(minor, digits) == if digits == 0 then major else major + "." + fraction
    ensures AllDigits(major) && AllDigits(fraction) && major != "" && |fraction| == digits
    ensures Parse(major) * Pow10(digits) + Parse(fraction) == Parse(minor)
  {
    if digits == 0 {
      major, fraction := minor, "";
    } else {
      major, fraction := SplitExactly(minor, digits, '.');
      assert major + ['.'] + fraction == major + "." + fraction;
    }
  }

  // ----- a SWIFT message

  lemma LineText(tag: string, value: string)
    ensures S.EntryText(S.TagLine(tag, value)) == ":" + tag + ":" + value
  {
  }

  /** A message of two entries with values, and one without between them. */
  lemma SwiftMessageExactly(block1: string, block2: string, tag: string, value: string, empty: S.Entry, tag2: string,
      value2: string)
    requires value != "" && value2 != "" && (empty.value == None || empty.value == Some(""))
    ensures S.SwiftMessage(block1, block2, [S.Entry(tag, Some(value)), empty, S.Entry(tag2, Some(value2))])
      == "{1:" + block1 + "}{2:" + block2 + "}{4:"
        + ("\n" + (":" + tag + ":" + value + "\n" + (":" + tag2 + ":" + value2)) + "\n-") + "}"
  {
    var last := S.Entry(tag2, Some(value2));
    var entries := [S.Entry(tag, Some(value)), empty, last];
    var x, y := S.TagLine(tag, value), S.TagLine(tag2, value2);
    assert entries[1..] == [empty, last] && [empty, last][1..] == [last] && [last][1..] == [];
    assert S.Kept([last]) == [y] + S.Kept([]) == [y];
    assert S.Kept([empty, last]) == [] + S.Kept([last]) == [y];
    assert S.Kept(entries) == [x] + [y] == [x, y];
    TwoLines(x, y);
    LineText(tag, value);
    LineText(tag2, value2);
    BlockWritten('1', block1);
    BlockWritten('2', block2);
    BlockWritten('4', S.Block4Text([x, y]));
    Concatenated("{1:" + block1 + "}", block2, S.Block4Text([x, y]));
  }

  lemma TwoLines(x: S.TagLine, y: S.TagLine)
    ensures S.Block4Text([x, y]) == "\n" + (S.EntryText(x) + "\n" + S.EntryText(y)) + "\n-"
  {
    assert [x, y][1..] == [y] && [y][1..] == [];
    assert S.Texts([y]) == [S.EntryText(y)] + S.Texts([]) == [S.EntryText(y)];
    assert S.Texts([x, y]) == [S.EntryText(x)] + S.Texts([y]) == [S.EntryText(x), S.EntryText(y)];
    assert S.Texts([x, y])[1..] == [S.EntryText(y)];
    assert S.Join([S.EntryText(y)]) == S.EntryText(y);
    assert S.Join(S.Texts([x, y])) == S.EntryText(x) + ['\n'] + S.EntryText(y);
    assert S.EntryText(x) + ['\n'] + S.EntryText(y) == S.EntryText(x) + "\n" + S.EntryText(y);
  }

  lemma BlockWritten(id: char, content: string)
    ensures S.BlockText(id, content) == "{" + [id] + ":" + content + "}"
  {
    assert ['{', id, ':'] == "{" + [id] + ":";
  }

  lemma Concatenated(first: string, block2: string, block4: string)
    ensures first + ("{" + ['2'] + ":" + block2 + "}") + ("{" + ['4'] + ":" + block4 + "}")
      == first + "{2:" + block2 + "}{4:" + block4 + "}"
  {
    assert "{" + ['2'] + ":" == "{2:" && "{" + ['4'] + ":" == "{4:";
  }

  // ----- an ISO 8583 message

  lemma BitValues()
    ensures I.OrBit(0, 7) == 128 && I.OrBit(128, 5) == 160 && I.OrBit(160, 4) == 176 && I.OrBit(0, 2) == 4
  {
    assert I.OrBit(0, 0) == 1 && I.OrBit(0, 1) == 2 && I.OrBit(0, 2) == 4 && I.OrBit(0, 3) == 8;
    assert I.OrBit(0, 4) == 16 && I.OrBit(0, 5) == 32 && I.OrBit(0, 6) == 64;
    assert I.OrBit(2, 0) == 3 && I.OrBit(4, 0) == 5;
    assert I.OrBit(8, 1) == 10 && I.OrBit(16, 2) == 20 && I.OrBit(32, 3) == 40 && I.OrBit(64, 4) == 80;
    assert I.OrBit(5, 0) == 5 && I.OrBit(10, 0) == 11 && I.OrBit(20, 1) == 22 && I.OrBit(40, 2) == 44;
    assert I.OrBit(80, 3) == 88;
  }

  /** Elements 3, 4 and 70: the first bitmap has bits 1, 3 and 4, the second one bit 6. */
  lemma BitmapsWritten()
    ensures I.InRange([3, 4, 70]) && I.Primary([3, 4, 70]) == [176, 0, 0, 0, 0, 0, 0, 0]
    ensures I.Secondary([3, 4, 70]) == [4, 0, 0, 0, 0, 0, 0, 0]
  {
    var ns := [3, 4, 70];
    BitValues();
    assert 70 in ns && I.NeedsSecondary(ns);
    assert I.PrimaryAfter(ns, 0) == [128, 0, 0, 0, 0, 0, 0, 0];
    assert I.PrimaryAfter(ns, 1) == [160, 0, 0, 0, 0, 0, 0, 0];
    assert I.PrimaryAfter(ns, 2) == [176, 0, 0, 0, 0, 0, 0, 0];
    assert I.SecondaryAfter(ns, 2) == [0, 0, 0, 0, 0, 0, 0, 0];
  }

  lemma {:induction false} ZerosInHex(n: nat)
    ensures I.ToHex(seq(n, _ => 0)) == Repeat('0', 2 * n)
  {
    if n > 0 {
      var zeros: seq<I.Byte> := seq(n, _ => 0);
      assert zeros[1..] == seq(n - 1, _ => 0);
      ZerosInHex(n - 1);
      assert Repeat('0', 2 * n) == ['0', '0'] + Repeat('0', 2 * (n - 1));
    }
  }

  lemma BitmapText(b: I.Byte)
    ensures I.ToHex([b, 0, 0, 0, 0, 0, 0, 0]) == [HexChar(b / 16), HexChar(b % 16)] + "00000000000000"
  {
    var zeros: seq<I.Byte> := seq(7, _ => 0);
    assert [b, 0, 0, 0, 0, 0, 0, 0][1..] == zeros;
    ZerosInHex(7);
    assert Repeat('0', 14) == "00000000000000" by {
      FourteenZeros();
    }
  }

  lemma FourteenZeros()
    ensures Repeat('0', 14) == "00000000000000"
  {
    assert Repeat('0', 4) == "0000";
    assert Repeat('0', 8) == "00000000";
    assert Repeat('0', 12) == "000000000000";
  }

  ghost predicate Increasing(ns: seq<int>) {
    forall i, j :: 0 <= i < j < |ns| ==> ns[i] < ns[j]
  }

  lemma FirstIsLeast(ns: seq<int>, x: int)
    requires Increasing(ns) && x in ns
    ensures ns[0] <= x
  {
  }

  lemma RestOf(ns: seq<int>, x: int)
    requires ns != [] && Increasing(ns)
    ensures Increasing(ns[1..]) && (x in ns[1..] <==> x in ns && x != ns[0])
  {
    assert ns == [ns[0]] + ns[1..];
  }

  /** Increasing sequences of the same numbers are equal. */
  lemma {:induction false} SameIncreasing(a: seq<int>, b: seq<int>)
    requires Increasing(a) && Increasing(b) && forall x :: x in a <==> x in b
    ensures a == b
  {
    assert a != [] ==> a[0] in a;
    assert b != [] ==> b[0] in b;
    if a != [] {
      FirstIsLeast(a, b[0]);
      FirstIsLeast(b, a[0]);
      forall x
        ensures x in a[1..] <==> x in b[1..]
      {
        RestOf(a, x);
        RestOf(b, x);
      }
      RestOf(a, a[0]);
      RestOf(b, b[0]);
      SameIncreasing(a[1..], b[1..]);
      assert a == [a[0]] + a[1..] && b == [b[0]] + b[1..];
    }
  }

  lemma ThreeKeys()
    ensures I.SortedKeys({3, 4, 70}) == [3, 4, 70]
  {
    SameIncreasing(I.SortedKeys({3, 4, 70}), [3, 4, 70]);
  }

  lemma HexB0()
    ensures [HexChar(11), HexChar(0)] + "00000000000000" == "B000000000000000"
    ensures [HexChar(0), HexChar(4)] + "00000000000000" == "0400000000000000"
  {
    assert HexChar(11) == 'B' && HexChar(0) == '0' && HexChar(4) == '4';
  }

  lemma BitmapsText()
    ensures I.InRange([3, 4, 70]) && I.Bitmaps([3, 4, 70]) == "B000000000000000" + "0400000000000000"
  {
    BitmapsWritten();
    BitmapText(176);
    BitmapText(4);
    HexB0();
    TwoBitmaps([3, 4, 70]);
  }

  lemma TwoBitmaps(ns: seq<int>)
    requires 70 in ns && I.InRange(ns)
    ensures I.Bitmaps(ns) == I.ToHex(I.Primary(ns)) + I.ToHex(I.Secondary(ns))
  {
    assert I.NeedsSecondary(ns);
  }

  lemma BodyText(fields: map<int, string>, spec: I.Spec)
    requires fields == map[3 := "990000", 4 := "25", 70 := "301"]
    requires spec == map[3 := I.Fixed(I.Numeric, 6), 4 := I.Fixed(I.Numeric, 4), 70 := I.Fixed(I.Numeric, 3)]
    ensures I.Body([3, 4, 70], 0, fields, spec) == Ok("990000" + "0025" + "301")
  {
    var ns := [3, 4, 70];
    assert PadStart("25", 4, '0') == "0025" by {
      assert Repeat('0', 2) == "00";
    }
    assert I.Body(ns, 3, fields, spec) == Ok("");
    assert I.Body(ns, 2, fields, spec) == Ok("301" + "") && "301" + "" == "301";
    assert I.Body(ns, 1, fields, spec) == Ok("0025" + "301");
    assert "990000" + ("0025" + "301") == "990000" + "0025" + "301";
  }

  /** The text of a network message with three numeric elements. */
  lemma IsoExample()
    ensures var m := I.Message("0800", map[3 := "990000", 4 := "25", 70 := "301"]);
      var spec: I.Spec := map[3 := I.Fixed(I.Numeric, 6), 4 := I.Fixed(I.Numeric, 4), 70 := I.Fixed(I.Numeric, 3)];
      I.EncodedText(m, spec)
        == Ok("0800" + ("B000000000000000" + "0400000000000000") + ("990000" + "0025" + "301"))
  {
    var fields := map[3 := "990000", 4 := "25", 70 := "301"];
    var spec: I.Spec := map[3 := I.Fixed(I.Numeric, 6), 4 := I.Fixed(I.Numeric, 4), 70 := I.Fixed(I.Numeric, 3)];
    assert fields.Keys == {3, 4, 70};
    ThreeKeys();
    BodyText(fields, spec);
    Encoded(I.Message("0800", fields), spec, [3, 4, 70], "990000" + "0025" + "301");
  }

  lemma Encoded(m: I.Message, spec: I.Spec, ns: seq<int>, body: string)
    requires I.IsMti(m.mti) && ns == I.SortedKeys(m.fields.Keys) == [3, 4, 70]
    requires I.Body(ns, 0, m.fields, spec) == Ok(body)
    ensures I.EncodedText(m, spec) == Ok(m.mti + ("B000000000000000" + "0400000000000000") + body)
  {
    BitmapsText();
    I.EncodedOf(m, spec, ns, m.mti + I.Bitmaps(ns) + body, body);
  }
}
