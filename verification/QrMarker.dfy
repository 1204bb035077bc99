/** An input whose payload has its own closing tag "6304" as checksum: the one checksum with which a
    payload does not decode occurs. */
module QrMarker {
  import opened Text
  import opened Crc16
  import opened CrcRun
  import opened EmvcoQr

  const Marked := MpmInput("STATIC", "SIKA", "2502", "5411", "GHS", "", 2, "KIR", "", "")

  /** A field put before others, its length given by two digits. */
  lemma ConcatField(f: Field, digits: string, rest: seq<Field>)
    requires |digits| == 2 && AllDigits(digits) && 10 * DigitValue(digits[0]) + DigitValue(digits[1]) == |f.value|
    ensures Concat([f] + rest) == f.id + digits + f.value + Concat(rest)
  {
    TwoDigits(digits[0], digits[1]);
    assert ([f] + rest)[1..] == rest;
  }

  lemma ConcatTwo(f: Field, g: Field, d: string, e: string)
    requires |d| == 2 && AllDigits(d) && 10 * DigitValue(d[0]) + DigitValue(d[1]) == |f.value|
    requires |e| == 2 && AllDigits(e) && 10 * DigitValue(e[0]) + DigitValue(e[1]) == |g.value|
    ensures Concat([f, g]) == f.id + d + f.value + (g.id + e + g.value)
  {
    ConcatField(g, e, []);
    ConcatField(f, d, [g] + []);
    assert [f, g] == [f] + ([g] + []);
  }

  lemma MarkedMerchant(fields: seq<Field>)
    requires fields == [Field("00", "GH.SIKA.RAIL"), Field("01", "SIKA"), Field("02", "2502")]
    ensures Concat(fields) == "0012" + (Scheme + Holder)
  {
    ConcatTwo(fields[1], fields[2], "04", "04");
    ConcatField(fields[0], "12", fields[1..]);
    assert fields == [fields[0]] + fields[1..];
    assert fields[1..] == [fields[1], fields[2]];
    MerchantText();
  }

  lemma MerchantText()
    ensures "00" + "12" + "GH.SIKA.RAIL" + ("01" + "04" + "SIKA" + ("02" + "04" + "2502")) == "0012" + (Scheme + Holder)
  {
    assert "GH.SIKA.RAIL" == Scheme;
    assert "01" + "04" + "SIKA" + ("02" + "04" + "2502") == Holder;
    assert "00" + "12" == "0012";
  }

  lemma MarkedFirst(fields: seq<Field>, merchant: string)
    requires |merchant| == 32
    requires fields
      == [Field("00", "01"), Field("01", "11"), Field("26", merchant), Field("52", "5411"), Field("53", "936")]
    ensures Concat(fields) == Tags + "2632" + merchant + Category + "5303936"
  {
    ConcatTwo(fields[3], fields[4], "04", "03");
    ConcatField(fields[2], "32", fields[3..]);
    ConcatField(fields[1], "02", fields[2..]);
    ConcatField(fields[0], "02", fields[1..]);
    assert fields == [fields[0]] + fields[1..];
    assert fields[1..] == [fields[1]] + fields[2..];
    assert fields[2..] == [fields[2]] + fields[3..];
    assert fields[3..] == [fields[3], fields[4]];
    FirstText(merchant);
  }

  lemma FirstText(merchant: string)
    ensures "00" + "02" + "01"
      + ("01" + "02" + "11" + ("26" + "32" + merchant + ("52" + "04" + "5411" + ("53" + "03" + "936"))))
      == Tags + "2632" + merchant + Category + "5303936"
  {
    var a, b, c, d, e := "00" + "02" + "01", "01" + "02" + "11", "26" + "32", "52" + "04" + "5411", "53" + "03" + "936";
    assert a + b == Tags;
    assert c == "2632" && d == Category && e == "5303936";
    Regroup(a, b, c, merchant, d, e);
  }

  lemma Regroup(a: string, b: string, c: string, m: string, d: string, e: string)
    ensures a + (b + (c + m + (d + e))) == a + b + c + m + d + e
  {
    assert b + (c + m + (d + e)) == b + c + m + d + e;
  }

  lemma MarkedNames(fields: seq<Field>)
    requires fields == [Field("58", "GH"), Field("59", "KIR")]
    ensures "5303936" + Concat(fields) == Names
  {
    ConcatTwo(fields[0], fields[1], "02", "03");
    assert "58" + "02" + "GH" + ("59" + "03" + "KIR") == "5802GH5903KIR";
    assert "5303936" + "5802GH5903KIR" == Names;
  }

  lemma PayloadParts(x: MpmInput)
    requires AmountFields(x) == CityFields(x) == ReferenceFields(x) == []
    ensures Payload(x) == Concat(FirstFields(x)) + Concat(NameFields(x)) + CRC_MARKER
  {
    HeadConcat(x);
    NothingBetween(Concat(FirstFields(x)), Concat(NameFields(x)));
  }

  lemma NothingBetween(f: string, n: string)
    ensures f + "" + n + "" + "" == f + n
  {
  }

  /** The payload of this input is the text whose checksum was computed. */
  lemma MarkedPayload(x: MpmInput)
    requires x == Marked
    ensures Payload(x) == MarkedText && |Concat(MerchantInfo(x))| == 32
  {
    var merchant := Concat(MerchantInfo(x));
    MarkedMerchant(MerchantInfo(x));
    assert |merchant| == 32;
    MarkedFirst(FirstFields(x), merchant);
    MarkedNames(NameFields(x));
    PayloadParts(x);
    MarkedJoin(Tags, "2632", "0012", Scheme, Holder, Category, "5303936", Concat(NameFields(x)), Account, Names);
  }

  lemma MarkedJoin(t: string, a: string, b: string, m: string, h: string, c: string, n: string, r: string, ab: string,
      nr: string)
    requires ab == a + b && nr == n + r
    ensures t + a + (b + (m + h)) + c + n + r == t + ab + m + h + c + nr
  {
    assert t + a + (b + (m + h)) == t + ab + m + h;
    assert t + ab + m + h + c + n + r == t + ab + m + h + c + nr;
  }

  lemma PartsFit(x: MpmInput)
    requires AllFit(FirstFields(x)) && AllFit(NameFields(x))
    requires AmountFields(x) == CityFields(x) == ReferenceFields(x) == []
    ensures AllFit(HeadFields(x))
  {
    HeadFits(x);
  }

  lemma EachFits(fields: seq<Field>)
    requires forall k :: 0 <= k < |fields| ==> Fits(fields[k])
    ensures AllFit(fields)
  {
  }

  lemma MerchantFits(x: MpmInput)
    requires x == Marked
    ensures AllFit(MerchantInfo(x))
  {
    EachFits(MerchantInfo(x));
  }

  lemma FirstFits(x: MpmInput)
    requires |Concat(MerchantInfo(x))| == 32 && |x.mcc| == 4 && x.currency in CURRENCY_NUMERIC
    ensures AllFit(FirstFields(x))
  {
    var fields := FirstFields(x);
    assert |fields| == 5 && forall k :: 0 <= k < 5 ==> |fields[k].id| == 2;
    assert |fields[2].value| == 32 && |fields[4].value| == 3;
    EachFits(fields);
  }

  lemma NamesFit(x: MpmInput)
    requires x == Marked
    ensures AllFit(NameFields(x)) && ChecksPass(x)
  {
    EachFits(NameFields(x));
  }

  lemma MarkedFits(x: MpmInput)
    requires x == Marked
    ensures Encodable(x)
  {
    MerchantFits(x);
    MarkedPayload(x);
    FirstFits(x);
    NamesFit(x);
    PartsFit(x);
  }

  /** The text of 0x6304 is "6304". */
  lemma MarkerText()
    ensures PadStart(Hex(0x6304), 4, '0') == CRC_MARKER
  {
    HexPadded(0x6304);
  }

  /** The encoder accepts this input, under any encoding that keeps ASCII text as it is, and its own
      decoder rejects what it returns. */
  lemma MarkedIsRejected(utf8: Utf8)
    requires forall text: string :: IsAscii(text) ==> utf8(text) == Bytes(text)
    ensures Encodable(Marked) && ChecksumText(utf8(Payload(Marked))) == CRC_MARKER
    ensures DecodeMpm(Encoded(Marked, utf8), utf8) == Err(ValidationFailed)
  {
    MarkedFits(Marked);
    MarkedPayload(Marked);
    MarkedChecksum();
    MarkerText();
    QrRoundTrip(Marked, utf8);
  }
}
