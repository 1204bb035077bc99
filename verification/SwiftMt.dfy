/** The SWIFT MT codec (modules/adapters-swift/parser.js): brace-delimited blocks, and tag lines inside
    block 4. */
module SwiftMt {
  import opened Text
  import opened Decimal

  // ----- blocks

  /** The position of the brace that closes, with this many open before position i. */
  function CloseFrom(text: string, i: nat, depth: int): Option<nat>
    requires i <= |text|
    ensures CloseFrom(text, i, depth).Some? ==> i <= CloseFrom(text, i, depth).value < |text|
    decreases |text| - i
  {
    if i == |text| then None
    else if text[i] == '{' then CloseFrom(text, i + 1, depth + 1)
    else if text[i] == '}' then (if depth == 1 then Some(i) else CloseFrom(text, i + 1, depth - 1))
    else CloseFrom(text, i + 1, depth)
  }

  method FindMatchingBrace(text: string, start: nat) returns (close: int)
    requires start <= |text|
    ensures close == match CloseFrom(text, start, 0) case Some(p) => p case None => -1
  {
    var depth := 0;
    var i := start;
    while i < |text|
      invariant start <= i <= |text| && CloseFrom(text, start, 0) == CloseFrom(text, i, depth)
    {
      if text[i] == '{' {
        depth := depth + 1;
      } else if text[i] == '}' {
        depth := depth - 1;
        if depth == 0 {
          return i;
        }
      }
      i := i + 1;
    }
    return -1;
  }

  /** What a block adds: its identifier is the text before the first colon, if that is not empty. */
  function WithBlock(blocks: map<string, string>, inner: string): map<string, string> {
    var colon := Find(inner, ':');
    if 0 < colon < |inner| then blocks[inner[..colon] := inner[colon + 1..]] else blocks
  }

  /** A block counts when a colon divides its identifier, which may not be empty, from its content. */
  lemma BlockExactly(blocks: map<string, string>, id: string, content: string)
    requires ':' !in id
    ensures WithBlock(blocks, id + ":" + content) == if id == "" then blocks else blocks[id := content]
    ensures WithBlock(blocks, id) == blocks
  {
    FindSeparator(id, ':', content);
    assert id + [':'] + content == id + ":" + content;
    assert (id + ":" + content)[..|id|] == id && (id + ":" + content)[|id| + 1..] == content;
  }

  /** The blocks found from position pos on, added to those found before. */
  function BlocksFrom(text: string, pos: nat, blocks: map<string, string>): map<string, string>
    requires pos <= |text|
    decreases |text| - pos
  {
    if pos == |text| then blocks
    else if text[pos] != '{' then BlocksFrom(text, pos + 1, blocks)
    else match CloseFrom(text, pos + 1, 1)
      case None => blocks
      case Some(close) => BlocksFrom(text, close + 1, WithBlock(blocks, text[pos + 1..close]))
  }

  lemma OpenBrace(text: string, pos: nat)
    requires pos < |text| && text[pos] == '{'
    ensures CloseFrom(text, pos, 0) == CloseFrom(text, pos + 1, 1)
  {
  }

  method ParseSwiftBlocks(text: string) returns (blocks: map<string, string>)
    ensures blocks == BlocksFrom(text, 0, map[])
  {
    blocks := map[];
    var pos := 0;
    while pos < |text|
      invariant 0 <= pos <= |text| && BlocksFrom(text, 0, map[]) == BlocksFrom(text, pos, blocks)
    {
      if text[pos] != '{' {
        pos := pos + 1;
      } else {
        var close := FindMatchingBrace(text, pos);
        OpenBrace(text, pos);
        if close < 0 {
          return;
        }
        blocks := WithBlock(blocks, text[pos + 1..close]);
        pos := close + 1;
      }
    }
  }

  // ----- lines

  predicate IsNewline(c: char) {
    c == '\r' || c == '\n'
  }

  /** `replace(/^[\r\n]+/, '')` */
  function DropLeadingNewlines(s: string): string {
    if s != "" && IsNewline(s[0]) then DropLeadingNewlines(s[1..]) else s
  }

  /** `replace(/[\r\n]?-\s*$/, '')` */
  function DropTrailer(s: string): string {
    var t := TrimEnd(s);
    var n := |t|;
    if n == 0 || t[n - 1] != '-' then s
    else if n > 1 && IsNewline(t[n - 2]) then t[..n - 2]
    else t[..n - 1]
  }

  /** `split(/\r?\n/)`, of the text from `start`, scanned up to i. */
  function LinesFrom(s: string, start: nat, i: nat): (lines: seq<string>)
    requires start <= i <= |s|
    ensures lines != []
    decreases |s| - i
  {
    if i == |s| then [s[start..]]
    else if s[i] == '\n' then
      [s[start..if i > start && s[i - 1] == '\r' then i - 1 else i]] + LinesFrom(s, i + 1, i + 1)
    else LinesFrom(s, start, i + 1)
  }

  function Lines(s: string): (lines: seq<string>)
    ensures lines != []
  {
    LinesFrom(s, 0, 0)
  }

  /** `join('\n')` */
  function Join(lines: seq<string>): string {
    if lines == [] then "" else if |lines| == 1 then lines[0] else lines[0] + ['\n'] + Join(lines[1..])
  }

  // ----- tags

  /** `\d{2}[A-Z]?` */
  predicate IsTag(s: string) {
    (|s| == 2 || (|s| == 3 && 'A' <= s[2] <= 'Z')) && IsDigit(s[0]) && IsDigit(s[1])
  }

  /** A tag is two digits, with or without a capital letter: codes 48 to 57 and 65 to 90. */
  lemma TagExactly(s: string)
    ensures IsTag(s) <==>
      && 2 <= |s| <= 3 && 48 <= s[0] as int <= 57 && 48 <= s[1] as int <= 57
      && (|s| == 3 ==> 65 <= s[2] as int <= 90)
  {
  }

  /** The characters that `.` matches. */
  predicate IsDot(c: char) {
    c != '\n' && c != '\r' && c as int != 0x2028 && c as int != 0x2029
  }

  predicate AllDots(s: string) {
    forall i :: 0 <= i < |s| ==> IsDot(s[i])
  }

  datatype TagLine = TagLine(tag: string, value: string)

  /** `line.match(/^:(\d{2}[A-Z]?):(.*)$/)` */
  function MatchTag(line: string): Option<TagLine> {
    if |line| >= 4 && line[0] == ':' && line[3] == ':' && IsTag(line[1..3]) && AllDots(line[4..]) then
      Some(TagLine(line[1..3], line[4..]))
    else if |line| >= 5 && line[0] == ':' && line[4] == ':' && IsTag(line[1..4]) && AllDots(line[5..]) then
      Some(TagLine(line[1..4], line[5..]))
    else None
  }

  /** The value of the current tag is stored when the next tag, or the end, is reached. */
  function Stored(fields: map<string, string>, tag: Option<string>, value: seq<string>): map<string, string> {
    if tag.Some? then fields[tag.value := Join(value)] else fields
  }

  /** The loop over the lines from the i-th on. */
  function FieldsFrom(lines: seq<string>, i: nat, fields: map<string, string>, tag: Option<string>,
      value: seq<string>): map<string, string>
    requires i <= |lines|
    decreases |lines| - i
  {
    if i == |lines| then Stored(fields, tag, value)
    else match MatchTag(lines[i])
      case Some(t) => FieldsFrom(lines, i + 1, Stored(fields, tag, value), Some(t.tag), [t.value])
      case None => FieldsFrom(lines, i + 1, fields, tag, if tag.Some? then value + [lines[i]] else value)
  }

  function Block4Body(block4: string): string {
    DropTrailer(DropLeadingNewlines(block4))
  }

  function Block4Fields(block4: string): map<string, string> {
    if block4 == "" then map[] else FieldsFrom(Lines(Block4Body(block4)), 0, map[], None, [])
  }

  method ParseBlock4Fields(block4: string) returns (fields: map<string, string>)
    ensures fields == Block4Fields(block4)
  {
    fields := map[];
    if block4 == "" {
      return;
    }
    var lines := Lines(Block4Body(block4));
    var tag: Option<string> := None;
    var value: seq<string> := [];
    var i := 0;
    while i < |lines|
      invariant 0 <= i <= |lines|
      invariant FieldsFrom(lines, 0, map[], None, []) == FieldsFrom(lines, i, fields, tag, value)
    {
      match MatchTag(lines[i]) {
        case Some(t) =>
          fields := Stored(fields, tag, value);
          tag, value := Some(t.tag), [t.value];
        case None =>
          if tag.Some? {
            value := value + [lines[i]];
          }
      }
      i := i + 1;
    }
    fields := Stored(fields, tag, value);
  }

  // ----- building

  /** An entry of `block4Fields`, in the order `Object.entries` gives them; a missing value is None. */
  datatype Entry = Entry(tag: string, value: Option<string>)

  function Kept(entries: seq<Entry>): (kept: seq<TagLine>)
    ensures forall k :: k in kept ==> k.value != ""
  {
    if entries == [] then []
    else
      var e := entries[0];
      (if e.value.Some? && e.value.value != "" then [TagLine(e.tag, e.value.value)] else []) + Kept(entries[1..])
  }

  function EntryText(e: TagLine): string {
    [':'] + e.tag + [':'] + e.value
  }

  function Texts(kept: seq<TagLine>): (ts: seq<string>)
    ensures |ts| == |kept|
  {
    if kept == [] then [] else [EntryText(kept[0])] + Texts(kept[1..])
  }

  function Block4Text(kept: seq<TagLine>): string {
    ['\n'] + Join(Texts(kept)) + ['\n', '-']
  }

  function BlockText(id: char, content: string): string {
    ['{', id, ':'] + content + ['}']
  }

  /** `buildSwiftMessage` */
  function SwiftMessage(block1: string, block2: string, entries: seq<Entry>): string {
    BlockText('1', block1) + BlockText('2', block2) + BlockText('4', Block4Text(Kept(entries)))
  }

  // ----- amounts

  datatype AmountError = UnknownCurrency | BadAmount

  const CURRENCY_DECIMALS: map<string, nat> := map[
    "GHS" := 2, "USD" := 2, "EUR" := 2, "GBP" := 2, "NGN" := 2, "KES" := 2, "ZAR" := 2, "EGP" := 2, "MAD" := 2,
    "XOF" := 0, "XAF" := 0, "JPY" := 0, "KRW" := 0,
    "TND" := 3, "BHD" := 3, "KWD" := 3, "OMR" := 3, "JOD" := 3]

  /** `replace(',', '.').replace(/\.$/, '')` */
  function PointText(s: string): string {
    var comma := Find(s, ',');
    var t := if comma < |s| then s[comma := '.'] else s;
    if t != "" && t[|t| - 1] == '.' then t[..|t| - 1] else t
  }

  function AmountToMinor(text: string, digits: nat): Result<string, DecimalError> {
    ReadDecimal(PointText(Trim(text)), digits)
  }

  /** `swiftAmountToMinor` */
  function SwiftAmountToMinor(text: string, currency: string): Result<string, AmountError> {
    if currency !in CURRENCY_DECIMALS then Err(UnknownCurrency)
    else match AmountToMinor(text, CURRENCY_DECIMALS[currency])
      case Ok(minor) => Ok(minor)
      case Err(_) => Err(BadAmount)
  }

  function AmountText(minor: string, digits: nat): string {
    if digits == 0 then minor + [','] else SplitMinor(minor, digits, ',')
  }

  /** `minorToSwiftAmount` */
  function MinorToSwiftAmount(minor: string, currency: string): Result<string, AmountError> {
    if currency !in CURRENCY_DECIMALS then Err(UnknownCurrency) else Ok(AmountText(minor, CURRENCY_DECIMALS[currency]))
  }

  lemma WholeText(minor: string)
    requires Canonical(minor)
    ensures PointText(Trim(minor + [','])) == minor
  {
    var s := minor + [','];
    TrimNothing(s);
    FindSeparator(minor, ',', "");
    assert minor + [','] + "" == s;
    assert s[|minor| := '.'][..|minor|] == minor;
  }

  lemma PointedText(major: string, fraction: string)
    requires major != "" && fraction != "" && AllDigits(major) && AllDigits(fraction)
    ensures PointText(Trim(major + [','] + fraction)) == major + ['.'] + fraction
  {
    var s, point := major + [','] + fraction, major + ['.'] + fraction;
    TrimNothing(s);
    FindSeparator(major, ',', fraction);
    assert s[|major| := '.'] == point;
    assert point[|point| - 1] == fraction[|fraction| - 1];
  }

  lemma AmountTextReads(minor: string, digits: nat)
    requires Canonical(minor)
    ensures AmountToMinor(AmountText(minor, digits), digits) == Ok(minor)
  {
    if digits == 0 {
      WholeText(minor);
    } else {
      var major, fraction := SplitMinorParts(minor, digits, ',');
      PointedText(major, fraction);
      SamePadding(minor, digits, major, fraction);
      ReadsPoint(minor, digits, major + ['.'] + fraction);
    }
  }

  lemma ReadsPoint(minor: string, digits: nat, point: string)
    requires Canonical(minor) && MinorToDecimal(minor, digits) == point && point != ""
    requires IsDigit(point[0]) && IsDigit(point[|point| - 1])
    ensures ReadDecimal(point, digits) == Ok(minor)
  {
    DecimalRoundTrip(minor, digits);
    TrimNothing(point);
  }

  lemma SamePadding(minor: string, digits: nat, major: string, fraction: string)
    requires digits > 0 && SplitMinor(minor, digits, ',') == major + [','] + fraction && |fraction| == digits
    ensures MinorToDecimal(minor, digits) == major + ['.'] + fraction
  {
    var padded := PadStart(minor, digits + 1, '0');
    var a, b := padded[..|padded| - digits], padded[|padded| - digits..];
    var s := major + [','] + fraction;
    assert s == a + [','] + b && |a| == |major|;
    assert a == s[..|a|] == major && b == s[|a| + 1..] == fraction;
  }

  /** For every currency with a known number of decimals, printing a minor amount and reading it back is
      the identity. */
  lemma AmountRoundTrip(minor: string, currency: string)
    requires Canonical(minor) && currency in CURRENCY_DECIMALS
    ensures MinorToSwiftAmount(minor, currency).Ok?
    ensures SwiftAmountToMinor(MinorToSwiftAmount(minor, currency).value, currency) == Ok(minor)
  {
    AmountTextReads(minor, CURRENCY_DECIMALS[currency]);
  }

  // ----- parsing what was built: blocks

  ghost predicate Braceless(s: string) {
    forall i :: 0 <= i < |s| ==> s[i] != '{' && s[i] != '}'
  }

  lemma {:induction false} CloseOfBraceless(text: string, i: nat, close: nat)
    requires i <= close < |text| && text[close] == '}'
    requires forall k :: i <= k < close ==> text[k] != '{' && text[k] != '}'
    ensures CloseFrom(text, i, 1) == Some(close)
    decreases close - i
  {
    if i < close {
      CloseOfBraceless(text, i + 1, close);
    }
  }

  lemma BlockAdds(blocks: map<string, string>, id: char, content: string)
    requires id != ':'
    ensures WithBlock(blocks, [id, ':'] + content) == blocks[[id] := content]
  {
    var inner := [id, ':'] + content;
    FindSeparator([id], ':', content);
    assert [id] + [':'] + content == inner;
    assert inner[..1] == [id] && inner[2..] == content;
  }

  lemma BlockParts(text: string, pos: nat, id: char, content: string, after: string)
    requires pos <= |text| && text[pos..] == BlockText(id, content) + after
    ensures var close := pos + 3 + |content|;
      && close < |text| && text[pos] == '{' && text[close] == '}' && text[close + 1..] == after
      && text[pos + 1..close] == [id, ':'] + content
  {
    var close := pos + 3 + |content|;
    var rest := text[pos..];
    assert rest == ['{', id, ':'] + content + ['}'] + after;
    assert text[pos] == rest[0] && text[close] == rest[3 + |content|];
    TailSlice(text, pos, 1, 3 + |content|);
    TailSlice(text, pos, 4 + |content|, |rest|);
    assert text[close + 1..] == text[close + 1..|text|];
    assert rest[1..3 + |content|] == [id, ':'] + content;
    assert rest[4 + |content|..|rest|] == after;
  }

  /** A slice of the text behind a position is a slice of the text. */
  lemma TailSlice(text: string, pos: nat, i: nat, j: nat)
    requires pos <= |text| && i <= j <= |text[pos..]|
    ensures text[pos + i..pos + j] == text[pos..][i..j]
  {
    var slice, other := text[pos + i..pos + j], text[pos..][i..j];
    assert |slice| == |other|;
    forall k | 0 <= k < |slice|
      ensures slice[k] == other[k]
    {
      assert slice[k] == text[pos + i + k];
    }
  }

  /** A brace-free block is found and the search goes on after it. */
  lemma BlockFound(text: string, pos: nat, id: char, content: string, after: string, blocks: map<string, string>)
      returns (next: nat)
    requires pos <= |text| && text[pos..] == BlockText(id, content) + after
    requires id != ':' && id != '{' && id != '}' && Braceless(content)
    ensures next <= |text| && text[next..] == after
    ensures BlocksFrom(text, pos, blocks) == BlocksFrom(text, next, blocks[[id] := content])
  {
    var close := pos + 3 + |content|;
    next := close + 1;
    BlockParts(text, pos, id, content, after);
    var inner := text[pos + 1..close];
    assert forall k :: pos + 1 <= k < close ==> text[k] == inner[k - pos - 1];
    CloseOfBraceless(text, pos + 1, close);
    BlockAdds(blocks, id, content);
  }

  // ----- parsing what was built: lines

  ghost predicate CrFree(s: string) {
    forall i :: 0 <= i < |s| ==> s[i] != '\r'
  }

  predicate OneLine(s: string) {
    forall i :: 0 <= i < |s| ==> s[i] != '\n' && s[i] != '\r'
  }

  /** Splitting a text without carriage returns and joining its lines gives it back. */
  lemma {:induction false} JoinLines(s: string, start: nat, i: nat)
    requires start <= i <= |s| && CrFree(s) && forall k :: start <= k < i ==> s[k] != '\n'
    ensures Join(LinesFrom(s, start, i)) == s[start..]
    ensures forall k :: 0 <= k < |LinesFrom(s, start, i)| ==> OneLine(LinesFrom(s, start, i)[k])
    decreases |s| - i
  {
    if i < |s| {
      if s[i] == '\n' {
        JoinLines(s, i + 1, i + 1);
        assert s[start..] == s[start..i] + ['\n'] + s[i + 1..];
        assert LinesFrom(s, start, i)[1..] == LinesFrom(s, i + 1, i + 1);
      } else {
        JoinLines(s, start, i + 1);
      }
    }
  }

  /** The scan reaches the end of the line it is in. */
  lemma {:induction false} ScanLine(s: string, start: nat, i: nat, end: nat)
    requires start <= i <= end <= |s| && forall k :: start <= k < end ==> s[k] != '\n'
    ensures LinesFrom(s, start, i) == LinesFrom(s, start, end)
    decreases end - i
  {
    if i < end {
      ScanLine(s, start, i + 1, end);
    }
  }

  /** Joining lines and splitting the text gives the lines back. */
  lemma {:induction false} LinesOfJoin(s: string, start: nat, lines: seq<string>)
    requires start <= |s| && lines != [] && s[start..] == Join(lines)
    requires forall k :: 0 <= k < |lines| ==> OneLine(lines[k])
    ensures LinesFrom(s, start, start) == lines
    decreases |lines|
  {
    var end := start + |lines[0]|;
    assert lines[0] == Join(lines)[..|lines[0]|];
    assert end <= |s| && s[start..end] == lines[0];
    assert forall k :: start <= k < end ==> s[k] == lines[0][k - start];
    ScanLine(s, start, start, end);
    if |lines| == 1 {
      assert end == |s|;
    } else {
      var rest := s[start..];
      assert rest[|lines[0]|] == '\n' && rest[|lines[0]| + 1..] == Join(lines[1..]);
      assert s[end] == '\n' && s[end + 1..] == Join(lines[1..]);
      LinesOfJoin(s, end + 1, lines[1..]);
    }
  }

  lemma {:induction false} JoinConcat(a: seq<string>, b: seq<string>)
    requires a != [] && b != []
    ensures Join(a + b) == Join(a) + ['\n'] + Join(b)
  {
    assert (a + b)[0] == a[0];
    if |a| == 1 {
      assert (a + b)[1..] == b;
    } else {
      assert (a + b)[1..] == a[1..] + b;
      JoinConcat(a[1..], b);
    }
  }

  /** The lines of one entry: the tag line and the rest of the value. */
  function EntryLines(e: TagLine): (lines: seq<string>)
    ensures lines != []
  {
    var value := Lines(e.value);
    [[':'] + e.tag + [':'] + value[0]] + value[1..]
  }

  function AllLines(kept: seq<TagLine>): (lines: seq<string>)
    ensures kept != [] ==> lines != []
  {
    if kept == [] then [] else EntryLines(kept[0]) + AllLines(kept[1..])
  }

  lemma EntryJoins(e: TagLine)
    requires CrFree(e.value)
    ensures Join(EntryLines(e)) == EntryText(e)
  {
    var value := Lines(e.value);
    JoinLines(e.value, 0, 0);
    assert e.value[0..] == e.value;
    var prefix := [':'] + e.tag + [':'];
    if |value| > 1 {
      assert EntryLines(e)[1..] == value[1..];
      assert prefix + (value[0] + ['\n'] + Join(value[1..])) == (prefix + value[0]) + ['\n'] + Join(value[1..]);
    }
  }

  lemma {:induction false} AllJoin(kept: seq<TagLine>)
    requires kept != [] && forall k :: 0 <= k < |kept| ==> CrFree(kept[k].value)
    ensures Join(AllLines(kept)) == Join(Texts(kept))
  {
    EntryJoins(kept[0]);
    if |kept| == 1 {
      assert AllLines(kept) == EntryLines(kept[0]) + [] == EntryLines(kept[0]);
    } else {
      AllJoin(kept[1..]);
      JoinConcat(EntryLines(kept[0]), AllLines(kept[1..]));
    }
  }

  ghost predicate Writable(e: TagLine) {
    IsTag(e.tag) && CrFree(e.value) && Braceless(e.value)
  }

  lemma {:induction false} AllOneLine(kept: seq<TagLine>)
    requires forall k :: 0 <= k < |kept| ==> Writable(kept[k])
    ensures forall k :: 0 <= k < |AllLines(kept)| ==> OneLine(AllLines(kept)[k])
  {
    if kept != [] {
      AllOneLine(kept[1..]);
      JoinLines(kept[0].value, 0, 0);
    }
  }

  lemma TrailerDropped(body: string)
    ensures DropTrailer(body + ['\n', '-']) == body
  {
    var s := body + ['\n', '-'];
    assert TrimEnd(s) == s;
    assert s[..|s| - 2] == body;
  }

  /** The body of block 4 is found again. */
  lemma BodyFound(kept: seq<TagLine>)
    ensures Block4Body(Block4Text(kept)) == Join(Texts(kept))
  {
    var body := Join(Texts(kept));
    var s := Block4Text(kept);
    if kept == [] {
      var two, one := ['\n', '-'], ['-'];
      assert s[0] == '\n' && s[1..] == two && two[1..] == one;
      assert DropLeadingNewlines(one) == one;
      assert DropLeadingNewlines(two) == one;
      assert TrimEnd(one) == one && one[..0] == "";
    } else {
      assert Texts(kept)[0][0] == ':' && body[0] == ':';
      var rest := body + ['\n', '-'];
      assert s[0] == '\n' && s[1..] == rest && rest[0] == ':';
      assert DropLeadingNewlines(rest) == rest;
      assert DropLeadingNewlines(s) == rest;
      TrailerDropped(body);
    }
  }

  // ----- parsing what was built: fields

  /** What a value must look like to come back: its first line has only characters that the tag pattern
      matches, and no later line looks like a tag. */
  ghost predicate Clean(value: string) {
    var lines := Lines(value);
    AllDots(lines[0]) && forall k :: 1 <= k < |lines| ==> MatchTag(lines[k]).None?
  }

  function Assigned(fields: map<string, string>, kept: seq<TagLine>): map<string, string>
    decreases kept
  {
    if kept == [] then fields else Assigned(fields[kept[0].tag := kept[0].value], kept[1..])
  }

  lemma TagLineMatches(tag: string, value: string)
    requires IsTag(tag) && AllDots(value)
    ensures MatchTag([':'] + tag + [':'] + value) == Some(TagLine(tag, value))
  {
    var line := [':'] + tag + [':'] + value;
    if |tag| == 2 {
      assert line[1..3] == tag && line[4..] == value;
    } else {
      assert line[3] == tag[2] && line[1..4] == tag && line[5..] == value;
    }
  }

  lemma {:induction false} Continues(lines: seq<string>, i: nat, end: nat, fields: map<string, string>, tag: string,
      value: seq<string>)
    requires i <= end <= |lines| && forall k :: i <= k < end ==> MatchTag(lines[k]).None?
    ensures FieldsFrom(lines, i, fields, Some(tag), value)
      == FieldsFrom(lines, end, fields, Some(tag), value + lines[i..end])
    decreases end - i
  {
    if i < end {
      Continues(lines, i + 1, end, fields, tag, value + [lines[i]]);
      assert value + [lines[i]] + lines[i + 1..end] == value + lines[i..end];
    } else {
      assert value + lines[i..end] == value;
    }
  }

  /** The lines of one entry are read as its tag and value. */
  lemma EntryRead(lines: seq<string>, i: nat, e: TagLine, fields: map<string, string>, tag: Option<string>,
      value: seq<string>)
    requires Writable(e) && Clean(e.value)
    requires i + |EntryLines(e)| <= |lines| && lines[i..i + |EntryLines(e)|] == EntryLines(e)
    ensures FieldsFrom(lines, i, fields, tag, value)
      == FieldsFrom(lines, i + |EntryLines(e)|, Stored(fields, tag, value), Some(e.tag), Lines(e.value))
  {
    var own, part := Lines(e.value), EntryLines(e);
    var end := i + |part|;
    assert lines[i] == part[0];
    TagLineMatches(e.tag, own[0]);
    forall k | i + 1 <= k < end
      ensures MatchTag(lines[k]).None?
    {
      assert lines[k] == part[k - i] == own[k - i];
    }
    Continues(lines, i + 1, end, Stored(fields, tag, value), e.tag, [own[0]]);
    assert lines[i + 1..end] == part[1..] == own[1..];
    assert [own[0]] + own[1..] == own;
  }

  lemma {:induction false} EntriesRead(
    lines: seq<string>, i: nat, kept: seq<TagLine>, fields: map<string, string>, tag: Option<string>,
    value: seq<string>)
    requires i <= |lines| && lines[i..] == AllLines(kept)
    requires forall k :: 0 <= k < |kept| ==> Writable(kept[k]) && Clean(kept[k].value)
    ensures FieldsFrom(lines, i, fields, tag, value) == Assigned(Stored(fields, tag, value), kept)
    decreases |kept|
  {
    if kept != [] {
      var e := kept[0];
      var next := i + |EntryLines(e)|;
      var tail := lines[i..];
      assert tail == EntryLines(e) + AllLines(kept[1..]);
      assert lines[i..next] == tail[..|EntryLines(e)|] == EntryLines(e);
      assert lines[next..] == tail[|EntryLines(e)|..] == AllLines(kept[1..]);
      EntryRead(lines, i, e, fields, tag, value);
      EntriesRead(lines, next, kept[1..], Stored(fields, tag, value), Some(e.tag), Lines(e.value));
      JoinLines(e.value, 0, 0);
      assert e.value[0..] == e.value;
    }
  }

  // ----- what parsing can give

  /** The value being read: its first line came after a tag, the others are no tag lines. */
  ghost predicate CleanLines(value: seq<string>) {
    && value != [] && AllDots(value[0])
    && (forall k :: 0 <= k < |value| ==> OneLine(value[k]))
    && (forall k :: 1 <= k < |value| ==> MatchTag(value[k]).None?)
  }

  ghost predicate AllClean(fields: map<string, string>) {
    forall t :: t in fields ==> Clean(fields[t])
  }

  lemma CleanJoin(value: seq<string>)
    requires CleanLines(value)
    ensures Clean(Join(value))
  {
    assert Join(value)[0..] == Join(value);
    LinesOfJoin(Join(value), 0, value);
  }

  /** Whatever one-line lines are read, every value that comes out is clean. */
  lemma {:induction false} ParsedIsClean(lines: seq<string>, i: nat, fields: map<string, string>, tag: Option<string>,
      value: seq<string>)
    requires i <= |lines| && forall k :: 0 <= k < |lines| ==> OneLine(lines[k])
    requires AllClean(fields) && (tag.Some? ==> CleanLines(value))
    ensures AllClean(FieldsFrom(lines, i, fields, tag, value))
    decreases |lines| - i
  {
    if tag.Some? {
      CleanJoin(value);
    }
    if i < |lines| {
      match MatchTag(lines[i]) {
        case Some(t) =>
          assert OneLine(lines[i]);
          ParsedIsClean(lines, i + 1, Stored(fields, tag, value), Some(t.tag), [t.value]);
        case None =>
          ParsedIsClean(lines, i + 1, fields, tag, if tag.Some? then value + [lines[i]] else value);
      }
    }
  }

  ghost predicate DistinctTags(kept: seq<TagLine>) {
    forall i, j :: 0 <= i < j < |kept| ==> kept[i].tag != kept[j].tag
  }

  lemma {:induction false} AssignedKeeps(fields: map<string, string>, kept: seq<TagLine>, tag: string)
    requires tag in fields && forall k :: 0 <= k < |kept| ==> kept[k].tag != tag
    ensures tag in Assigned(fields, kept) && Assigned(fields, kept)[tag] == fields[tag]
    decreases kept
  {
    if kept != [] {
      AssignedKeeps(fields[kept[0].tag := kept[0].value], kept[1..], tag);
    }
  }

  /** With distinct tags, every entry is in the map. */
  lemma {:induction false} AssignedHas(fields: map<string, string>, kept: seq<TagLine>, k: nat)
    requires DistinctTags(kept) && k < |kept|
    ensures kept[k].tag in Assigned(fields, kept) && Assigned(fields, kept)[kept[k].tag] == kept[k].value
    decreases kept
  {
    var more := fields[kept[0].tag := kept[0].value];
    if k == 0 {
      AssignedKeeps(more, kept[1..], kept[0].tag);
    } else {
      AssignedHas(more, kept[1..], k - 1);
    }
  }

  /** The lines of the body of block 4. */
  lemma BodyLines(kept: seq<TagLine>)
    requires forall k :: 0 <= k < |kept| ==> Writable(kept[k])
    ensures Lines(Join(Texts(kept))) == if kept == [] then [""] else AllLines(kept)
    ensures forall k :: 0 <= k < |Lines(Join(Texts(kept)))| ==> OneLine(Lines(Join(Texts(kept)))[k])
  {
    if kept != [] {
      AllOneLine(kept);
      AllJoin(kept);
      var body := Join(Texts(kept));
      assert body[0..] == body;
      LinesOfJoin(body, 0, AllLines(kept));
    }
  }

  /** Block 4 gives back exactly the entries it was built from, in whatever order they were written, if and
      only if every value is clean. */
  lemma Block4RoundTrip(kept: seq<TagLine>)
    requires (forall k :: 0 <= k < |kept| ==> Writable(kept[k])) && DistinctTags(kept)
    ensures Block4Fields(Block4Text(kept)) == Assigned(map[], kept) <==> forall k :: 0 <= k < |kept| ==>
      Clean(kept[k].value)
  {
    BodyFound(kept);
    BodyLines(kept);
    var lines := Lines(Join(Texts(kept)));
    if kept != [] {
      assert lines[0..] == lines;
      if forall k :: 0 <= k < |kept| ==> Clean(kept[k].value) {
        EntriesRead(lines, 0, kept, map[], None, []);
      } else {
        ParsedIsClean(lines, 0, map[], None, []);
        var k :| 0 <= k < |kept| && !Clean(kept[k].value);
        AssignedHas(map[], kept, k);
      }
    }
  }

  lemma ThreeBlocks(text: string, block1: string, block2: string, content: string)
    requires Braceless(block1) && Braceless(block2) && Braceless(content)
    requires text == BlockText('1', block1) + BlockText('2', block2) + BlockText('4', content)
    ensures BlocksFrom(text, 0, map[]) == map[][['1'] := block1][['2'] := block2][['4'] := content]
  {
    var a, b, c := BlockText('1', block1), BlockText('2', block2), BlockText('4', content);
    var m1: map<string, string> := map[][['1'] := block1];
    var m2 := m1[['2'] := block2];
    FirstPart(text, a, b, c);
    var second := BlockFound(text, 0, '1', block1, b + c, map[]);
    var third := BlockFound(text, second, '2', block2, c, m1);
    var end := BlockFound(text, third, '4', content, "", m2);
  }

  lemma FirstPart(text: string, a: string, b: string, c: string)
    requires text == a + b + c
    ensures text[0..] == a + (b + c) && c == c + ""
  {
  }

  /** The three blocks of a built message are found, and only these. */
  lemma BlocksRoundTrip(block1: string, block2: string, entries: seq<Entry>)
    requires Braceless(block1) && Braceless(block2) && Braceless(Block4Text(Kept(entries)))
    ensures BlocksFrom(SwiftMessage(block1, block2, entries), 0, map[])
      == map[][['1'] := block1][['2'] := block2][['4'] := Block4Text(Kept(entries))]
  {
    ThreeBlocks(SwiftMessage(block1, block2, entries), block1, block2, Block4Text(Kept(entries)));
  }

  lemma {:induction false} JoinBraceless(texts: seq<string>)
    requires forall k :: 0 <= k < |texts| ==> Braceless(texts[k])
    ensures Braceless(Join(texts))
  {
    if |texts| > 1 {
      JoinBraceless(texts[1..]);
    }
  }

  lemma {:induction false} TextsBraceless(kept: seq<TagLine>)
    requires forall k :: 0 <= k < |kept| ==> Writable(kept[k])
    ensures forall k :: 0 <= k < |Texts(kept)| ==> Braceless(Texts(kept)[k])
  {
    if kept != [] {
      TextsBraceless(kept[1..]);
      assert Writable(kept[0]);
    }
  }

  /** From the message to the fields: building a message and parsing its block 4 recovers exactly the
      non-empty tags, if and only if every value is clean. */
  lemma MessageRoundTrip(block1: string, block2: string, entries: seq<Entry>)
    requires Braceless(block1) && Braceless(block2)
    requires (forall k :: 0 <= k < |Kept(entries)| ==> Writable(Kept(entries)[k])) && DistinctTags(Kept(entries))
    ensures var blocks := BlocksFrom(SwiftMessage(block1, block2, entries), 0, map[]);
      && blocks.Keys == {['1'], ['2'], ['4']} && blocks[['1']] == block1 && blocks[['2']] == block2
      && (Block4Fields(blocks[['4']]) == Assigned(map[], Kept(entries))
          <==> forall k :: 0 <= k < |Kept(entries)| ==> Clean(Kept(entries)[k].value))
  {
    TextsBraceless(Kept(entries));
    JoinBraceless(Texts(Kept(entries)));
    BlocksRoundTrip(block1, block2, entries);
    Block4RoundTrip(Kept(entries));
  }
}
