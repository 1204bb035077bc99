# Payment rail: codecs, ledger, custody protocols and exact arithmetic

This project models the parts of the payment rail that carry hard promises, and proves them. Everything is
stated for all inputs and, for the protocols, for every run of operations.

* **Wire codecs.** EMVCo merchant-presented QR (`EmvcoQr`, `Crc16`, `CrcRun`, `QrMarker`), ISO 8583
  (`Iso8583`), SWIFT MT (`SwiftMt`), the decimal printers they share (`Decimal`, `Text`), and canonical JSON
  (`CanonicalJson`). `WireExamples` writes out messages and amounts character by character.
* **The ledger.** `Ledger` has the tables and the posting function, `LedgerService` the code that updates
  them, `LedgerBalances` conservation, `LedgerChain` and `HashChain` the hash chain, `LedgerText` the text
  hashed; `AuditTrail` has two more chains.
* **Custody.** Disputes, escrow and cross-border payments park money in accounts of the rail and give it back
  once. Each protocol is three modules: the tables and what each transaction commits (`Disputes`, `Escrow`,
  `CrossBorder`), the services that update the tables step by step (`DisputeDesk`, `EscrowDesk`,
  `CrossBorderDesk`), and the invariants over every run (`DisputeCustody`, `EscrowCustody`,
  `CrossBorderCustody`). A fourth module each (`DisputeOutcomes`, `EscrowOutcomes`, `CrossBorderOutcomes`)
  says when each step does what, and who is paid. `Transfers` and `Sums` hold what they share; `Postings` and
  `Rail` put the three on one ledger, in any order.
* **Caps and runs.** `Mandates`, `MandateDesk` and `MandateCaps`; `Bulk`, `BulkDesk` and `BulkConservation`;
  what each step does in `MandateOutcomes` and `BulkOutcomes`.
* **Algorithms and arithmetic.** `MuleRing` (bounded cycle search), `Jaro` (greedy matching) and `Money`
  (currency conversion).

## How to read it

A class whose methods update tables is proved against a function of the tables before the call: each method's
contract equates the new tables with that function's result, and the theorems are about the function and about
runs of it. The `Outcomes` modules (`LedgerOutcomes` among them) then say in plain terms what every step does,
without naming those functions: the conditions written out, the amounts on every account, and the whole of
what is stored. Each database transaction is one step that commits or leaves the tables as they were
(core/db.js:21-32), and steps are serialised. Replies of other services, clocks and users are parameters, so
the theorems hold for all of them.

SHA-256 is a parameter of fixed digest length. A function with 64-character results cannot be injective on all
texts, so tamper evidence is stated for the texts actually hashed: if no two of those collide, equal last
hashes mean equal rows.

The ledger's DATE column is a parameter too: the day it reads in a text, or none, and the text the service
makes of that day when it reads the row back. In a process east of Greenwich that is the day before
(modules/ledger/service.js:254-256).

Where the code and what is expected of it differ, the code is kept and the exact condition is proved: the QR
payload whose checksum is "6304" (`EmvcoQr.QrRoundTrip`, with such an input in `QrMarker.MarkedIsRejected`),
the field loop that need not end on lengths such as "-4" (`EmvcoQr.EndsExactly`, `EmvcoQr.StuckForever`),
leading zeros kept for currencies without decimals (`Decimal.DecimalToMinorValue`), ISO 8583 length prefixes
that are too narrow (`Iso8583.RoundTrip`, with such a message in `Iso8583.LongValueMisread`), amounts such as
"007" and dates such as "2026-4-28" in the hash chain (`LedgerChain.PostVerifiesExactly`,
`LedgerChain.RunVerifiesExactly`), stale rows in the workers (`EscrowCustody.StaleRelease`,
`CrossBorderCustody.StaleRejection`), a mandate revoked while a debit is under way
(`MandateCaps.TerminalOnlyOpen`), debits of a mandate under way at once (`MandateCaps.CheckExact`, with such a
run in `MandateCaps.OverlapExceeds`), disputes killed after they were decided
(`DisputeOutcomes.PaidByDecision`), evidence whose upload times do not increase
(`AuditTrail.UploadsVerifyExactly`), bulk runs that the driver leaves open (`BulkConservation.ClosesExactly`),
and the `__proto__` key (`CanonicalJson.PrototypeKeyLost`). The comment at core/money.js:118 says that the
conversion rounds half down; the code truncates, which is the floor for non-negative amounts, and so does the
model.

## Model

| member | source | states |
|---|---|---|
| `MuleRing.AmountsAligned` | modules/network-graph/scanner.js:39-43 | The loop over the amounts answers whether every edge of the closed walk is within 5% of its first edge. |
| `MuleRing.AlignedPairs` | modules/network-graph/scanner.js:8-14 | Within a ring any two amounts x and y are positive and satisfy 400x >= 361y, though only pairs with the first edge are compared. |
| `MuleRing.WithinExactly` | modules/network-graph/scanner.js:8-14 | Both amounts are above zero and the smaller is at least 95% of the larger. |
| `MuleRing.RingExactly` | modules/network-graph/scanner.js:25-69 | What is searched for, written out: three to six payments that lead from the account back to it over different accounts, each within 5% of the first. |
| `MuleRing.BuildAdjacency` | modules/network-graph/scanner.js:16-23 | Each source maps to exactly its outgoing edges, in their original order. |
| `MuleRing.CycleFinder.TryEdge` | modules/network-graph/scanner.js:35-65 | One turn of the loop over edges restores path, pathEdges and visited, and adds the rings that go through this edge, up to the cap. |
| `MuleRing.CycleFinder.Dfs` | modules/network-graph/scanner.js:31-66 | Every call restores path, pathEdges and visited, and adds exactly the rings below its node in search order, except that nothing is searched once five have been found. |
| `MuleRing.FindCyclesFrom` | modules/network-graph/scanner.js:25-69 | Everything returned is a ring: a simple closed walk from start of 3 to maxDepth+1 real edges with aligned amounts. Fewer than five results mean that every ring through start was returned. With duplicate-free edge lists no ring comes twice. |
| `MuleRing.AllRingsExact` | modules/network-graph/scanner.js:31-68 | The uncapped search returns a walk if and only if it is a ring through start: soundness and completeness of the backtracking. |
| `MuleRing.RingsBelowDistinct` | modules/network-graph/scanner.js:31-68 | The backtracking reaches no ring twice. |
| `MuleRing.CollectEdges` | modules/network-graph/scanner.js:77-89 | The walk expands the hot account and accounts reached from it by edges of earlier ones, each once; it goes on until it has every account so reached, or the last one expanded brings the edges to 200. |
| `MuleRing.GatherGrouped` | modules/network-graph/scanner.js:84-90 | Grouping the collected edges gives back each expanded account's own edge list. |
| `MuleRing.RingsOfPart` | modules/network-graph/scanner.js:77-91 | Searching the collected part of the graph finds no ring the whole graph lacks, and loses none when the part is closed. |
| `MuleRing.PartScanned` | modules/network-graph/scanner.js:77-91 | Searching what the walk collected is as good as searching the whole graph, unless the walk from this account meets the edge cap. |
| `MuleRing.ScanFrom` | modules/network-graph/scanner.js:74-91 | What the scan of a hot account finds are rings of the whole graph, none twice where no edge is listed twice, and all of them up to six edges, unless it found five or the walk from that account met the edge cap. |
| `MuleRing.ScanMuleRings` | modules/network-graph/scanner.js:71-106 | The alerts are exactly those of one such scan for each hot account, in their order. |
| `MuleRing.AlertsExact` | modules/network-graph/scanner.js:71-106 | So every alert is a ring through one of the hot accounts, scored 90 for a triangle and 100 for anything longer, and every ring through a hot account is among the alerts, unless its scan found five or the walk from it met the edge cap. |
| `Jaro.FlagRow` | core/strings.js:58-69 | One turn of the first loop flags the row and the column that the greedy matching adds, or neither. |
| `Jaro.FlagMatches` | core/strings.js:54-69 | The first loop computes the greedy matching: both flag arrays are its rows and columns and the counter is its size. |
| `Jaro.MatchedSizes` | core/strings.js:54-69 | Both flag arrays hold exactly as many trues as there are matches. |
| `Jaro.CountOutOfOrder` | core/strings.js:72-79 | The second loop counts the positions at which the two flagged subsequences differ, and its inner while never leaves the array. |
| `Jaro.Jaro` | core/strings.js:47-83 | The loops compute the score that the matching defines. |
| `Jaro.JaroWinkler` | core/strings.js:85-97 | The prefix loop and the bonus compute the score that the common prefix defines. |
| `Jaro.GreedyIsMaximum` | core/strings.js:57-69 | No pairing of equal characters that stand in the same place, or where twice one more than their distance is at most the longer length, is larger than the greedy one, which is such a pairing. |
| `Jaro.GreedySymmetric` | core/strings.js:57-69 | Matching the strings the other way round gives the same pairs. |
| `Jaro.JaroSymmetric` | core/strings.js:47-83 | The match count and the score do not depend on the order of the arguments. |
| `Jaro.JaroBounds` | core/strings.js:43-83 | The score lies in [0, 1] and is 1 if and only if the strings are equal. |
| `Jaro.JaroWinklerBounds` | core/strings.js:85-97 | jaro <= jaroWinkler <= 1 for every scale and cap with cap * scale < 1, and jaroWinkler is 1 if and only if the strings are equal. |
| `Jaro.JaroWinklerSymmetric` | core/strings.js:85-97 | The adjusted score is symmetric too. |
| `Jaro.CompatibleExactly` | core/strings.js:53-69 | Two characters can be matched if and only if they are equal and in the same place or that close: the window is half the longer length less one, and at least zero. |
| `Jaro.NeighboursExchanged` | core/strings.js:47-83 | A string of n >= 4 different characters and the same with two neighbours exchanged score exactly 1 - 1/(3n). |
| `Jaro.NeighboursExchangedWinkler` | core/strings.js:85-97 | With a scale of 0.1 and a cap of 4, each of the first four characters before the exchange takes a tenth off what is missing to 1. |
| `Jaro.BeginningScore` | core/strings.js:47-83 | A string and a proper beginning of it score two thirds and a third of the ratio of their lengths. |
| `Crc16.Crc16CcittFalse` | modules/overlays-qr/emvco-encoder.js:27-37 | The nested loops over bytes and bits compute the checksum text. |
| `Crc16.ChecksumIsRemainder` | modules/overlays-qr/emvco-encoder.js:28-35 | The register is below 2^16 and congruent to the message polynomial (initial value added, sixteen zero bits appended) modulo x^16 + x^12 + x^5 + 1, at every length. |
| `Crc16.RemainderUnique` | modules/overlays-qr/emvco-encoder.js:28-35 | No other 16-bit value is congruent to it: the loop computes the polynomial remainder. |
| `Crc16.BurstDetected` | modules/overlays-qr/emvco-encoder.js:28-35 | A difference confined to sixteen consecutive bits, anywhere in two messages of one length, always changes the register. |
| `Crc16.HexTextInjective` | modules/overlays-qr/emvco-encoder.js:36 | The padded upper-case hexadecimal text tells registers apart. |
| `Crc16.BurstChangesText` | modules/overlays-qr/emvco-encoder.js:27-37 | Any change confined to at most two adjacent bytes changes the checksum text, at any position and length. |
| `EmvcoQr.ReadTlv` | modules/overlays-qr/emvco-decoder.js:17-31 | One turn of the loop with the cursor anywhere, also before the text, where slice counts from the end: a field and the next cursor, or the validation error. |
| `EmvcoQr.ParseTlvs` | modules/overlays-qr/emvco-decoder.js:13-34 | Cut off after any number of fields, the cursor loop has returned the fields, thrown the validation error, or is still running. |
| `EmvcoQr.EndsExactly` | modules/overlays-qr/emvco-decoder.js:13-34 | The loop ends if and only if its cursor never stands at one place twice, and then it has ended within 2 * length fields. |
| `EmvcoQr.FieldsExact` | modules/overlays-qr/emvco-decoder.js:13-34 | Whatever the loop gives after however many fields is the result that Fields names, and Fields is Endless if and only if the loop never ends. |
| `EmvcoQr.ProgressExact` | modules/overlays-qr/emvco-decoder.js:22-31 | The cursor moves forward if and only if the length is not a minus sign followed by a digit from 4 up. |
| `EmvcoQr.ForwardEnds` | modules/overlays-qr/emvco-decoder.js:13-34 | The loop ends on every text without a minus sign before a digit from 4 up. |
| `EmvcoQr.DigitsEnd` | modules/overlays-qr/emvco-decoder.js:13-34 | The loop ends on every text whose lengths are all two digits. |
| `EmvcoQr.DecoderAnswers` | modules/overlays-qr/emvco-decoder.js:36-101 | decodeMpm, with its nested fields, gives an answer for every text without a minus sign before a digit from 4 up. |
| `EmvcoQr.StuckForever` | modules/overlays-qr/emvco-decoder.js:22-31 | On "AB-4" the loop is still running after every number of fields. |
| `EmvcoQr.BackAndDone` | modules/overlays-qr/emvco-decoder.js:22-31 | On "AA00B1-5" the cursor goes back once and the loop ends with three fields. |
| `EmvcoQr.ParseIntOfTwoAgrees` | modules/overlays-qr/emvco-decoder.js:21-25 | The case analysis used for two-character lengths is parseInt on them, signs and white space included. |
| `EmvcoQr.DamagedPayloadRejected` | modules/overlays-qr/emvco-decoder.js:41-51 | A payload in which at most two adjacent bytes were changed after the checksum was computed, the closing tag included, is rejected. |
| `EmvcoQr.FieldsOfConcat` | modules/overlays-qr/emvco-encoder.js:13-23 | Parsing the concatenation of any fields that tlv accepts gives back those fields. |
| `EmvcoQr.ConcatOfFields` | modules/overlays-qr/emvco-encoder.js:13-23 | Printing what was parsed gives back the text whenever every length was two digits. |
| `EmvcoQr.EncodeMpm` | modules/overlays-qr/emvco-encoder.js:52-110 | The encoder accepts exactly the encodable inputs, and returns the concatenated fields followed by tag, length and checksum; every other input is refused. |
| `EmvcoQr.EncodableExactly` | modules/overlays-qr/emvco-encoder.js:52-110 | What is accepted, in lengths and characters: kinds, category, currencies, name, city, merchant data, reference, and the amount of a dynamic code. |
| `EmvcoQr.QrRoundTrip` | modules/overlays-qr/emvco-encoder.js:52-120 | For every accepted input, decoding gives back type, participant, account, category, currency, name, city, reference and formatted amount (null where absent), exactly when the checksum text is not "6304"; with that checksum the decoder rejects the payload. |
| `CrcRun.MixedIsStep` | modules/overlays-qr/emvco-encoder.js:29-34 | A register kept as sixteen bits goes through a byte as the register of the program does. |
| `CrcRun.MarkedChecksum` | modules/overlays-qr/emvco-encoder.js:27-37 | The checksum of one eighty-character payload is 0x6304. |
| `QrMarker.MarkedIsRejected` | modules/overlays-qr/emvco-decoder.js:41-46 | An input that the encoder accepts and whose payload has the checksum text "6304": its own decoder rejects it. |
| `Decimal.DecimalRoundTrip` | modules/adapters-iso20022/xml.js:45-69 | Printing a canonical minor amount and reading it back is the identity, at any size and for any number of decimals. |
| `Decimal.DecimalAccepted` | modules/adapters-iso20022/xml.js:52-69 | A trimmed text is accepted if and only if it is digits, followed for a currency with minor digits by at most a point and that many digits. |
| `Decimal.DecimalToMinorValue` | modules/adapters-iso20022/xml.js:52-69 | Whatever text is accepted, for any number of decimals, the minor string has exactly its value in minor units, and is their numeral if and only if there are decimals or the text is itself a numeral. |
| `Decimal.LeadingZerosKept` | modules/adapters-iso20022/xml.js:52-59 | Without decimals "007" is returned as it is. |
| `Iso8583.WithBitSets` | modules/adapters-iso8583/codec.js:6-10 | Setting a bit of a bitmap changes that bit only; bit 1 is the top bit of the first byte. |
| `Iso8583.SetBit` | modules/adapters-iso8583/codec.js:6-10 | The buffer is updated in place to the bitmap with that bit set. |
| `Iso8583.HexRoundTrip` | modules/adapters-iso8583/codec.js:102-103 | Reading the hexadecimal text of bytes gives back the bytes. |
| `Iso8583.FieldDecodes` | modules/adapters-iso8583/codec.js:18-60 | One element decodes to the normal form of its value and the position moves past exactly its text. |
| `Iso8583.FieldCutShort` | modules/adapters-iso8583/codec.js:40-49 | A variable value too long for its own length prefix decodes to something else. |
| `Iso8583.HundredCharacters` | modules/adapters-iso8583/codec.js:18-60 | An accepted message whose one element, of any number, is an LLVAR value of a hundred characters decodes to "0" and the first nine of them. |
| `Iso8583.LongValueMisread` | modules/adapters-iso8583/codec.js:62-125 | Such a message: a hundred sevens in element 2 come back as "0777777777". |
| `Iso8583.SetBits` | modules/adapters-iso8583/codec.js:69-77 | The loop accepts exactly the element numbers 2 to 128 and leaves the two bitmaps of the message. |
| `Iso8583.BitmapsMark` | modules/adapters-iso8583/codec.js:69-77 | The bitmaps mark exactly the elements present, and bit 1 exactly when one is above 64. |
| `Iso8583.AcceptedExactly` | modules/adapters-iso8583/codec.js:62-84 | Encoding succeeds if and only if the type indicator is four digits and every element is numbered 2 to 128, specified, and within its length. |
| `Iso8583.Encode8583` | modules/adapters-iso8583/codec.js:62-89 | The encoder returns the type indicator, the bitmaps in hexadecimal and the bodies in ascending order, or the first error. |
| `Iso8583.Decode8583` | modules/adapters-iso8583/codec.js:91-125 | The decoder returns what the header and the loop over the element numbers read, or the first error. |
| `Iso8583.RoundTrip` | modules/adapters-iso8583/codec.js:62-125 | For every specification and every accepted 7-bit message, decoding the encoded bytes gives the same type indicator and elements in normal form, if and only if no LLVAR value exceeds 99 and no LLLVAR value 999 characters. |
| `Iso8583.EncodeAgain` | modules/adapters-iso8583/codec.js:34-60 | Encoding the normal form again gives the same bytes if and only if the white space at the end of every alphanumeric fixed value is spaces only. |
| `SwiftMt.FindMatchingBrace` | modules/adapters-swift/parser.js:5-15 | Returns the position at which the brace depth first comes back to zero, or -1. |
| `SwiftMt.ParseSwiftBlocks` | modules/adapters-swift/parser.js:17-36 | The scan returns the map of all blocks, a later block replacing an earlier one with its identifier. |
| `SwiftMt.ParseBlock4Fields` | modules/adapters-swift/parser.js:38-59 | The loop over the lines returns the fields of block 4. |
| `SwiftMt.JoinLines` | modules/adapters-swift/parser.js:43-57 | Splitting a text without carriage returns and joining its lines gives it back. |
| `SwiftMt.BlocksRoundTrip` | modules/adapters-swift/parser.js:61-67 | A built message parses to exactly the blocks 1, 2 and 4 it was built from. |
| `SwiftMt.Block4RoundTrip` | modules/adapters-swift/parser.js:38-67 | For distinct tags in any order and brace-free values without carriage returns, block 4 gives back exactly the entries if and only if no later line of a value looks like a tag and first lines hold no line or paragraph separator. |
| `SwiftMt.MessageRoundTrip` | modules/adapters-swift/parser.js:17-67 | Building a message and parsing its block 4 recovers exactly the non-empty entries, under the same condition. |
| `SwiftMt.BlockExactly` | modules/adapters-swift/parser.js:25-33 | A block counts if a colon divides its identifier, which may not be empty, from its content. |
| `SwiftMt.TagExactly` | modules/adapters-swift/parser.js:44-48 | A tag is two digits, with or without one capital letter. |
| `SwiftMt.AmountRoundTrip` | modules/adapters-swift/parser.js:75-97 | For every known currency, printing a canonical minor amount with a comma and reading it back is the identity. |
| `WireExamples.SwiftAmountExactly` | modules/adapters-swift/parser.js:75-97 | An amount is digits, a comma and as many digits as the currency has decimals, and reads as the minor amount. |
| `WireExamples.SwiftMessageExactly` | modules/adapters-swift/parser.js:61-73 | The text of a message of two entries with values and one without between them. |
| `WireExamples.DecimalExactly` | modules/adapters-iso20022/xml.js:45-50 | An amount is digits, a point and as many digits as the currency has decimals, no point where it has none, and reads as the minor amount. |
| `WireExamples.BitmapsWritten` | modules/adapters-iso8583/codec.js:69-77 | The bytes of both bitmaps for elements 3, 4 and 70. |
| `WireExamples.IsoExample` | modules/adapters-iso8583/codec.js:62-89 | The text of a network message of three numeric elements, in full. |
| `CanonicalJson.CanonicalizeKeepsTree` | core/json.js:5-11 | Canonicalizing keeps what a value denotes, members being unordered and a member named __proto__ lost. |
| `CanonicalJson.CanonicalizeIsCanonical` | core/json.js:5-11 | The result has its keys in the enumeration order of assigned keys (array indices first) at every level, and no __proto__ member. |
| `CanonicalJson.CanonicalizeIdempotent` | core/json.js:5-11 | Canonicalizing twice is canonicalizing once. |
| `CanonicalJson.SameTreeSameCanonical` | core/json.js:5-11 | There is one canonical value for each tree. |
| `CanonicalJson.TextInjective` | core/json.js:13 | Different values are written as different texts: strings are escaped, numbers and brackets delimited. |
| `CanonicalJson.CanonicalTextIdentifies` | core/json.js:5-13 | Two values have the same canonical text if and only if they denote the same tree. |
| `CanonicalJson.ObjectText` | core/json.js:5-13 | An object is written as its members in the order of their keys. |
| `CanonicalJson.IndexKeysExactly` | core/json.js:5-11 | The keys enumerated as numbers are the numerals up to 2^32 - 2. |
| `CanonicalJson.EscapeReadsBack` | core/json.js:13 | What is written for a character in a string reads back as that character. |
| `CanonicalJson.PrototypeKeyLost` | core/json.js:9 | An object whose one member is named __proto__ has the text of the empty object. |
| `HashChain.VerifyChain` | modules/audit/service.js:50-57 | The verification loop says where the chain breaks first and why, or how many rows it has. |
| `HashChain.VerifyExact` | modules/audit/service.js:50-57 | Verification accepts a list of rows if and only if it is what recording its own texts one after the other builds. |
| `HashChain.SameEndSameChain` | core/crypto.js:87-90 | Two verified chains with the same last hash are equal, provided no two of the finitely many texts hashed along them collide and none of these hashes is the genesis value. |
| `Ledger.AssertBalanced` | modules/ledger/service.js:30-53 | Accumulating sums for each currency in a map finds the first bad entry, and otherwise whether debits equal credits in every currency. |
| `LedgerService.Tables.EnsureAccount` | modules/ledger/service.js:74-95 | The account exists afterwards and an existing one is left alone; a missing owner is refused. |
| `LedgerService.Tables.PostJournal` | modules/ledger/service.js:97-208 | The tables become exactly those of the ledger function when it accepts, and are untouched with its error when it refuses. |
| `LedgerService.Tables.VerifyDayChain` | modules/ledger/service.js:232-269 | The verdict on the stored rows of the day that the database reads in the date, recomputing every hash from amounts and dates as read back; the error for a date it cannot read. |
| `LedgerService.Tables.LastHashForDate` | modules/ledger/model.js:65-73 | Finds the hash of the last journal of the day that the database reads in the date, or the genesis value; the error for a date it cannot read. |
| `LedgerService.Tables.BalanceFor` | modules/ledger/model.js:151-164 | Credits less debits over all postings of the account, up to a time if one is given. |
| `LedgerBalances.AcceptedIsGood` | modules/ledger/service.js:30-137 | A journal that passes the checks balances in every currency, and each posting is positive, on an existing account and in its currency. |
| `LedgerBalances.RunSound` | modules/ledger/service.js:97-208 | After any run of accepted and rejected operations every journal is balanced and every posting matches its account. |
| `LedgerBalances.Conservation` | modules/ledger/service.js:97-208 | After any run from empty books, the balances of all accounts of a currency sum to zero. |
| `LedgerBalances.PostedBalance` | modules/ledger/service.js:175-186 | An accepted journal moves each account by its own entries and no other account. |
| `LedgerBalances.RunNumbered` | migrations/0018_ledger.sql:18 | Over any run journal numbers strictly increase, and a journal once posted stays where it is. |
| `LedgerOutcomes.PostedExactly` | modules/ledger/service.js:30-137 | A journal is taken if and only if its reason is known, its date is given and readable, it has two entries or more, each a whole amount above zero on one side in the currency of an active account, and every currency balances. |
| `LedgerOutcomes.JournalWritten` | modules/ledger/service.js:139-208 | A journal that is taken adds one row and nothing else: the next number, the day, the last hash of that day or sixty-four zeros, the hash of that with the hash of the text, the time, and the entries as postings. |
| `LedgerOutcomes.AccountExactly` | modules/ledger/service.js:74-95 | An account asked for is there afterwards, active in its currency if it is new; only a missing owner is refused. |
| `LedgerOutcomes.BalanceAtTime` | modules/ledger/model.js:151-164 | A balance as of a time is the balance of the journals posted by then. |
| `LedgerOutcomes.DayExactly` | modules/ledger/model.js:65-73 | A day is made of exactly the journals of that day. |
| `LedgerOutcomes.DayInOrder` | modules/ledger/model.js:65-73 | In the order of their numbers. |
| `LedgerText.HashedText` | modules/ledger/service.js:55-71 | The text hashed for a journal, in full: these members in this order, each entry's members in order, amounts quoted, and nothing else. |
| `LedgerChain.SealedText` | modules/ledger/service.js:55-71 | The text hashed when posting equals the text hashed when verifying if and only if every amount was a canonical decimal and the DATE column gives the date text back as it was. |
| `LedgerChain.PostVerifies` | modules/ledger/service.js:139-173 | After posting, a day verifies if and only if it did before and, for the journal's own day, both texts hash alike. |
| `LedgerChain.PostVerifiesExactly` | modules/ledger/service.js:232-269 | With no collision among the four texts hashed, the day still verifies if and only if every amount was a canonical decimal and the date text is what the column gives back. |
| `LedgerChain.ReformattedDate` | modules/ledger/service.js:248-260 | A journal dated "2026-4-28" that reads back as "2026-04-28" leaves its day failing, whatever its amounts. |
| `LedgerChain.ShiftedDates` | modules/ledger/service.js:254-256 | If the column never gives back a date text that names the day, as when local midnight is the day before in UTC, no accepted journal leaves its day verified. |
| `LedgerChain.RunVerifies` | modules/ledger/service.js:97-269 | After any run whose accepted journals have canonical amounts and dates that read back as written, verifyDayChain accepts every day. |
| `LedgerChain.RunVerifiesExactly` | modules/ledger/service.js:97-269 | With no collision among the texts hashed over the run, every day verifies if and only if all accepted journals were so. |
| `LedgerChain.EmptyVerifies` | modules/ledger/service.js:232-269 | Empty books verify on every date, where runs begin. |
| `LedgerChain.DayVerifiesExactly` | modules/ledger/service.js:232-269 | The invariant used for days is acceptance by the verification loop. |
| `LedgerChain.TextDeterminesPayload` | modules/ledger/service.js:55-71 | Equal texts mean equal payloads: sequence number, reason, date, reference and every entry. |
| `LedgerChain.SameEndSamePayloads` | modules/ledger/service.js:232-269 | Two verified days ending in the same hash hold the same payloads in the same order, under the collision and genesis hypotheses. |
| `LedgerChain.PayloadDeterminesPostings` | modules/ledger/service.js:55-71 | Equal payloads have the same postings, account by account and amount by amount. |
| `LedgerChain.CodesDiffer` | modules/ledger/codes.js:55-67 | Account codes tell accounts apart when all currency codes have one length. |
| `LedgerChain.CodesCollide` | modules/ledger/codes.js:55-67 | Without that, two accounts can share a code. |
| `AuditTrail.AuditLog.Record` | modules/audit/service.js:14-34 | The event is appended with the hash of its payload chained to the last hash of the day that the DATE column reads; a text it cannot read adds nothing. |
| `AuditTrail.EventWritten` | modules/audit/service.js:14-34 | Recording adds one event and changes none; its hash covers the last one of its day and the hash of the payload's text, a string payload being its own text. |
| `AuditTrail.AuditLog.VerifyDay` | modules/audit/service.js:47-58 | The verdict on the events whose DATE column holds the day read in the text, or none if no day is read. |
| `AuditTrail.RecordKeepsDays` | modules/audit/service.js:14-58 | Recording keeps every day verified, however the JSONB column orders the members of the stored payload. |
| `AuditTrail.LogVerifies` | modules/audit/service.js:14-58 | After any recordings from the empty log, verifyDay accepts every day and counts all its events. |
| `AuditTrail.SameEndSamePayloads` | modules/audit/service.js:47-58 | Two verified days with the same last hash hold the same payload texts; the seven-character genesis can be no digest. |
| `AuditTrail.TextIdentifiesPayload` | core/crypto.js:76-85 | Payloads that are not strings have the same text if and only if they denote the same tree. |
| `AuditTrail.VerifyEvidence` | modules/disputes/evidence-service.js:180-203 | The loop reports the first row whose hash or link is wrong, or how many rows are intact. |
| `AuditTrail.MetadataText` | modules/disputes/evidence-service.js:74-83 | The text an evidence row is hashed over, in full. |
| `AuditTrail.UploadKeepsChain` | modules/disputes/evidence-service.js:71-84 | Uploading keeps the chain of a case verified, as long as the rows before it have increasing times. |
| `AuditTrail.UploadsVerify` | modules/disputes/evidence-service.js:71-203 | When every upload has a later time than the one before, a case's rows verify after every upload and each is counted. |
| `AuditTrail.SameEndSameEvidence` | modules/disputes/evidence-service.js:180-203 | Two verified chains of a case with the same last hash agree on everything that is hashed. |
| `AuditTrail.LatestExactly` | modules/disputes/evidence-model.js:47-61 | The row that an upload is linked to has the greatest time, and of those the greatest id. |
| `AuditTrail.ListedAsWritten` | modules/disputes/evidence-model.js:35-45 | Rows with increasing uploaded_at can be listed in one order only. |
| `AuditTrail.UploadsVerifyExactly` | modules/disputes/evidence-model.js:35-61 | A case's rows verify after every upload, in whatever order ties of uploaded_at are listed, if and only if every upload has a later time than the one before. |
| `DisputeDesk.Desk.Transition` | modules/disputes/service.js:43-76 | The row and its history row are written, unless the case is missing, already there, terminal, or the step is not in the table. |
| `DisputeDesk.Desk.File` | modules/disputes/service.js:78-251 | A filing inserts a FILED case; over the rate limit or too late it is refused and still leaves a REJECTED case, unless the transaction or the participant is missing, when the insert fails and nothing is left. |
| `DisputeDesk.Desk.Process` | modules/disputes/service.js:305-494 | A FILED case is rejected, or accepted with its reserve held and then resolved or sent for evidence, in one transaction; a failed hold restores everything. |
| `DisputeDesk.Desk.OperatorKill` | modules/disputes/service.js:265-300 | Any case that is not terminal becomes DENIED, also along steps that the table of transitions does not have. |
| `DisputeDesk.Desk.HoldAmount` | modules/disputes/reserve-holder.js:10-63 | A missing case is not found, one in another state is a conflict, and one already held gives back its journal; otherwise both accounts are ensured and the hold journal is posted, or the ledger's error is returned. |
| `DisputeDesk.Desk.UploadEvidence` | modules/disputes/evidence-service.js:28-143 | Evidence is added, and with both sides present a pending case goes to adjudication. |
| `DisputeDesk.Desk.ExpireWindow` | modules/disputes/evidence-service.js:148-170 | A pending case past its deadline goes to adjudication; otherwise nothing happens. |
| `DisputeDesk.Desk.DecideManually` | modules/disputes/decision-service.js:18-115 | A valid ruling on an adjudicated case records one decision and moves the case; anything else changes nothing. |
| `DisputeDesk.Desk.PostRelease` | modules/disputes/settlement-service.js:26-106 | Three accounts are ensured and the release journal is posted, or an error is returned. |
| `DisputeDesk.Desk.SettleAutoResolved` | modules/disputes/settlement-service.js:117-150 | An auto-resolved case is released and settled in one transaction; a settled one is left alone. |
| `DisputeDesk.Desk.ConfirmSettlement` | modules/disputes/settlement-service.js:185-252 | A decided case is released and settled unless the confirmer decided it. |
| `DisputeCustody.HeldEffect` | modules/disputes/reserve-holder.js:23-62 | Holding moves exactly the amount from the beneficiary into the reserve of the currency and adds one hold journal for the case. |
| `DisputeCustody.ReleasePays` | modules/disputes/settlement-service.js:64-95 | Upholding pays the originator, rejecting the beneficiary, a partial verdict both: the credits always sum to the amount. |
| `DisputeCustody.ReleasedEffect` | modules/disputes/settlement-service.js:26-106 | A release takes the whole amount out of the reserve and adds one release journal for the case. |
| `DisputeCustody.ConfirmNeedsAnother` | modules/disputes/settlement-service.js:198-217 | A confirmation that changes anything releases a held, decided, unreleased case, and not on the word of the user who decided it. |
| `DisputeCustody.StepSound` | modules/disputes/service.js:43-494 | Every operation keeps four invariants: the reserve balance of each currency is the sum of the amounts held and not released; each case has one hold and one release journal at most, the release only after the hold; its history is a chain of allowed steps ending in its state; a decision implies a held reserve. |
| `DisputeCustody.RunSound` | modules/disputes/service.js:43-494 | So in every state that any run of operations reaches, whatever validators, resolvers and rulings answer. |
| `DisputeCustody.AdjudicationNeedsEvidence` | modules/disputes/evidence-service.js:121-170 | A case goes from EVIDENCE_PENDING to ADJUDICATING only by an upload that completes both sides or once its deadline has passed. |
| `DisputeCustody.RunRulings` | modules/disputes/decision-service.js:29-91 | In every reachable state an UPHELD case was decided UPHOLD, a PARTIAL_UPHELD one PARTIAL with a share strictly between nothing and the amount, and an AUTO_RESOLVED one has a decision. |
| `DisputeOutcomes.ConfirmationPays` | modules/disputes/settlement-service.js:185-252 | Every confirmation that changes anything moves the whole amount out of the reserve: to the originator if the case is UPHELD, to the beneficiary if DENIED, and if PARTIAL_UPHELD the outcome amount to the originator and the rest to the beneficiary; no other account moves. |
| `DisputeOutcomes.AutoSettlementPays` | modules/disputes/settlement-service.js:117-150 | Every automatic settlement that changes anything does so by the outcome written in the case. |
| `DisputeOutcomes.PaidByDecision` | modules/disputes/settlement-service.js:117-252 | In every run what is paid back is what the recorded decision says, except that a denied case that an operator killed pays the beneficiary whatever was decided. |
| `DisputeOutcomes.ReleasedExactly` | modules/disputes/settlement-service.js:26-106 | A release succeeds if and only if the ledger takes it: a readable date, usable accounts, and shares above zero. |
| `DisputeOutcomes.ConfirmAnswers` | modules/disputes/settlement-service.js:185-252 | What the one who confirms is told: which of the case, its state, the decision, another user, the transaction or the release is missing, in that order. |
| `DisputeOutcomes.StateChanges` | modules/disputes/service.js:43-494 | The state machine, exactly: a case goes to another state if and only if one of the operations that lead there finds its written conditions met. |
| `DisputeOutcomes.CaseWritten` | modules/disputes/service.js:43-494 | A case that goes nowhere is as it was, and one that goes somewhere has its row rewritten as the new state says. |
| `DisputeOutcomes.FilingExactly` | modules/disputes/service.js:78-251 | What a filing leaves, by its conditions: a filed case for the amount asked or the transaction's, a rejected one, or nothing. |
| `DisputeOutcomes.RunNumbers` | modules/disputes/service.js:43-494 | In every run the reserve and release numbers of a case name its own hold and release journals. |
| `DisputeOutcomes.ProcessingHolds` | modules/disputes/reserve-holder.js:10-63 | Accepting a case moves its amount from the beneficiary's settlement account into the reserve, and nothing else. |
| `DisputeOutcomes.EvidenceExactly` | modules/disputes/evidence-service.js:28-143 | Evidence is added by an upload to a case that waits for it or is in adjudication, and by nothing else. |
| `DisputeOutcomes.DecisionsExactly` | modules/disputes/decision-service.js:18-115 | Decisions stay, and a new one is recorded exactly by an automatic resolution or a valid manual ruling, with its outcome, amount and user. |
| `DisputeOutcomes.RunRuled` | modules/disputes/decision-service.js:18-115 | In every run an UPHELD, PARTIAL_UPHELD or AUTO_RESOLVED case carries its recorded decision, amount included, and a DENIED one was decided REJECT or killed. |
| `DisputeCustody.TerminalForever` | modules/disputes/states.js:22-38 | A REJECTED or SETTLED case never changes again, in any run. |
| `EscrowDesk.Desk.Create` | modules/overlays-escrow/service.js:62-126 | The row is inserted and held in one transaction, or nothing is. |
| `EscrowDesk.Desk.ReleaseInternal` | modules/overlays-escrow/service.js:165-197 | The amount of the row that was read is paid to its payee and the row in the table becomes RELEASED. |
| `EscrowDesk.Desk.RefundInternal` | modules/overlays-escrow/service.js:200-236 | The amount goes back to the payer and the row becomes REFUNDED. |
| `EscrowDesk.Desk.Sign` | modules/overlays-escrow/service.js:134-162 | A signature is recorded, and the second one releases; a failed release undoes the signature. |
| `EscrowDesk.Desk.Cancel` | modules/overlays-escrow/service.js:273-298 | A held escrow is refunded; a terminal one is refused. |
| `EscrowDesk.Desk.Tick` | modules/overlays-escrow/service.js:301-313 | Each picked row is released from the row read before, in its own transaction; a failure leaves the others. |
| `EscrowCustody.StepSound` | modules/overlays-escrow/service.js:62-313 | Every operation keeps: the escrow account of each currency is the sum of the HELD amounts; each row has one hold journal and one payout journal exactly when RELEASED or REFUNDED; no INITIATED or CANCELLED row is committed; a RELEASED row meets its condition. |
| `EscrowCustody.RunSound` | modules/overlays-escrow/service.js:62-313 | So in every state any run reaches, when no other step falls between the pick and the releases of a tick. |
| `EscrowCustody.StaleRelease` | modules/overlays-escrow/service.js:301-306 | Releasing from a row read while it was held keeps the escrow account right if and only if the row is still HELD; otherwise it is paid out twice. |
| `EscrowCustody.ReleaseNeedsCondition` | modules/overlays-escrow/service.js:134-263 | A row becomes RELEASED only by the second signature, the deadline, the payer release, or the arbiter named in it. |
| `EscrowCustody.CreateDebitsPayer` | modules/overlays-escrow/service.js:99-110 | Creating moves the amount from the payer into the escrow account of its currency, and no other account. |
| `EscrowCustody.ReleasePaysPayee` | modules/overlays-escrow/service.js:165-182 | Releasing moves the amount from the escrow account to the payee, and no other account. |
| `EscrowCustody.RefundPaysPayer` | modules/overlays-escrow/service.js:200-217 | Refunding moves the amount from the escrow account back to the payer, and no other account. |
| `EscrowCustody.PaidOutStays` | modules/overlays-escrow/service.js:165-236 | A released or refunded row never changes again. |
| `EscrowOutcomes.RowsExactly` | modules/overlays-escrow/service.js:62-313 | What every operation makes of every row: RELEASED if it is the one its condition waits for (the second signature, the payer, the named arbiter, the due time) and the ledger takes the payment, REFUNDED by a cancellation, the signer's own flag set by a first signature, and otherwise unchanged. |
| `EscrowOutcomes.CreateExactly` | modules/overlays-escrow/service.js:62-126 | A creation adds one HELD row with its terms and no signature if its conditions are met, and otherwise nothing. |
| `EscrowOutcomes.StepRest` | modules/overlays-escrow/service.js:62-313 | No operation moves any account except as the rows say: a held amount has left the payer for the escrow account, a released one has reached the payee, a refunded one is back. |
| `EscrowOutcomes.RunByRows` | modules/overlays-escrow/service.js:62-313 | So over any run. |
| `EscrowOutcomes.PaidExactly` | modules/overlays-escrow/service.js:134-298 | The second signature, the payer's word and the arbiter's word release the row exactly when its condition waits for them and the ledger takes the payment: the amount leaves the escrow account for the payee and no other account moves; refund and cancellation pay the payer in the same way, and any other call pays nobody. |
| `EscrowOutcomes.TickReleases` | modules/overlays-escrow/model.js:75-86 | A tick releases every due row that the ledger lets it pay, up to a hundred, the earliest first. |
| `CrossBorderDesk.Desk.Lock` | modules/crossborder-fx/quote-service.js:93-117 | An open quote is locked; one past its time is marked EXPIRED and committed so although the caller sees an error. |
| `CrossBorderDesk.Desk.VerifyAndConsume` | modules/crossborder-fx/quote-service.js:122-172 | An open or locked quote in time and within the slippage cap is consumed by the transaction; a consumed one is accepted again only for its own. |
| `CrossBorderDesk.Desk.Coordinate` | modules/crossborder-tx/coordinator.js:25-124 | The quote is consumed, both legs are posted and the row inserted, or everything is rolled back, expiry and slippage marks included. |
| `CrossBorderDesk.Desk.PostLeg1` | modules/crossborder-tx/leg-runner.js:22-54 | The originator is debited into the exchange account of the pay currency. |
| `CrossBorderDesk.Desk.PostLeg2` | modules/crossborder-tx/leg-runner.js:56-91 | The exchange account of the receive currency is debited into the foreign rail's account. |
| `CrossBorderDesk.Desk.HandleOne` | modules/crossborder-tx/recovery-worker.js:27-213 | The row is confirmed, compensated and rejected, retried with backoff, failed at the fifth attempt, or left alone, as the foreign rail answers. |
| `CrossBorderDesk.Desk.Tick` | modules/crossborder-tx/recovery-worker.js:216-228 | The picked rows are handled in order from the rows read before; an error leaves the others. |
| `CrossBorderCustody.LegsAndCompensationCancel` | modules/crossborder-tx/leg-runner.js:22-140 | Leg 1, leg 2 and the compensation net to zero on every account, also when both currencies are equal. |
| `CrossBorderCustody.OrderMoves` | modules/crossborder-tx/coordinator.js:58-69 | An accepted order debits the originator, passes through the exchange accounts of both currencies and credits the foreign rail; no other account moves. |
| `CrossBorderCustody.TerminalForever` | modules/crossborder-tx/states.js:12-16 | A CONFIRMED, REJECTED or FAILED row never changes again in any run, so a confirmed payment is never compensated. |
| `CrossBorderCustody.StepSound` | modules/crossborder-tx/recovery-worker.js:27-228 | Every operation keeps: each exchange and foreign-rail account is the sum over uncompensated rows; a row has a compensation journal if and only if it is REJECTED; each row's quote was consumed for its transaction. |
| `CrossBorderCustody.RunSound` | modules/crossborder-tx/recovery-worker.js:27-228 | So in every state any run reaches, whatever the foreign rails answer. |
| `CrossBorderCustody.StaleRejection` | modules/crossborder-tx/recovery-worker.js:167-209 | Compensating from a row read earlier keeps the accounts right if and only if the row was not compensated in between. |
| `CrossBorderCustody.TimeoutsFail` | modules/crossborder-tx/recovery-worker.js:74-107 | In any run in which a row's rail gives no answer, the row after n timeouts has made n attempts, times out at most five times, and is FAILED if and only if there were five; until then it is due again by the backoff table. |
| `CrossBorderCustody.FailedNoSooner` | modules/crossborder-tx/recovery-worker.js:16-107 | So the tick that fails it comes at least 2550 seconds after the first contact. |
| `CrossBorderCustody.QuoteServesOne` | modules/crossborder-fx/quote-service.js:122-172 | In every reachable state no quote serves two rows. |
| `CrossBorderCustody.LockExpiresConsumed` | modules/crossborder-fx/quote-service.js:93-101 | lock marks a consumed quote past its time EXPIRED, and the row it serves still has it alone. |
| `CrossBorderOutcomes.ConfirmedExactly` | modules/crossborder-tx/recovery-worker.js:27-213 | A row becomes CONFIRMED if and only if the step is a tick that contacts it with a registered rail that answers ACCEPTED; a PENDING answer or a timeout is one attempt more. |
| `CrossBorderOutcomes.RunConfirmed` | modules/crossborder-tx/recovery-worker.js:27-228 | In every run a row is CONFIRMED if and only if its rail accepted it in one of the ticks, and its attempts count the waits. |
| `CrossBorderOutcomes.ContactedRow` | modules/crossborder-tx/recovery-worker.js:27-213 | What each answer makes of the row: confirmed, waiting with the foreign number after the written backoff, failed at the fifth timeout, or compensated and rejected if the ledger takes both legs back. |
| `CrossBorderOutcomes.OnlyRefusalsPost` | modules/crossborder-tx/recovery-worker.js:110-228 | A tick in which no rail refuses leaves books and quotes as they were. |
| `CrossBorderOutcomes.UncontactedRow` | modules/crossborder-tx/recovery-worker.js:216-228 | A row that is not contacted stays as it is. |
| `CrossBorderOutcomes.StepRest` | modules/crossborder-tx/recovery-worker.js:27-228 | No operation moves any account except as the rows say: an uncompensated payment has left the originator and stands in the exchange accounts and with the foreign rail. |
| `CrossBorderOutcomes.RunByRows` | modules/crossborder-tx/recovery-worker.js:27-228 | So over any run. |
| `CrossBorderOutcomes.ContactsExactly` | modules/crossborder-tx/model.js:67-79 | A tick contacts at most twenty rows, each once, that wait for their rail and are due. |
| `CrossBorderOutcomes.CoordinateExactly` | modules/crossborder-tx/coordinator.js:25-124 | An order consumes its quote and adds one row if and only if the quote is usable and the ledger takes both legs, and otherwise changes nothing. |
| `CrossBorderOutcomes.QuotesExactly` | modules/crossborder-fx/quote-service.js:93-188 | A quote is locked, expired or consumed exactly as the operation and its own time say, and only then. |
| `MandateDesk.Desk.CheckCaps` | modules/overlays-mandates/service.js:103-137 | Answers whether the debit fits the per-debit, daily, monthly and total caps at the time of the check. |
| `MandateDesk.Desk.BeginDebit` | modules/overlays-mandates/service.js:144-179 | A refused debit is recorded as such; otherwise the payment starts. |
| `MandateDesk.Desk.FinishDebit` | modules/overlays-mandates/service.js:218-268 | The outcome is recorded whatever has happened to the mandate since; a success raises the total and exhausts the mandate at its total cap. |
| `MandateDesk.Desk.Revoke` | modules/overlays-mandates/service.js:271-291 | A mandate that is not terminal becomes REVOKED. |
| `MandateDesk.Desk.SumSuccessfulDebitsSince` | modules/overlays-mandates/model.js:113-120 | The loop adds up the successful debits of the mandate from the given time on. |
| `Mandates.DaysAreCalendar` | modules/overlays-mandates/service.js:28-29 | The start of the UTC day is never later than the time, never decreases, and is the start of its own day. |
| `Mandates.RecordKeepsCap` | modules/overlays-mandates/service.js:103-137 | A debit recorded out of the room found at an earlier check keeps the cap of every period, also when midnight or the month end passes between the two, and leaves the rest of the room. |
| `MandateCaps.StartExact` | modules/overlays-mandates/service.js:103-179 | A payment that starts leaves room under every cap for all payments under way if and only if its debit fits together with those already under way. |
| `MandateCaps.StepSound` | modules/overlays-mandates/service.js:103-327 | Whatever the operation, in no UTC day and no UTC month do the successful debits of a mandate exceed its cap, nor in total, and total_debited is the sum of the successes, as long as payments that start fit together with those under way. |
| `MandateCaps.RunSound` | modules/overlays-mandates/service.js:103-327 | So in every state of every such run, with a clock that does not run backwards and any number of payments under way. |
| `MandateCaps.OneAtATimeKeeps` | modules/overlays-mandates/service.js:103-327 | A mandate of which no two payments are under way at once keeps its caps, whatever is done to the others. |
| `MandateCaps.ReliableExactly` | modules/overlays-mandates/service.js:103-269 | The caps of a mandate hold after every possible run in which payments that start fit if and only if they hold now with room for everything under way. |
| `MandateCaps.CheckExact` | modules/overlays-mandates/service.js:103-179 | The check does not count payments under way: one that passes it leaves the caps reliable if and only if it fits together with them. |
| `MandateCaps.OverlappingDebits` | modules/overlays-mandates/service.js:103-269 | In the run in which two debits both pass the check before either is recorded, at any times and in either order, the daily and the monthly cap hold afterwards if and only if the two records fall in different periods or both debits fit, and the total cap if and only if both fit. |
| `MandateCaps.OverlapExceeds` | modules/overlays-mandates/service.js:103-269 | From an empty table, two debits of 6 under a daily cap of 10 both pass and are both paid, and the day sees 12. |
| `MandateCaps.RunAccounts` | modules/overlays-mandates/service.js:144-269 | In any run the successes recorded on a mandate are exactly its payments that ended well, each once. |
| `MandateCaps.PaymentStarted` | modules/overlays-mandates/service.js:144-179 | Each payment of a run was started by an operation of its own, which found the mandate ACTIVE and the amount within all four caps. |
| `MandateCaps.OnlyPermittedSucceed` | modules/overlays-mandates/service.js:144-269 | Every success that a run records is a payment that ended well and was started so. |
| `MandateCaps.TerminalOnlyOpen` | modules/overlays-mandates/service.js:144-291 | From the moment a mandate is REVOKED or EXHAUSTED, any run leaves it terminal and adds only successes of the payments then under way, each at most once and for its amount. |
| `MandateCaps.ClosedForever` | modules/overlays-mandates/service.js:144-157 | With nothing under way, nothing ever succeeds on it again. |
| `MandateCaps.RevokedUnderWay` | modules/overlays-mandates/service.js:223-268 | A mandate revoked while a debit is under way still sees that debit succeed. |
| `MandateOutcomes.SameDay` | modules/overlays-mandates/service.js:28-29 | Two times are in one day if and only if they have the same number of whole days of milliseconds behind them. |
| `MandateOutcomes.BeginExactly` | modules/overlays-mandates/service.js:144-179 | A presented debit starts its payment if and only if the mandate is ACTIVE and the debit stays within all four caps; otherwise one row says which of these failed first. |
| `MandateOutcomes.FinishExactly` | modules/overlays-mandates/service.js:218-268 | A payment that ends well is one success more, for its amount, in the row, the total and the count; one that fails leaves a row that says so. |
| `MandateOutcomes.CreateExactly` | modules/overlays-mandates/service.js:41-101 | A new mandate is ACTIVE with the caps asked for and nothing debited. |
| `MandateOutcomes.StateChanges` | modules/overlays-mandates/service.js:223-327 | A mandate goes to another state if and only if one of the operations that lead there finds its written conditions met. |
| `MandateOutcomes.RunCounts` | modules/overlays-mandates/service.js:144-268 | In every run the count of a mandate is the number of its recorded successes and its total their sum. |
| `BulkDesk.Desk.UploadFile` | modules/overlays-bulk/service.js:68-161 | A new file becomes a run with one line for each row, unparsable ones failed with amount zero; the same file from the same originator gives back its run. |
| `BulkDesk.Desk.ProcessOne` | modules/overlays-bulk/service.js:165-320 | One batch: the picked lines are marked, paid and given results, and the aggregates and the state are stored. |
| `BulkDesk.Desk.RunToCompletion` | modules/overlays-bulk/service.js:323-330 | The driver always returns, with the run that repeated batches come to and the sum of what they processed. |
| `BulkConservation.BatchSound` | modules/overlays-bulk/service.js:165-320 | Whatever the replies and the batch size: counts and amounts of a closed run add up to its totals, its state is decided by the counts, and no line is handed to the orchestrator twice. |
| `BulkConservation.NewRunSound` | modules/overlays-bulk/service.js:86-161 | A new run has as many lines as the file has rows, and their amounts sum to its total. |
| `BulkConservation.ResultsStay` | modules/overlays-bulk/service.js:181-196 | A line that is no longer pending keeps its state. |
| `BulkConservation.BatchProgress` | modules/overlays-bulk/service.js:323-330 | A batch that neither ends the run nor throws leaves fewer pending lines. |
| `BulkConservation.CompletionExact` | modules/overlays-bulk/service.js:323-330 | With a batch size of at least one, no line stuck in PROCESSING and no envelope refused, the driver closes the run and each line ends as its own reply says, whatever the batch size. |
| `BulkConservation.ClosesExactly` | modules/overlays-bulk/service.js:165-330 | The driver closes an open run without throwing if and only if no line was left in PROCESSING and, with a batch size of at least one, no pending line's envelope is refused, or with a batch size of zero no line is pending. |
| `BulkConservation.ZeroBatchSize` | modules/overlays-bulk/service.js:197-222 | With a batch size of zero the driver reports the end at once and every pending line stays pending; the run is closed if and only if every line was done. |
| `BulkConservation.StuckRun` | modules/overlays-bulk/service.js:165-330 | A line left in PROCESSING stays so through the whole driver run, and the run stays open. |
| `BulkConservation.RefusedRun` | modules/overlays-bulk/service.js:165-330 | With a pending line whose envelope is refused, the driver throws or ends with the run open. |
| `BulkConservation.ProcessedIsSubmitted` | modules/overlays-bulk/service.js:323-330 | A driver that does not throw reports exactly the number of lines it handed to the orchestrator. |
| `BulkOutcomes.NewRunExactly` | modules/overlays-bulk/service.js:68-161 | A new run is QUEUED, with one line for each row: pending for its amount, or failed with none if the row could not be parsed. |
| `BulkOutcomes.BatchLine` | modules/overlays-bulk/service.js:165-320 | What a batch makes of every line: of the first pending ones, those paid succeed if the orchestrator confirmed and fail otherwise, up to the first refused envelope, and the rest wait in PROCESSING. |
| `BulkOutcomes.ThrowsExactly` | modules/overlays-bulk/service.js:181-222 | A batch throws if and only if one of the lines it takes is refused an envelope. |
| `BulkOutcomes.RunExactly` | modules/overlays-bulk/service.js:165-320 | A batch that throws only leaves the run running; any other stores the counts and amounts of its lines, and closes the run as they are if all are done. |
| `BulkOutcomes.DriverLine` | modules/overlays-bulk/service.js:323-330 | When the driver closes a run, each line that was pending succeeded if and only if its own payment was confirmed. |
| `BulkOutcomes.PickFrom` | modules/overlays-bulk/model.js:101-111 | A batch takes the first pending lines in order, as many as it holds. |
| `Money.DivFloorIsFloor` | core/money.js:76-83 | divFloor rounds toward minus infinity for every sign of both operands and refuses only zero. |
| `Money.ConvertFloors` | core/money.js:128-153 | The conversion is the floor of the exact rational product for every non-negative amount, and for a negative one if and only if the product is whole. |
| `Money.ConvertIsExactQuotient` | core/money.js:146-152 | Both branches of the exponent give one division of the exact fraction, truncated toward zero. |
| `Money.TrailingZerosInRate` | core/money.js:135-137 | Zeros after the last digit of a rate change no conversion. |
| `Money.ConvertDependsOnRateValue` | core/money.js:135-137 | Only the number a rate denotes matters, not how it is written. |
| `Money.ConvertSuperadditive` | core/money.js:128-153 | Converting two amounts separately never yields more than converting their sum, and at most one unit less. |
| `Money.RoundTripNeverGains` | core/money.js:128-153 | Converting out and back never gains when the two rates multiply to at most one. |
| `Money.ConvertMinorExactly` | core/money.js:128-153 | convertMinor answers if and only if both currencies are known and the rate text is well formed and not zero; the answer r to a non-negative amount satisfies r / 10^receive <= pay / 10^pay * rate < (r + 1) / 10^receive, and a negative one is answered with the opposite sign. |
| `Money.OneForOne` | core/money.js:128-153 | At rate "1" one major unit of any known currency is one major unit of any other. |
| `Money.ThereAndBack` | core/money.js:128-153 | Paying and changing the proceeds back never gains when the rates multiply to at most one. |
| `Money.FormatFaithful` | core/money.js:158-167 | Two amounts print alike only when they are the same amount of the same currency. |
| `Money.SimulatorAgrees` | modules/crossborder-rails/simulator.js:27-49 | The simulator agrees with convertMinor on every amount and every rate above zero if and only if both tables put the same distance between the two currencies' digits. |
| `Money.SlippageExactly` | modules/crossborder-fx/quote-service.js:13-26 | With the rates over a common denominator, the largest whole number of ten-thousandths of the old rate that the difference holds; 2^53 - 1 for an old rate of zero. |
| `Money.SlippageIsRelativeDrift` | modules/crossborder-fx/quote-service.js:13-26 | The drift is floor(|new - old| / old * 10000) of the two rates as numbers, however many digits their texts carry. |
| `Transfers.MovedBalance` | modules/ledger/service.js:97-208 | A journal posted by a custody protocol moves each account by its own lines and nothing else. |
| `Transfers.SplitAccepted` | modules/ledger/service.js:97-137 | So for a split between two accounts. |
| `Transfers.SwapAccepted` | modules/ledger/service.js:97-137 | And for two transfers in one journal. |
| `Transfers.PairAccepted` | modules/ledger/service.js:97-137 | A transfer between two accounts of one currency is accepted if and only if the date is given and readable, the amount is positive, and both accounts exist, are active and hold that currency. |
| `Postings.LinesCanonical` | modules/ledger/service.js:55-71 | The amounts of a custody journal, whole and positive, are written as the table gives them back. |
| `Postings.ReachesVerifies` | modules/ledger/service.js:97-269 | A part of the rail whose dates read back as written keeps every day of the hash chain verified. |
| `Rail.DisputeReaches` | modules/disputes/service.js:305-494 | Whatever a dispute operation commits, it does to the ledger only by opening accounts and posting hold and release journals on settlement and reserve accounts, under the transaction's date. |
| `Rail.EscrowReaches` | modules/overlays-escrow/service.js:62-313 | Escrow operations only open accounts and post hold and release journals on settlement and escrow accounts, under the day of the call. |
| `Rail.PaymentReaches` | modules/crossborder-tx/recovery-worker.js:27-228 | Cross-border operations only open accounts and post legs and compensations on settlement and nostro accounts, under the day of the call. |
| `Rail.RunNumbered` | migrations/0018_ledger.sql:18 | However the parts are interleaved, journal numbers strictly increase and a journal once posted stays where it is. |
| `Rail.RunSound` | modules/ledger/service.js:97-208 | However the three custody protocols and the rest of the rail are interleaved on one ledger, each keeps all its invariants in every state, and every journal balances. |
| `Rail.Conservation` | modules/ledger/service.js:97-208 | In every such state the balances of all accounts of a currency sum to zero. |
| `Rail.RunVerifies` | modules/ledger/service.js:97-269 | And every day of the ledger's hash chain verifies in every such run, as long as the dates posted under read back as written. |
| `Rail.StartSound` | modules/ledger/service.js:74-95 | Empty tables over empty books are where such runs begin. |

## Left out

- Interleaved workers and row locks: steps are serialised, except that a mandate's check and its record are separate steps, with any number of payments under way, and that the effect of a stale row is proved for escrow and cross-border.
- Digits of SHA-256, signatures and key handling: the hash is a parameter and signatures are not part of this model.
- UTF-8: the QR checksum takes the encoding of a text as a parameter; in the other codecs characters are Unicode scalars, where the program counts UTF-16 units.
- Properties that JavaScript objects inherit: a lookup such as `CURRENCY_NUMERIC['toString']` is not modelled, tables are maps with their own keys only.
- `BigInt` and `Number` texts in hexadecimal, octal or exponent form, NUMERIC(38,0) overflow and CHAR(3) padding: amounts are integers of any size and decimal texts.
- ISO 8583 field keys that are not integers, such as "02", which the program would look up under another name.
- JSON numbers that are not integers, `undefined`, dates and objects with a `toJSON` method: the model has null, booleans, integers, strings, arrays and objects.
- Infinite dates: PostgreSQL's 'infinity' reads back as a number, where the model's column gives a text.
- Calendar arithmetic: the start of a UTC month is any function that divides time into periods; the start of a UTC day is computed.
- Sequence numbers of rolled-back journals: the model's sequence has no gaps.
- Case, escrow and run numbers, metadata, audit records written beside each step, notification hooks and the reversal started after a dispute is settled.
- The scheduler's choice of which mandates to debit, and how amounts and rates are fetched from market makers: both are parameters of the steps.
- Liveness of killed disputes: a case killed before a decision keeps its reserve with no way to settle it; only safety is proved.
- `sumByCurrencyForEntries` in modules/ledger/model.js: it repeats the accumulation of `assertBalanced`, which is modelled.
- Ties in `occurred_at`: a case's history is the order in which its rows were written. Ties and disorder in `uploaded_at` are modelled.
- Ids of evidence rows are natural numbers, ordered as the database orders its UUIDs.
- The settlement engine, the transaction orchestrator, ISO 8583 specification tables, fraud rules, ISO 20022 messages and the bulk file parsers: not part of this model; specifications and replies are quantified over.
- Fee clamping, authorisation, aliases, request-to-pay, cash-out, refunds, routes and dashboards: single guards and plumbing that would only add easy members.
- Floating point: similarity scores are exact rationals.
