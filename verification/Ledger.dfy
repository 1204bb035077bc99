/** The double-entry ledger (modules/ledger): accounts, journals with their postings, and one hash
    chain for each operating date. `Books` is the content of its tables; Posted is what one
    committed call makes of them, and a rejected call leaves them as they are. */
module Ledger {
  import opened Text
  import J = CanonicalJson
  import opened HashChain

  datatype AccountType =
    | ParticipantSettlement
    | RailFeeRevenue
    | RailFeeReceivable
    | RailSuspense
    | RailReversal
    | OperatorRtgsNostro
    | RailDisputeReserve
    | RailEscrow
    | RailFxNostro
    | RailForeignRailNostro

  /** What an account code is made of. Accounts of the rail itself have no owner. */
  datatype AccountKey = AccountKey(kind: AccountType, owner: string, currency: string)

  datatype AccountRow = AccountRow(currency: string, active: bool)

  datatype Side = DR | CR | UnknownSide(name: string)

  datatype Reason =
    | TransactionConfirmed | ReversalPosted | FeeSettle | IntradayCycle | EodCycle | RtgsGross | ExceptionPosted | Topup
    | DisputeReserveHold | DisputeReserveRelease | EscrowHold | EscrowRelease | XbLeg1 | XbLeg2 | XbCompensate
    | UnknownReason(name: string)

  datatype Reference = Reference(kind: Option<string>, id: Option<string>)

  /** A posting as a caller asks for it; the amount is text. */
  datatype Entry = Entry(account: AccountKey, side: Side, amount: string, currency: string)

  datatype JournalInput = JournalInput(reason: Reason, reference: Reference, operatingDate: string,
    entries: seq<Entry>, postedAt: int)

  /** A posting as the table stores it. */
  datatype Posting = Posting(account: AccountKey, side: Side, amount: nat, currency: string)

  /** The column operating_date: the day it reads in a date text, if any, and the text that the service
      makes of a day read back from it. What they are is up to the database and the process's zone. */
  datatype DateColumn = DateColumn(read: string -> Option<int>, show: int -> string)

  datatype Journal = Journal(
    seqNo: nat, postedAt: int, operatingDate: int, reason: Reason, reference: Reference,
    prevHash: string, hash: string, postings: seq<Posting>)

  datatype Books = Books(
    sha256: Hash, dates: DateColumn, accounts: map<AccountKey, AccountRow>, journals: seq<Journal>, nextSeq: nat)

  datatype LedgerError =
    | OwnerRequired | ReasonUnknown | DateRequired | TooFewEntries
    | BadNumber | NotPositive | SideUnknown | Unbalanced
    | AccountMissing | AccountInactive | CurrencyMismatch | DateInvalid

  const GENESIS := "0000000000000000000000000000000000000000000000000000000000000000"

  // ----- amounts

  /** `BigInt(text)` on decimal text. */
  function BigIntOf(text: string): Option<int> {
    var t := Trim(text);
    if t == "" then Some(0)
    else if t[0] == '-' || t[0] == '+' then
      if t[1..] != "" && AllDigits(t[1..]) then Some(if t[0] == '-' then 0 - Parse(t[1..]) else Parse(t[1..])) else None
    else if AllDigits(t) then Some(Parse(t))
    else None
  }

  lemma BigIntOfDigits(s: string, n: nat)
    requires s != "" && AllDigits(s) && Parse(s) == n
    ensures BigIntOf(s) == Some(n) && BigIntOf(['-'] + s) == Some(0 - n)
  {
    assert !IsSpace(s[0]) && !IsSpace(s[|s| - 1]);
    assert Trim(s) == s;
    var t := ['-'] + s;
    assert t[1..] == s && !IsSpace(t[0]) && t[|t| - 1] == s[|s| - 1];
    assert Trim(t) == t;
  }

  lemma BigIntOfText(n: int)
    ensures BigIntOf(J.IntText(n)) == Some(n)
  {
    var m := if n < 0 then 0 - n else n;
    ParsePrint(m);
    BigIntOfDigits(Print(m), m);
  }

  function Value(e: Entry): int {
    match BigIntOf(e.amount)
    case Some(n) => n
    case None => 0
  }

  // ----- assertBalanced

  /** The first entry from the i-th on that has no positive amount or no known side. */
  function EntryError(entries: seq<Entry>, i: nat): Option<LedgerError>
    requires i <= |entries|
    decreases |entries| - i
  {
    if i == |entries| then None
    else if BigIntOf(entries[i].amount).None? then Some(BadNumber)
    else if Value(entries[i]) <= 0 then Some(NotPositive)
    else if entries[i].side.UnknownSide? then Some(SideUnknown)
    else EntryError(entries, i + 1)
  }

  /** What the first i entries put on one side in one currency. */
  function SideSum(entries: seq<Entry>, i: nat, side: Side, currency: string): int
    requires i <= |entries|
  {
    if i == 0 then 0
    else
      var e := entries[i - 1];
      SideSum(entries, i - 1, side, currency) + if e.side == side && e.currency == currency then Value(e) else 0
  }

  predicate BalancedIn(entries: seq<Entry>, currency: string) {
    SideSum(entries, |entries|, DR, currency) == SideSum(entries, |entries|, CR, currency)
  }

  function BalanceError(entries: seq<Entry>): Option<LedgerError> {
    if EntryError(entries, 0).Some? then EntryError(entries, 0)
    else if exists i :: 0 <= i < |entries| && !BalancedIn(entries, entries[i].currency) then Some(Unbalanced)
    else None
  }

  datatype Sums = Sums(dr: int, cr: int)

  /** The sums the loop keeps are those of the entries seen so far. */
  ghost predicate SumsOf(byCcy: map<string, Sums>, order: seq<string>, entries: seq<Entry>, i: nat)
    requires i <= |entries|
  {
    && (forall c :: c in order <==> c in byCcy)
    && (forall c :: c in byCcy <==> exists k :: 0 <= k < i && entries[k].currency == c)
    && (forall c :: c in byCcy ==> byCcy[c] == Sums(SideSum(entries, i, DR, c), SideSum(entries, i, CR, c)))
  }

  lemma {:induction false} AbsentSums(entries: seq<Entry>, i: nat, side: Side, c: string)
    requires i <= |entries| && forall k :: 0 <= k < i ==> entries[k].currency != c
    ensures SideSum(entries, i, side, c) == 0
  {
    if i > 0 {
      AbsentSums(entries, i - 1, side, c);
    }
  }

  /** `assertBalanced`, accumulating the sums of each currency in a map. */
  method AssertBalanced(entries: seq<Entry>) returns (r: Option<LedgerError>)
    ensures r == BalanceError(entries)
  {
    var byCcy: map<string, Sums> := map[];
    var order: seq<string> := [];
    var i := 0;
    while i < |entries|
      invariant 0 <= i <= |entries|
      invariant EntryError(entries, 0) == EntryError(entries, i)
      invariant SumsOf(byCcy, order, entries, i)
    {
      var e := entries[i];
      var amount := BigIntOf(e.amount);
      if amount.None? {
        return Some(BadNumber);
      }
      if amount.value <= 0 {
        return Some(NotPositive);
      }
      if e.side.UnknownSide? {
        return Some(SideUnknown);
      }
      byCcy, order := AddToSums(byCcy, order, entries, i);
      i := i + 1;
    }
    var k := 0;
    while k < |order|
      invariant 0 <= k <= |order|
      invariant forall j :: 0 <= j < k ==> BalancedIn(entries, order[j])
    {
      if byCcy[order[k]].dr != byCcy[order[k]].cr {
        assert !BalancedIn(entries, order[k]);
        return Some(Unbalanced);
      }
      k := k + 1;
    }
    forall j | 0 <= j < |entries|
      ensures BalancedIn(entries, entries[j].currency)
    {
      assert entries[j].currency in order;
    }
    return None;
  }

  /** One entry added to the sums of its currency. */
  method AddToSums(byCcy: map<string, Sums>, order: seq<string>, entries: seq<Entry>, i: nat)
    returns (sums: map<string, Sums>, codes: seq<string>)
    requires i < |entries| && SumsOf(byCcy, order, entries, i) && !entries[i].side.UnknownSide?
    ensures SumsOf(sums, codes, entries, i + 1)
  {
    var e := entries[i];
    var cur := if e.currency in byCcy then byCcy[e.currency] else Sums(0, 0);
    if e.currency !in byCcy {
      AbsentSums(entries, i, DR, e.currency);
      AbsentSums(entries, i, CR, e.currency);
      codes := order + [e.currency];
    } else {
      codes := order;
    }
    cur := if e.side == DR then cur.(dr := cur.dr + Value(e)) else cur.(cr := cur.cr + Value(e));
    sums := byCcy[e.currency := cur];
  }

  // ----- posting

  /** The first entry from the i-th on whose account cannot take it. */
  function AccountError(accounts: map<AccountKey, AccountRow>, entries: seq<Entry>, i: nat): Option<LedgerError>
    requires i <= |entries|
    decreases |entries| - i
  {
    if i == |entries| then None
    else if entries[i].account !in accounts then Some(AccountMissing)
    else if !accounts[entries[i].account].active then Some(AccountInactive)
    else if accounts[entries[i].account].currency != entries[i].currency then Some(CurrencyMismatch)
    else AccountError(accounts, entries, i + 1)
  }

  /** The postings table keeps the amount as a number, whatever text it came as. */
  function StoredPosting(e: Entry): Posting {
    Posting(e.account, e.side, if Value(e) < 0 then 0 else Value(e), e.currency)
  }

  /** The rows for the first i entries. */
  function StoredUpTo(entries: seq<Entry>, i: nat): (ps: seq<Posting>)
    requires i <= |entries|
    ensures |ps| == i
  {
    if i == 0 then [] else StoredUpTo(entries, i - 1) + [StoredPosting(entries[i - 1])]
  }

  function DayOf(journals: seq<Journal>, date: int): seq<Journal> {
    if journals == [] then []
    else
      var front, last := journals[..|journals| - 1], journals[|journals| - 1];
      if last.operatingDate == date then DayOf(front, date) + [last] else DayOf(front, date)
  }

  /** The hash that the next journal of a date refers to. */
  function PrevHash(journals: seq<Journal>, date: int): string {
    var day := DayOf(journals, date);
    if day == [] || day[|day| - 1].hash == "" then GENESIS else day[|day| - 1].hash
  }

  function InputError(accounts: map<AccountKey, AccountRow>, j: JournalInput): Option<LedgerError> {
    if j.reason.UnknownReason? then Some(ReasonUnknown)
    else if j.operatingDate == "" then Some(DateRequired)
    else if |j.entries| < 2 then Some(TooFewEntries)
    else if BalanceError(j.entries).Some? then BalanceError(j.entries)
    else AccountError(accounts, j.entries, 0)
  }

  /** The database can read the date. */
  predicate Dated(b: Books, j: JournalInput) {
    b.dates.read(j.operatingDate).Some?
  }

  /** The day the journal is stored under. */
  function DayFor(b: Books, j: JournalInput): int
    requires Dated(b, j)
  {
    b.dates.read(j.operatingDate).value
  }

  /** The journal row that an accepted call adds, its hash over the date and the amounts as the caller
      wrote them. */
  function Sealed(b: Books, j: JournalInput): Journal
    requires Dated(b, j)
  {
    var prev := PrevHash(b.journals, DayFor(b, j));
    var text := J.CanonicalText(PayloadJson(b.nextSeq, j.reason, j.operatingDate, j.reference, GivenTexts(j.entries)));
    Journal(b.nextSeq, j.postedAt, DayFor(b, j), j.reason, j.reference, prev, ChainHash(b.sha256, prev, text),
            StoredUpTo(j.entries, |j.entries|))
  }

  /** `postJournal`; the query for the day's last journal fails on a date the database cannot read. */
  function Posted(b: Books, j: JournalInput): Result<Books, LedgerError> {
    if InputError(b.accounts, j).Some? then Err(InputError(b.accounts, j).value)
    else if !Dated(b, j) then Err(DateInvalid)
    else Ok(b.(journals := b.journals + [Sealed(b, j)], nextSeq := b.nextSeq + 1))
  }

  /** `ensureAccount` */
  function WithAccount(b: Books, key: AccountKey): Result<Books, LedgerError> {
    if OwnerMissing(key) then Err(OwnerRequired)
    else if key in b.accounts then Ok(b)
    else Ok(b.(accounts := b.accounts[key := AccountRow(key.currency, true)]))
  }

  predicate OwnerMissing(key: AccountKey) {
    (key.kind.ParticipantSettlement? || key.kind.RailForeignRailNostro?) && key.owner == ""
  }

  // ----- what is hashed

  datatype PayloadEntry = PayloadEntry(account: AccountKey, side: Side, amount: string, currency: string)

  function GivenTexts(entries: seq<Entry>): (ps: seq<PayloadEntry>)
    ensures |ps| == |entries|
  {
    seq(|entries|, i requires 0 <= i < |entries| =>
      PayloadEntry(entries[i].account, entries[i].side, entries[i].amount, entries[i].currency))
  }

  function StoredTexts(postings: seq<Posting>): (ps: seq<PayloadEntry>)
    ensures |ps| == |postings|
  {
    seq(|postings|, i requires 0 <= i < |postings| =>
      PayloadEntry(postings[i].account, postings[i].side, Print(postings[i].amount), postings[i].currency))
  }

  function TypeText(kind: AccountType): string {
    match kind
    case ParticipantSettlement => "PSET"
    case RailFeeRevenue => "RAIL_FEE_REVENUE"
    case RailFeeReceivable => "RAIL_FEE_RECEIVABLE"
    case RailSuspense => "RAIL_SUSPENSE"
    case RailReversal => "RAIL_REVERSAL"
    case OperatorRtgsNostro => "OPERATOR_RTGS_NOSTRO"
    case RailDisputeReserve => "RAIL_DISPUTE_RESERVE"
    case RailEscrow => "RAIL_ESCROW"
    case RailFxNostro => "RAIL_FX_NOSTRO"
    case RailForeignRailNostro => "XBRAIL"
  }

  /** `accountCodeFor` */
  function CodeOf(key: AccountKey): string {
    var owned := key.kind.ParticipantSettlement? || key.kind.RailForeignRailNostro?;
    var rest := if owned then key.owner + [':'] + key.currency else key.currency;
    TypeText(key.kind) + [':'] + rest
  }

  function SideText(side: Side): string {
    match side
    case DR => "DR"
    case CR => "CR"
    case UnknownSide(name) => name
  }

  function ReasonText(reason: Reason): string {
    match reason
    case TransactionConfirmed => "TRANSACTION_CONFIRMED"
    case ReversalPosted => "REVERSAL"
    case FeeSettle => "FEE_SETTLE"
    case IntradayCycle => "INTRADAY_CYCLE"
    case EodCycle => "EOD_CYCLE"
    case RtgsGross => "RTGS_GROSS"
    case ExceptionPosted => "EXCEPTION"
    case Topup => "TOPUP"
    case DisputeReserveHold => "DISPUTE_RESERVE_HOLD"
    case DisputeReserveRelease => "DISPUTE_RESERVE_RELEASE"
    case EscrowHold => "ESCROW_HOLD"
    case EscrowRelease => "ESCROW_RELEASE"
    case XbLeg1 => "XB_LEG_1"
    case XbLeg2 => "XB_LEG_2"
    case XbCompensate => "XB_COMPENSATE"
    case UnknownReason(name) => name
  }

  function OptionalText(s: Option<string>): J.Json {
    match s
    case None => J.Null
    case Some(text) => J.Str(text)
  }

  function EntryJson(e: PayloadEntry, postingSeq: nat): J.Json {
    J.Obj([
      J.Entry("postingSeq", J.Num(postingSeq)),
      J.Entry("accountCode", J.Str(CodeOf(e.account))),
      J.Entry("side", J.Str(SideText(e.side))),
      J.Entry("amount", J.Str(e.amount)),
      J.Entry("currency", J.Str(e.currency))])
  }

  function EntriesJson(ps: seq<PayloadEntry>): (items: seq<J.Json>)
    ensures |items| == |ps|
  {
    seq(|ps|, i requires 0 <= i < |ps| => EntryJson(ps[i], i))
  }

  /** `buildJournalPayload` */
  function PayloadJson(seqNo: nat, reason: Reason, date: string, reference: Reference, ps: seq<PayloadEntry>): J.Json {
    J.Obj([
      J.Entry("journalSeq", J.Str(Print(seqNo))),
      J.Entry("reason", J.Str(ReasonText(reason))),
      J.Entry("operatingDate", J.Str(date)),
      J.Entry("referenceType", OptionalText(reference.kind)),
      J.Entry("referenceId", OptionalText(reference.id)),
      J.Entry("entries", J.Arr(EntriesJson(ps)))])
  }

  /** The text a stored journal is hashed over when its day is verified. */
  function StoredText(dates: DateColumn, j: Journal): string {
    J.CanonicalText(PayloadJson(j.seqNo, j.reason, dates.show(j.operatingDate), j.reference, StoredTexts(j.postings)))
  }

  function LinkOf(dates: DateColumn, j: Journal): Link {
    Link(j.prevHash, StoredText(dates, j), j.hash)
  }

  function LinksOf(dates: DateColumn, day: seq<Journal>): (links: seq<Link>)
    ensures |links| == |day|
  {
    seq(|day|, i requires 0 <= i < |day| => LinkOf(dates, day[i]))
  }

  // ----- balances

  function Effect(p: Posting): int {
    if p.side == CR then p.amount else 0 - p.amount as int
  }

  /** What these postings do to an account. */
  function Net(ps: seq<Posting>, a: AccountKey): int {
    if ps == [] then 0
    else
      var last := ps[|ps| - 1];
      Net(ps[..|ps| - 1], a) + if last.account == a then Effect(last) else 0
  }

  /** `balanceForAccount`: credits less debits, up to a time if one is given. */
  function BalanceAsOf(journals: seq<Journal>, a: AccountKey, asOf: Option<int>): int {
    if journals == [] then 0
    else
      var last := journals[|journals| - 1];
      BalanceAsOf(journals[..|journals| - 1], a, asOf)
      + if asOf.Some? && last.postedAt > asOf.value then 0 else Net(last.postings, a)
  }

  function Balance(b: Books, a: AccountKey): int {
    BalanceAsOf(b.journals, a, None)
  }
}
