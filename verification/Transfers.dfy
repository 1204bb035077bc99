/** Journals as the custody protocols post them: whole minor units, each line in its account's own
    currency, the amount written with `String(...)`. */
module Transfers {
  import opened Text
  import opened Ledger
  import J = CanonicalJson
  import LedgerBalances
  import opened Sums

  datatype Line = Line(account: AccountKey, side: Side, amount: int)

  function EntryOf(line: Line): Entry {
    Entry(line.account, line.side, J.IntText(line.amount), line.account.currency)
  }

  function EntriesOf(lines: seq<Line>): (entries: seq<Entry>)
    ensures |entries| == |lines|
  {
    seq(|lines|, i requires 0 <= i < |lines| => EntryOf(lines[i]))
  }

  /** Posting these lines. */
  function Moved(b: Books, reason: Reason, reference: Reference, date: string, at: int, lines: seq<Line>):
      Result<Books, LedgerError> {
    Posted(b, JournalInput(reason, reference, date, EntriesOf(lines), at))
  }

  /** A debit of one account and a credit of another. */
  function Pair(debit: AccountKey, credit: AccountKey, amount: int): seq<Line> {
    [Line(debit, DR, amount), Line(credit, CR, amount)]
  }

  /** A debit of one account and credits of two. */
  function Split(debit: AccountKey, first: AccountKey, second: AccountKey, x: int, y: int): seq<Line> {
    [Line(debit, DR, x + y), Line(first, CR, x), Line(second, CR, y)]
  }

  /** Two transfers in one journal. */
  function Swap(a: AccountKey, b: AccountKey, x: int, c: AccountKey, d: AccountKey, y: int): seq<Line> {
    [Line(a, DR, x), Line(b, CR, x), Line(c, DR, y), Line(d, CR, y)]
  }

  /** What a line does to an account. */
  function LineNet(line: Line, a: AccountKey): int {
    if line.account != a then 0 else if line.side == CR then line.amount else -line.amount
  }

  function LinesNet(lines: seq<Line>, a: AccountKey): int {
    if lines == [] then 0 else LinesNet(lines[..|lines| - 1], a) + LineNet(lines[|lines| - 1], a)
  }

  /** The account exists, is active, and holds its own currency. */
  predicate Usable(b: Books, a: AccountKey) {
    a in b.accounts && b.accounts[a] == AccountRow(a.currency, true)
  }

  lemma EntryValue(line: Line)
    ensures BigIntOf(EntryOf(line).amount) == Some(line.amount) && Value(EntryOf(line)) == line.amount
  {
    BigIntOfText(line.amount);
  }

  /** The posting says what the line says. */
  predicate Records(p: Posting, line: Line) {
    p.account == line.account && Effect(p) == if line.side == CR then line.amount else -line.amount
  }

  lemma StoredRecords(e: Entry, line: Line)
    requires e == EntryOf(line) && line.amount > 0
    ensures Records(StoredPosting(e), line)
  {
    EntryValue(line);
  }

  lemma {:induction false} NetOfLines(ps: seq<Posting>, lines: seq<Line>, a: AccountKey)
    requires |ps| == |lines| && forall k :: 0 <= k < |ps| ==> Records(ps[k], lines[k])
    ensures Net(ps, a) == LinesNet(lines, a)
  {
    if ps != [] {
      var last := |ps| - 1;
      NetOfLines(ps[..last], lines[..last], a);
      assert Records(ps[last], lines[last]);
    }
  }

  lemma StoredNet(lines: seq<Line>, a: AccountKey)
    requires forall k :: 0 <= k < |lines| ==> lines[k].amount > 0
    ensures Net(StoredUpTo(EntriesOf(lines), |lines|), a) == LinesNet(lines, a)
  {
    var entries := EntriesOf(lines);
    var ps := StoredUpTo(entries, |lines|);
    forall k | 0 <= k < |ps|
      ensures Records(ps[k], lines[k])
    {
      LedgerBalances.StoredAt(entries, |lines|, k);
      StoredRecords(entries[k], lines[k]);
    }
    NetOfLines(ps, lines, a);
  }

  lemma MovedPositive(b: Books, reason: Reason, reference: Reference, date: string, at: int, lines: seq<Line>)
    requires Moved(b, reason, reference, date, at, lines).Ok?
    ensures forall k :: 0 <= k < |lines| ==> lines[k].amount > 0 && Usable(b, lines[k].account)
  {
    var entries := EntriesOf(lines);
    LedgerBalances.EntryErrorNone(entries, 0);
    LedgerBalances.AccountErrorNone(b.accounts, entries, 0);
    forall k | 0 <= k < |lines|
      ensures lines[k].amount > 0 && Usable(b, lines[k].account)
    {
      EntryValue(lines[k]);
      assert entries[k] == EntryOf(lines[k]);
    }
  }

  /** An accepted journal moves every account by its lines, and only by them. */
  lemma MovedBalance(b: Books, reason: Reason, reference: Reference, date: string, at: int, lines: seq<Line>,
      a: AccountKey)
    requires Moved(b, reason, reference, date, at, lines).Ok?
    ensures Balance(Moved(b, reason, reference, date, at, lines).value, a) == Balance(b, a) + LinesNet(lines, a)
  {
    MovedPositive(b, reason, reference, date, at, lines);
    LedgerBalances.PostedBalance(b, JournalInput(reason, reference, date, EntriesOf(lines), at), a);
    StoredNet(lines, a);
  }

  lemma LinesNetAppend(lines: seq<Line>, line: Line, a: AccountKey)
    ensures LinesNet(lines + [line], a) == LinesNet(lines, a) + LineNet(line, a)
  {
    assert (lines + [line])[..|lines|] == lines;
  }

  lemma PairNet(debit: AccountKey, credit: AccountKey, amount: int, a: AccountKey)
    ensures LinesNet(Pair(debit, credit, amount), a)
      == (if a == credit then amount else 0) - (if a == debit then amount else 0)
  {
    var x, y := Line(debit, DR, amount), Line(credit, CR, amount);
    LinesNetAppend([], x, a);
    LinesNetAppend([x], y, a);
    assert [] + [x] == [x] && [x] + [y] == [x, y];
  }

  lemma TripleNet(x: Line, y: Line, z: Line, a: AccountKey)
    ensures LinesNet([x, y, z], a) == LineNet(x, a) + LineNet(y, a) + LineNet(z, a)
  {
    LinesNetAppend([], x, a);
    LinesNetAppend([x], y, a);
    LinesNetAppend([x, y], z, a);
    assert [] + [x] == [x] && [x] + [y] == [x, y] && [x, y] + [z] == [x, y, z];
  }

  lemma QuadNet(w: Line, x: Line, y: Line, z: Line, a: AccountKey)
    ensures LinesNet([w, x, y, z], a) == LineNet(w, a) + LineNet(x, a) + LineNet(y, a) + LineNet(z, a)
  {
    TripleNet(w, x, y, a);
    LinesNetAppend([w, x, y], z, a);
    assert [w, x, y] + [z] == [w, x, y, z];
  }

  lemma PairSums(debit: AccountKey, credit: AccountKey, amount: int, side: Side, c: string)
    requires debit.currency == credit.currency && !side.UnknownSide?
    ensures var entries := EntriesOf(Pair(debit, credit, amount));
      SideSum(entries, 2, side, c) == if c == debit.currency then amount else 0
  {
    var entries := EntriesOf(Pair(debit, credit, amount));
    EntryValue(Line(debit, DR, amount));
    EntryValue(Line(credit, CR, amount));
    assert entries[0] == EntryOf(Line(debit, DR, amount)) && entries[1] == EntryOf(Line(credit, CR, amount));
    assert SideSum(entries, 0, side, c) == 0;
    assert SideSum(entries, 1, side, c) == if side == DR && c == debit.currency then amount else 0;
  }

  /** When a transfer is accepted. */
  lemma PairAccepted(b: Books, reason: Reason, reference: Reference, date: string, at: int, debit: AccountKey,
      credit: AccountKey, amount: int)
    requires !reason.UnknownReason? && debit.currency == credit.currency
    ensures Moved(b, reason, reference, date, at, Pair(debit, credit, amount)).Ok?
      <==> date != "" && b.dates.read(date).Some? && amount > 0 && Usable(b, debit) && Usable(b, credit)
  {
    var lines := Pair(debit, credit, amount);
    var entries := EntriesOf(lines);
    assert entries[0] == EntryOf(lines[0]) && entries[1] == EntryOf(lines[1]);
    EntryValue(lines[0]);
    EntryValue(lines[1]);
    PairErrors(b, entries);
    PairBalanced(debit, credit, amount);
  }

  lemma PairBalanced(debit: AccountKey, credit: AccountKey, amount: int)
    requires debit.currency == credit.currency
    ensures var entries := EntriesOf(Pair(debit, credit, amount)); forall i :: 0 <= i < 2 ==>
      BalancedIn(entries, entries[i].currency)
  {
    PairSums(debit, credit, amount, DR, debit.currency);
    PairSums(debit, credit, amount, CR, debit.currency);
  }

  lemma PairErrors(b: Books, entries: seq<Entry>)
    requires |entries| == 2
    ensures EntryError(entries, 0) == None <==> EntryFine(entries[0]) && EntryFine(entries[1])
    ensures AccountError(b.accounts, entries, 0) == None <==> AccountFine(b, entries[0]) && AccountFine(b, entries[1])
  {
    assert EntryError(entries, 2) == None && AccountError(b.accounts, entries, 2) == None;
    EntryErrorStep(entries, 0);
    EntryErrorStep(entries, 1);
    AccountErrorStep(b, entries, 0);
    AccountErrorStep(b, entries, 1);
  }

  lemma SplitSums(debit: AccountKey, first: AccountKey, second: AccountKey, x: int, y: int, side: Side, c: string)
    requires debit.currency == first.currency == second.currency && !side.UnknownSide?
    ensures var entries := EntriesOf(Split(debit, first, second, x, y));
      SideSum(entries, 3, side, c) == if c == debit.currency then x + y else 0
  {
    var lines := Split(debit, first, second, x, y);
    var entries := EntriesOf(lines);
    EntryValue(lines[0]);
    EntryValue(lines[1]);
    EntryValue(lines[2]);
    assert entries[0] == EntryOf(lines[0]) && entries[1] == EntryOf(lines[1]) && entries[2] == EntryOf(lines[2]);
    assert SideSum(entries, 0, side, c) == 0;
    assert SideSum(entries, 1, side, c) == if side == DR && c == debit.currency then x + y else 0;
    assert SideSum(entries, 2, side, c)
      == if c != debit.currency then 0 else if side == DR then x + y else x;
  }

  lemma SplitBalanced(debit: AccountKey, first: AccountKey, second: AccountKey, x: int, y: int)
    requires debit.currency == first.currency == second.currency
    ensures var entries := EntriesOf(Split(debit, first, second, x, y)); forall i :: 0 <= i < 3 ==>
      BalancedIn(entries, entries[i].currency)
  {
    SplitSums(debit, first, second, x, y, DR, debit.currency);
    SplitSums(debit, first, second, x, y, CR, debit.currency);
  }

  lemma SplitErrors(b: Books, entries: seq<Entry>)
    requires |entries| == 3
    ensures EntryError(entries, 0) == None <==>
      EntryFine(entries[0]) && EntryFine(entries[1]) && EntryFine(entries[2])
    ensures AccountError(b.accounts, entries, 0) == None <==>
      AccountFine(b, entries[0]) && AccountFine(b, entries[1]) && AccountFine(b, entries[2])
  {
    assert EntryError(entries, 3) == None && AccountError(b.accounts, entries, 3) == None;
    EntryErrorStep(entries, 0);
    EntryErrorStep(entries, 1);
    EntryErrorStep(entries, 2);
    AccountErrorStep(b, entries, 0);
    AccountErrorStep(b, entries, 1);
    AccountErrorStep(b, entries, 2);
  }

  /** When a split between two accounts is accepted. */
  lemma SplitAccepted(b: Books, reason: Reason, reference: Reference, date: string, at: int, debit: AccountKey,
      first: AccountKey, second: AccountKey, x: int, y: int)
    requires !reason.UnknownReason? && debit.currency == first.currency == second.currency
    ensures Moved(b, reason, reference, date, at, Split(debit, first, second, x, y)).Ok? <==>
      && date != "" && b.dates.read(date).Some? && x > 0 && y > 0
      && Usable(b, debit) && Usable(b, first) && Usable(b, second)
  {
    var lines := Split(debit, first, second, x, y);
    var entries := EntriesOf(lines);
    assert entries[0] == EntryOf(lines[0]) && entries[1] == EntryOf(lines[1]) && entries[2] == EntryOf(lines[2]);
    EntryValue(lines[0]);
    EntryValue(lines[1]);
    EntryValue(lines[2]);
    SplitErrors(b, entries);
    SplitBalanced(debit, first, second, x, y);
  }

  lemma SwapSums(a: AccountKey, b: AccountKey, x: int, c: AccountKey, d: AccountKey, y: int, side: Side, code: string)
    requires a.currency == b.currency && c.currency == d.currency && !side.UnknownSide?
    ensures SideSum(EntriesOf(Swap(a, b, x, c, d, y)), 4, side, code)
      == (if code == a.currency then x else 0) + (if code == c.currency then y else 0)
  {
    var lines := Swap(a, b, x, c, d, y);
    var entries := EntriesOf(lines);
    assert entries[0] == EntryOf(lines[0]) && entries[1] == EntryOf(lines[1]);
    assert entries[2] == EntryOf(lines[2]) && entries[3] == EntryOf(lines[3]);
    EntryValue(lines[0]);
    EntryValue(lines[1]);
    EntryValue(lines[2]);
    EntryValue(lines[3]);
    var first, second := if code == a.currency then x else 0, if code == c.currency then y else 0;
    assert SideSum(entries, 0, side, code) == 0;
    assert SideSum(entries, 1, side, code) == if side == DR then first else 0;
    assert SideSum(entries, 2, side, code) == first;
    assert SideSum(entries, 3, side, code) == first + if side == DR then second else 0;
  }

  lemma SwapBalanced(a: AccountKey, b: AccountKey, x: int, c: AccountKey, d: AccountKey, y: int)
    requires a.currency == b.currency && c.currency == d.currency
    ensures var entries := EntriesOf(Swap(a, b, x, c, d, y)); forall i :: 0 <= i < 4 ==>
      BalancedIn(entries, entries[i].currency)
  {
    SwapSums(a, b, x, c, d, y, DR, a.currency);
    SwapSums(a, b, x, c, d, y, CR, a.currency);
    SwapSums(a, b, x, c, d, y, DR, c.currency);
    SwapSums(a, b, x, c, d, y, CR, c.currency);
  }

  lemma SwapErrors(b: Books, entries: seq<Entry>)
    requires |entries| == 4
    ensures EntryError(entries, 0) == None <==>
      EntryFine(entries[0]) && EntryFine(entries[1]) && EntryFine(entries[2]) && EntryFine(entries[3])
    ensures AccountError(b.accounts, entries, 0) == None <==>
      && AccountFine(b, entries[0]) && AccountFine(b, entries[1])
      && AccountFine(b, entries[2]) && AccountFine(b, entries[3])
  {
    assert EntryError(entries, 4) == None && AccountError(b.accounts, entries, 4) == None;
    EntryErrorStep(entries, 0);
    EntryErrorStep(entries, 1);
    EntryErrorStep(entries, 2);
    EntryErrorStep(entries, 3);
    AccountErrorStep(b, entries, 0);
    AccountErrorStep(b, entries, 1);
    AccountErrorStep(b, entries, 2);
    AccountErrorStep(b, entries, 3);
  }

  /** When two transfers in one journal, of one currency each, are accepted. */
  lemma SwapAccepted(books: Books, reason: Reason, reference: Reference, date: string, at: int, a: AccountKey,
      b: AccountKey, x: int, c: AccountKey, d: AccountKey, y: int)
    requires !reason.UnknownReason? && a.currency == b.currency && c.currency == d.currency
    ensures Moved(books, reason, reference, date, at, Swap(a, b, x, c, d, y)).Ok? <==>
      && date != "" && books.dates.read(date).Some? && x > 0 && y > 0
      && Usable(books, a) && Usable(books, b) && Usable(books, c) && Usable(books, d)
  {
    var lines := Swap(a, b, x, c, d, y);
    var entries := EntriesOf(lines);
    assert entries[0] == EntryOf(lines[0]) && entries[1] == EntryOf(lines[1]);
    assert entries[2] == EntryOf(lines[2]) && entries[3] == EntryOf(lines[3]);
    EntryValue(lines[0]);
    EntryValue(lines[1]);
    EntryValue(lines[2]);
    EntryValue(lines[3]);
    SwapErrors(books, entries);
    SwapBalanced(a, b, x, c, d, y);
  }

  /** The account can take a journal as it is, or could be opened for one. */
  predicate Available(b: Books, a: AccountKey) {
    !OwnerMissing(a) && (a in b.accounts ==> b.accounts[a] == AccountRow(a.currency, true))
  }

  /** Opening an account changes no other account and no journal. */
  lemma OpenedAccount(b: Books, key: AccountKey, after: Books, a: AccountKey)
    requires WithAccount(b, key) == Ok(after)
    ensures after.journals == b.journals && after.nextSeq == b.nextSeq && after.dates == b.dates
    ensures Available(after, a) <==> Available(b, a)
    ensures a == key ==> (Usable(after, a) <==> Available(b, a))
    ensures Usable(b, a) ==> Usable(after, a)
    ensures a != key ==> (Usable(after, a) <==> Usable(b, a))
  {
  }

  predicate EntryFine(e: Entry) {
    BigIntOf(e.amount).Some? && Value(e) > 0 && !e.side.UnknownSide?
  }

  predicate AccountFine(b: Books, e: Entry) {
    e.account in b.accounts && b.accounts[e.account] == AccountRow(e.currency, true)
  }

  lemma EntryErrorStep(entries: seq<Entry>, i: nat)
    requires i < |entries|
    ensures EntryError(entries, i) == None <==> EntryFine(entries[i]) && EntryError(entries, i + 1) == None
  {
  }

  lemma AccountErrorStep(b: Books, entries: seq<Entry>, i: nat)
    requires i < |entries|
    ensures AccountError(b.accounts, entries, i) == None <==>
      AccountFine(b, entries[i]) && AccountError(b.accounts, entries, i + 1) == None
  {
  }

  /** One for a journal with this reason and reference. */
  function Matching(reason: Reason, reference: Reference): Journal -> int {
    (j: Journal) => if j.reason == reason && j.reference == reference then 1 else 0
  }

  function JournalCount(b: Books, reason: Reason, reference: Reference): int {
    SumOf(b.journals, Matching(reason, reference))
  }

  lemma PostedCount(b: Books, input: JournalInput, reason: Reason, reference: Reference)
    requires Posted(b, input).Ok?
    ensures JournalCount(Posted(b, input).value, reason, reference)
      == JournalCount(b, reason, reference) + if input.reason == reason && input.reference == reference then 1 else 0
  {
    SumAppend(b.journals, Sealed(b, input), Matching(reason, reference));
  }

  lemma {:induction false} UntouchedNet(entries: seq<Entry>, i: nat, a: AccountKey)
    requires i <= |entries| && forall k :: 0 <= k < |entries| ==> entries[k].account != a
    ensures Net(StoredUpTo(entries, i), a) == 0
  {
    if i > 0 {
      UntouchedNet(entries, i - 1, a);
      assert StoredUpTo(entries, i)[..i - 1] == StoredUpTo(entries, i - 1);
    }
  }

  /** A journal leaves the balance of an account it does not name. */
  lemma UntouchedBalance(b: Books, input: JournalInput, a: AccountKey)
    requires Posted(b, input).Ok? && forall k :: 0 <= k < |input.entries| ==> input.entries[k].account != a
    ensures Balance(Posted(b, input).value, a) == Balance(b, a)
  {
    LedgerBalances.PostedBalance(b, input, a);
    UntouchedNet(input.entries, |input.entries|, a);
  }
}
