/** What the ledger does with a journal, from the outside: exactly which journals it takes, what it writes for
    one, and what a balance and a day are made of. */
module LedgerOutcomes {
  import opened Text
  import opened Ledger
  import J = CanonicalJson
  import L = LedgerBalances

  // ----- which journals are taken

  /** What an entry may be: a whole amount above zero on one side, in the currency of an open account. */
  predicate EntryTaken(accounts: map<AccountKey, AccountRow>, e: Entry) {
    && BigIntOf(e.amount).Some? && BigIntOf(e.amount).value > 0 && (e.side == DR || e.side == CR)
    && e.account in accounts && accounts[e.account].active && accounts[e.account].currency == e.currency
  }

  /** Credits less debits in a currency. */
  function Surplus(entries: seq<Entry>, i: nat, currency: string): int
    requires i <= |entries|
  {
    if i == 0 then 0
    else
      var e := entries[i - 1];
      Surplus(entries, i - 1, currency)
      + if e.currency != currency then 0 else if e.side == CR then Value(e) else if e.side == DR then -Value(e) else 0
  }

  lemma {:induction false} SurplusIs(entries: seq<Entry>, i: nat, currency: string)
    requires i <= |entries|
    ensures Surplus(entries, i, currency) == SideSum(entries, i, CR, currency) - SideSum(entries, i, DR, currency)
  {
    if i > 0 {
      SurplusIs(entries, i - 1, currency);
    }
  }

  predicate TakenFrom(accounts: map<AccountKey, AccountRow>, entries: seq<Entry>, i: nat) {
    forall k :: i <= k < |entries| ==> EntryTaken(accounts, entries[k])
  }

  lemma TakenStep(accounts: map<AccountKey, AccountRow>, entries: seq<Entry>, i: nat)
    requires i < |entries|
    ensures TakenFrom(accounts, entries, i) <==> EntryTaken(accounts, entries[i]) && TakenFrom(accounts, entries, i + 1)
  {
  }

  lemma {:induction false} EntriesTaken(accounts: map<AccountKey, AccountRow>, entries: seq<Entry>, i: nat)
    requires i <= |entries|
    ensures EntryError(entries, i) == None && AccountError(accounts, entries, i) == None <==>
      TakenFrom(accounts, entries, i)
    decreases |entries| - i
  {
    if i < |entries| {
      EntriesTaken(accounts, entries, i + 1);
      OneTaken(accounts, entries, i);
      TakenStep(accounts, entries, i);
    }
  }

  lemma OneTaken(accounts: map<AccountKey, AccountRow>, entries: seq<Entry>, i: nat)
    requires i < |entries|
    ensures EntryError(entries, i) == None && AccountError(accounts, entries, i) == None <==>
      EntryTaken(accounts, entries[i])
      && EntryError(entries, i + 1) == None && AccountError(accounts, entries, i + 1) == None
  {
  }

  /** Every currency balances. */
  ghost predicate AllBalanced(entries: seq<Entry>) {
    forall c: string :: Surplus(entries, |entries|, c) == 0
  }

  lemma BalancedExactly(entries: seq<Entry>)
    ensures (forall i :: 0 <= i < |entries| ==> BalancedIn(entries, entries[i].currency)) <==> AllBalanced(entries)
  {
    forall c: string
      ensures Surplus(entries, |entries|, c) == 0 <==> BalancedIn(entries, c)
    {
      SurplusIs(entries, |entries|, c);
    }
    if forall i :: 0 <= i < |entries| ==> BalancedIn(entries, entries[i].currency) {
      forall c: string
        ensures BalancedIn(entries, c)
      {
        if i :| 0 <= i < |entries| && entries[i].currency == c {
          assert BalancedIn(entries, entries[i].currency);
        } else {
          AbsentSums(entries, |entries|, DR, c);
          AbsentSums(entries, |entries|, CR, c);
        }
      }
    }
  }

  /** A journal is taken exactly when its reason is known, its date is given and read by the database, it has two
      entries or more, each of them may stand, and every currency balances. */
  lemma PostedExactly(b: Books, j: JournalInput)
    ensures Posted(b, j).Ok? <==>
      && !j.reason.UnknownReason? && j.operatingDate != "" && b.dates.read(j.operatingDate).Some?
      && |j.entries| >= 2
      && TakenFrom(b.accounts, j.entries, 0)
      && AllBalanced(j.entries)
  {
    EntriesTaken(b.accounts, j.entries, 0);
    BalancedExactly(j.entries);
  }

  // ----- what is written

  /** The last hash of the day, or sixty-four zeros. */
  function HashBefore(journals: seq<Journal>, i: nat, day: int): string
    requires i <= |journals|
  {
    if i == 0 then "0000000000000000000000000000000000000000000000000000000000000000"
    else if journals[i - 1].operatingDate == day then
      (if journals[i - 1].hash == "" then "0000000000000000000000000000000000000000000000000000000000000000"
       else journals[i - 1].hash)
    else HashBefore(journals, i - 1, day)
  }

  lemma {:induction false} HashBeforeIs(journals: seq<Journal>, i: nat, day: int)
    requires i <= |journals|
    ensures HashBefore(journals, i, day) == PrevHash(journals[..i], day)
  {
    if i > 0 {
      assert journals[..i][..i - 1] == journals[..i - 1];
      HashBeforeIs(journals, i - 1, day);
    }
  }

  /** A journal that is taken adds one row and nothing else: the next number, the day read from the date, the
      entries in order with their amounts as numbers, the hash before it and the hash over both. */
  lemma JournalWritten(b: Books, j: JournalInput)
    requires Posted(b, j).Ok?
    ensures var after := Posted(b, j).value;
      && after.accounts == b.accounts && |after.journals| == |b.journals| + 1 && b.journals <= after.journals
      && b.nextSeq < after.nextSeq
      && var row := after.journals[|b.journals|];
         && row.seqNo == b.nextSeq && row.postedAt == j.postedAt && row.reason == j.reason
         && row.reference == j.reference && b.dates.read(j.operatingDate) == Some(row.operatingDate)
         && row.prevHash == HashBefore(b.journals, |b.journals|, row.operatingDate)
         && row.hash == b.sha256(row.prevHash + b.sha256(J.CanonicalText(
              PayloadJson(row.seqNo, row.reason, j.operatingDate, row.reference, GivenTexts(j.entries)))))
         && |row.postings| == |j.entries|
         && forall k :: 0 <= k < |j.entries| ==>
              && row.postings[k].account == j.entries[k].account && row.postings[k].side == j.entries[k].side
              && row.postings[k].currency == j.entries[k].currency
              && Some(row.postings[k].amount as int) == BigIntOf(j.entries[k].amount)
  {
    PostedExactly(b, j);
    HashBeforeIs(b.journals, |b.journals|, DayFor(b, j));
    assert b.journals[..|b.journals|] == b.journals;
    forall k | 0 <= k < |j.entries|
      ensures StoredUpTo(j.entries, |j.entries|)[k] == StoredPosting(j.entries[k])
      ensures EntryTaken(b.accounts, j.entries[k])
    {
      L.StoredAt(j.entries, |j.entries|, k);
    }
  }

  /** An account that is asked for is there afterwards, active in its currency if it is new; only a missing owner
      is refused. */
  lemma AccountExactly(b: Books, key: AccountKey)
    ensures var r := WithAccount(b, key);
      && (r.Err? <==> key.owner == "" && (key.kind == ParticipantSettlement || key.kind == RailForeignRailNostro))
      && (r.Ok? ==>
        && r.value == b.(accounts := r.value.accounts) && r.value.accounts.Keys == b.accounts.Keys + {key}
        && (forall a :: a in b.accounts ==> r.value.accounts[a] == b.accounts[a])
        && (key !in b.accounts ==> r.value.accounts[key] == AccountRow(key.currency, true)))
  {
  }

  // ----- balances and days

  /** The journals posted at a time or before it. */
  function PostedBy(journals: seq<Journal>, time: int): seq<Journal> {
    if journals == [] then []
    else
      var front, last := journals[..|journals| - 1], journals[|journals| - 1];
      if last.postedAt <= time then PostedBy(front, time) + [last] else PostedBy(front, time)
  }

  lemma NetOfAll(journals: seq<Journal>, last: Journal, a: AccountKey)
    ensures BalanceAsOf(journals + [last], a, None) == BalanceAsOf(journals, a, None) + Net(last.postings, a)
  {
    assert (journals + [last])[..|journals|] == journals;
  }

  /** A balance as of a time is the balance of the journals posted by then. */
  lemma {:induction false} BalanceAtTime(journals: seq<Journal>, a: AccountKey, time: int)
    ensures BalanceAsOf(journals, a, Some(time)) == BalanceAsOf(PostedBy(journals, time), a, None)
  {
    if journals != [] {
      var front, last := journals[..|journals| - 1], journals[|journals| - 1];
      BalanceAtTime(front, a, time);
      NetOfAll(PostedBy(front, time), last, a);
    }
  }

  /** A day is made of the journals of that day. */
  lemma {:induction false} DayExactly(journals: seq<Journal>, day: int, j: Journal)
    ensures j in DayOf(journals, day) <==> j in journals && j.operatingDate == day
  {
    if journals != [] {
      var front, last := journals[..|journals| - 1], journals[|journals| - 1];
      DayExactly(front, day, j);
      assert journals == front + [last];
    }
  }

  /** In their order: with increasing numbers, a day's numbers increase. */
  lemma {:induction false} DayInOrder(journals: seq<Journal>, day: int)
    requires forall i, j :: 0 <= i < j < |journals| ==> journals[i].seqNo < journals[j].seqNo
    ensures forall i, j :: 0 <= i < j < |DayOf(journals, day)| ==>
      DayOf(journals, day)[i].seqNo < DayOf(journals, day)[j].seqNo
  {
    if journals != [] {
      var front, last := journals[..|journals| - 1], journals[|journals| - 1];
      DayInOrder(front, day);
      var before := DayOf(front, day);
      forall i | 0 <= i < |before|
        ensures before[i].seqNo < last.seqNo
      {
        DayExactly(front, day, before[i]);
      }
    }
  }
}
