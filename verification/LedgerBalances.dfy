/** Conservation: whatever journals are posted, accepted or rejected, the balances of all accounts in
    a currency sum to zero, and every posting matches its account. */
module LedgerBalances {
  import opened Text
  import opened Ledger

  // ----- what an accepted journal guarantees

  function CurrencyNet(ps: seq<Posting>, currency: string): int {
    if ps == [] then 0
    else
      var last := ps[|ps| - 1];
      CurrencyNet(ps[..|ps| - 1], currency) + if last.currency == currency then Effect(last) else 0
  }

  ghost predicate GoodPosting(accounts: map<AccountKey, AccountRow>, p: Posting) {
    p.amount > 0 && !p.side.UnknownSide? && p.account in accounts && accounts[p.account].currency == p.currency
  }

  ghost predicate GoodPostings(accounts: map<AccountKey, AccountRow>, ps: seq<Posting>) {
    && (forall i :: 0 <= i < |ps| ==> GoodPosting(accounts, ps[i]))
    && (forall c: string :: CurrencyNet(ps, c) == 0)
  }

  /** Every journal balances in every currency, and every posting is positive and in its account's
      currency. */
  ghost predicate Sound(b: Books) {
    forall i :: 0 <= i < |b.journals| ==> GoodPostings(b.accounts, b.journals[i].postings)
  }

  lemma {:induction false} EntryErrorNone(entries: seq<Entry>, i: nat)
    requires i <= |entries| && EntryError(entries, i) == None
    ensures forall k :: i <= k < |entries| ==> Value(entries[k]) > 0 && !entries[k].side.UnknownSide?
    decreases |entries| - i
  {
    if i < |entries| {
      EntryErrorNone(entries, i + 1);
    }
  }

  lemma {:induction false} AccountErrorNone(accounts: map<AccountKey, AccountRow>, entries: seq<Entry>, i: nat)
    requires i <= |entries| && AccountError(accounts, entries, i) == None
    ensures forall k :: i <= k < |entries| ==>
      entries[k].account in accounts && accounts[entries[k].account] == AccountRow(entries[k].currency, true)
    decreases |entries| - i
  {
    if i < |entries| {
      AccountErrorNone(accounts, entries, i + 1);
    }
  }

  lemma {:induction false} StoredAt(entries: seq<Entry>, i: nat, k: nat)
    requires k < i <= |entries|
    ensures StoredUpTo(entries, i)[k] == StoredPosting(entries[k])
  {
    var before, last := StoredUpTo(entries, i - 1), StoredPosting(entries[i - 1]);
    assert StoredUpTo(entries, i) == before + [last];
    if k < i - 1 {
      StoredAt(entries, i - 1, k);
      LastAdded(before, last, k);
    }
  }

  lemma LastAdded(before: seq<Posting>, last: Posting, k: nat)
    requires k < |before|
    ensures (before + [last])[k] == before[k]
  {
  }

  lemma {:induction false} StoredNet(entries: seq<Entry>, i: nat, c: string)
    requires i <= |entries| && forall k :: 0 <= k < |entries| ==> Value(entries[k]) > 0 && !entries[k].side.UnknownSide?
    ensures CurrencyNet(StoredUpTo(entries, i), c) == SideSum(entries, i, CR, c) - SideSum(entries, i, DR, c)
  {
    if i > 0 {
      StoredNet(entries, i - 1, c);
      var ps := StoredUpTo(entries, i);
      assert ps[..i - 1] == StoredUpTo(entries, i - 1);
    }
  }

  lemma {:induction false} AbsentCurrency(entries: seq<Entry>, i: nat, c: string)
    requires i <= |entries| && forall k :: 0 <= k < |entries| ==> entries[k].currency != c
    ensures SideSum(entries, i, CR, c) == 0 == SideSum(entries, i, DR, c)
  {
    if i > 0 {
      AbsentCurrency(entries, i - 1, c);
    }
  }

  /** A journal that passes the checks is stored with balanced, positive postings that match their
      accounts. */
  lemma AcceptedIsGood(accounts: map<AccountKey, AccountRow>, j: JournalInput)
    requires InputError(accounts, j) == None
    ensures GoodPostings(accounts, StoredUpTo(j.entries, |j.entries|))
  {
    var entries := j.entries;
    var ps := StoredUpTo(entries, |entries|);
    EntryErrorNone(entries, 0);
    AccountErrorNone(accounts, entries, 0);
    forall k | 0 <= k < |ps|
      ensures GoodPosting(accounts, ps[k])
    {
      StoredAt(entries, |entries|, k);
    }
    forall c: string
      ensures CurrencyNet(ps, c) == 0
    {
      StoredNet(entries, |entries|, c);
      if i :| 0 <= i < |entries| && entries[i].currency == c {
        assert BalancedIn(entries, entries[i].currency);
      } else {
        AbsentCurrency(entries, |entries|, c);
      }
    }
  }

  // ----- runs

  datatype Op = Open(key: AccountKey) | Post(input: JournalInput)

  /** A rejected operation changes nothing. */
  function Step(b: Books, op: Op): Books {
    match op
    case Open(key) => (match WithAccount(b, key) case Ok(b') => b' case Err(_) => b)
    case Post(input) => (match Posted(b, input) case Ok(b') => b' case Err(_) => b)
  }

  function Run(b: Books, ops: seq<Op>): Books {
    if ops == [] then b else Step(Run(b, ops[..|ops| - 1]), ops[|ops| - 1])
  }

  lemma GoodStaysGood(accounts: map<AccountKey, AccountRow>, more: map<AccountKey, AccountRow>, ps: seq<Posting>)
    requires GoodPostings(accounts, ps) && forall a :: a in accounts ==> a in more && more[a] == accounts[a]
    ensures GoodPostings(more, ps)
  {
    forall i | 0 <= i < |ps|
      ensures GoodPosting(more, ps[i])
    {
      assert GoodPosting(accounts, ps[i]);
    }
  }

  lemma StepSound(b: Books, op: Op)
    requires Sound(b)
    ensures Sound(Step(b, op))
  {
    var b' := Step(b, op);
    match op {
      case Open(key) =>
        forall i | 0 <= i < |b'.journals|
          ensures GoodPostings(b'.accounts, b'.journals[i].postings)
        {
          GoodStaysGood(b.accounts, b'.accounts, b.journals[i].postings);
        }
      case Post(input) =>
        if Posted(b, input).Ok? {
          AcceptedIsGood(b.accounts, input);
        }
    }
  }

  /** Every state that a run of operations reaches from sound books is sound. */
  lemma {:induction false} RunSound(b: Books, ops: seq<Op>)
    requires Sound(b)
    ensures Sound(Run(b, ops))
  {
    if ops != [] {
      RunSound(b, ops[..|ops| - 1]);
      StepSound(Run(b, ops[..|ops| - 1]), ops[|ops| - 1]);
    }
  }

  // ----- journal numbers

  /** Journals are numbered in the order they were posted, no number twice, all below the next one. */
  ghost predicate Numbered(b: Books) {
    && (forall i, j :: 0 <= i < j < |b.journals| ==> b.journals[i].seqNo < b.journals[j].seqNo)
    && (forall i :: 0 <= i < |b.journals| ==> b.journals[i].seqNo < b.nextSeq)
  }

  /** At most one journal more, under the next number. */
  predicate PostsOne(b: Books, after: Books) {
    || (after.journals == b.journals && after.nextSeq == b.nextSeq)
    || (|after.journals| == |b.journals| + 1 && after.journals[..|b.journals|] == b.journals
        && after.journals[|b.journals|].seqNo == b.nextSeq < after.nextSeq)
  }

  lemma StepPostsOne(b: Books, op: Op)
    ensures PostsOne(b, Step(b, op))
  {
  }

  lemma PostsOneNumbered(b: Books, after: Books)
    requires Numbered(b) && PostsOne(b, after)
    ensures Numbered(after) && b.journals <= after.journals && b.nextSeq <= after.nextSeq
  {
    if |after.journals| > |b.journals| {
      assert forall i :: 0 <= i < |b.journals| ==> after.journals[i] == after.journals[..|b.journals|][i];
    }
  }

  /** Over any run numbers strictly increase, and a journal once posted stays where it is. */
  lemma {:induction false} RunNumbered(b: Books, ops: seq<Op>)
    requires Numbered(b)
    ensures Numbered(Run(b, ops)) && b.journals <= Run(b, ops).journals && b.nextSeq <= Run(b, ops).nextSeq
  {
    if ops != [] {
      RunNumbered(b, ops[..|ops| - 1]);
      StepPostsOne(Run(b, ops[..|ops| - 1]), ops[|ops| - 1]);
      PostsOneNumbered(Run(b, ops[..|ops| - 1]), Run(b, ops));
    }
  }

  // ----- the balances sum to zero

  /** The balances of a list of accounts, added up. */
  function BalanceSum(journals: seq<Journal>, keys: seq<AccountKey>): int {
    if keys == [] then 0 else BalanceSum(journals, keys[..|keys| - 1]) + BalanceAsOf(journals, keys[|keys| - 1], None)
  }

  ghost predicate Distinct(keys: seq<AccountKey>) {
    forall i, j :: 0 <= i < j < |keys| ==> keys[i] != keys[j]
  }

  /** The effects of these postings on a list of accounts, added up. */
  function NetSum(ps: seq<Posting>, keys: seq<AccountKey>): int {
    if keys == [] then 0 else NetSum(ps, keys[..|keys| - 1]) + Net(ps, keys[|keys| - 1])
  }

  lemma {:induction false} BalanceSumStep(journals: seq<Journal>, keys: seq<AccountKey>)
    requires journals != []
    ensures BalanceSum(journals, keys)
      == BalanceSum(journals[..|journals| - 1], keys) + NetSum(journals[|journals| - 1].postings, keys)
  {
    if keys != [] {
      BalanceSumStep(journals, keys[..|keys| - 1]);
    }
  }

  lemma {:induction false} BalanceSumEmpty(keys: seq<AccountKey>)
    ensures BalanceSum([], keys) == 0
  {
    if keys != [] {
      BalanceSumEmpty(keys[..|keys| - 1]);
    }
  }

  lemma {:induction false} NetSumEmpty(keys: seq<AccountKey>)
    ensures NetSum([], keys) == 0
  {
    if keys != [] {
      NetSumEmpty(keys[..|keys| - 1]);
    }
  }

  /** A posting counts once in a list of distinct accounts that has its account, and not otherwise. */
  lemma {:induction false} NetSumStep(ps: seq<Posting>, keys: seq<AccountKey>)
    requires ps != [] && Distinct(keys)
    ensures var last := ps[|ps| - 1];
      NetSum(ps, keys) == NetSum(ps[..|ps| - 1], keys) + if last.account in keys then Effect(last) else 0
  {
    if keys != [] {
      var front := keys[..|keys| - 1];
      assert Distinct(front) && keys == front + [keys[|keys| - 1]];
      NetSumStep(ps, front);
      assert keys[|keys| - 1] !in front;
    }
  }

  lemma {:induction false} NetSumIsCurrencyNet(ps: seq<Posting>, keys: seq<AccountKey>, c: string)
    requires Distinct(keys) && forall i :: 0 <= i < |ps| ==> (ps[i].account in keys <==> ps[i].currency == c)
    ensures NetSum(ps, keys) == CurrencyNet(ps, c)
  {
    if ps == [] {
      NetSumEmpty(keys);
    } else {
      NetSumStep(ps, keys);
      NetSumIsCurrencyNet(ps[..|ps| - 1], keys, c);
    }
  }

  ghost predicate ListsCurrency(accounts: map<AccountKey, AccountRow>, keys: seq<AccountKey>, c: string) {
    Distinct(keys) && forall a :: a in keys <==> a in accounts && accounts[a].currency == c
  }

  lemma {:induction false} SumsToZero(accounts: map<AccountKey, AccountRow>, journals: seq<Journal>,
      keys: seq<AccountKey>, c: string)
    requires ListsCurrency(accounts, keys, c)
    requires forall i :: 0 <= i < |journals| ==> GoodPostings(accounts, journals[i].postings)
    ensures BalanceSum(journals, keys) == 0
  {
    if journals == [] {
      BalanceSumEmpty(keys);
    } else {
      SumsToZero(accounts, journals[..|journals| - 1], keys, c);
      BalanceSumStep(journals, keys);
      var ps := journals[|journals| - 1].postings;
      assert GoodPostings(accounts, ps);
      forall i | 0 <= i < |ps|
        ensures ps[i].account in keys <==> ps[i].currency == c
      {
        assert GoodPosting(accounts, ps[i]);
      }
      NetSumIsCurrencyNet(ps, keys, c);
    }
  }

  /** After any run from empty books, the balances of all the accounts of a currency sum to zero. */
  lemma Conservation(b: Books, ops: seq<Op>, keys: seq<AccountKey>, c: string)
    requires b.journals == [] && ListsCurrency(Run(b, ops).accounts, keys, c)
    ensures BalanceSum(Run(b, ops).journals, keys) == 0
  {
    RunSound(b, ops);
    SumsToZero(Run(b, ops).accounts, Run(b, ops).journals, keys, c);
  }

  /** An accepted journal moves each account by the sum of its own entries, and no other account. */
  lemma PostedBalance(b: Books, input: JournalInput, a: AccountKey)
    requires Posted(b, input).Ok?
    ensures Balance(Posted(b, input).value, a) == Balance(b, a) + Net(StoredUpTo(input.entries, |input.entries|), a)
  {
    var b' := Posted(b, input).value;
    assert b'.journals[..|b'.journals| - 1] == b.journals;
  }
}
