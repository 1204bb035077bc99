/** What one part of the rail does to the ledger, seen from the others: accounts opened and journals
    posted under its own reasons, on its own kinds of account, on its own dates. */
module Postings {
  import opened Text
  import opened Ledger
  import opened Transfers
  import L = LedgerBalances
  import C = LedgerChain

  /** The reasons, the kinds of account and the date texts of the journals that a part posts. */
  datatype Scope = Scope(reasons: set<Reason>, kinds: set<AccountType>, dates: set<string>)

  /** The journal is one the part may post, its amounts written as the table gives them back. */
  ghost predicate Within(op: L.Op, scope: Scope) {
    op.Post? ==>
      && op.input.reason in scope.reasons && op.input.operatingDate in scope.dates
      && C.CanonicalAmounts(op.input.entries)
      && forall i :: 0 <= i < |op.input.entries| ==> op.input.entries[i].account.kind in scope.kinds
  }

  ghost predicate AllWithin(ops: seq<L.Op>, scope: Scope) {
    forall i :: 0 <= i < |ops| ==> Within(ops[i], scope)
  }

  /** Operations of the part take the books from b to after. */
  ghost predicate Reaches(b: Books, after: Books, scope: Scope) {
    exists ops: seq<L.Op> :: AllWithin(ops, scope) && L.Run(b, ops) == after
  }

  lemma ReachesSame(b: Books, scope: Scope)
    ensures Reaches(b, b, scope)
  {
    assert AllWithin([], scope) && L.Run(b, []) == b;
  }

  lemma {:induction false} RunAppend(b: Books, ops: seq<L.Op>, more: seq<L.Op>)
    ensures L.Run(b, ops + more) == L.Run(L.Run(b, ops), more)
  {
    if more == [] {
      assert ops + more == ops;
    } else {
      var n := |more| - 1;
      RunAppend(b, ops, more[..n]);
      assert (ops + more)[..|ops + more| - 1] == ops + more[..n];
    }
  }

  lemma ReachesOn(b: Books, middle: Books, after: Books, scope: Scope)
    requires Reaches(b, middle, scope) && Reaches(middle, after, scope)
    ensures Reaches(b, after, scope)
  {
    var first :| AllWithin(first, scope) && L.Run(b, first) == middle;
    var second :| AllWithin(second, scope) && L.Run(middle, second) == after;
    RunAppend(b, first, second);
    assert AllWithin(first + second, scope);
  }

  lemma OneOperation(b: Books, op: L.Op, scope: Scope)
    requires Within(op, scope)
    ensures Reaches(b, L.Step(b, op), scope)
  {
    var ops := [op];
    assert ops[..0] == [] && L.Run(b, ops[..0]) == b;
    assert L.Run(b, ops) == L.Step(b, op) && AllWithin(ops, scope);
  }

  lemma ReachesOpen(b: Books, key: AccountKey, after: Books, scope: Scope)
    requires WithAccount(b, key) == Ok(after)
    ensures Reaches(b, after, scope)
  {
    OneOperation(b, L.Open(key), scope);
  }

  /** Whole positive amounts are written as their own numerals. */
  lemma LinesCanonical(lines: seq<Line>)
    requires forall k :: 0 <= k < |lines| ==> lines[k].amount > 0
    ensures C.CanonicalAmounts(EntriesOf(lines))
  {
    forall k | 0 <= k < |lines|
      ensures EntriesOf(lines)[k].amount == Print(StoredPosting(EntriesOf(lines)[k]).amount)
    {
      EntryValue(lines[k]);
      assert EntriesOf(lines)[k] == EntryOf(lines[k]);
    }
  }

  lemma ReachesMoved(b: Books, reason: Reason, reference: Reference, date: string, at: int, lines: seq<Line>,
      after: Books, scope: Scope)
    requires Moved(b, reason, reference, date, at, lines) == Ok(after)
    requires reason in scope.reasons && date in scope.dates
    requires forall k :: 0 <= k < |lines| ==> lines[k].account.kind in scope.kinds
    ensures Reaches(b, after, scope)
  {
    var input := JournalInput(reason, reference, date, EntriesOf(lines), at);
    MovedPositive(b, reason, reference, date, at, lines);
    LinesCanonical(lines);
    OneOperation(b, L.Post(input), scope);
  }

  // ----- what every part keeps

  lemma ReachesBalanced(b: Books, after: Books, scope: Scope)
    requires L.Sound(b) && Reaches(b, after, scope)
    ensures L.Sound(after)
  {
    var ops :| AllWithin(ops, scope) && L.Run(b, ops) == after;
    L.RunSound(b, ops);
  }

  lemma ReachesNumbered(b: Books, after: Books, scope: Scope)
    requires L.Numbered(b) && Reaches(b, after, scope)
    ensures L.Numbered(after) && b.journals <= after.journals
  {
    var ops :| AllWithin(ops, scope) && L.Run(b, ops) == after;
    L.RunNumbered(b, ops);
  }

  /** The database reads the text as a day that is given back as the same text, or not at all. */
  predicate Kept(dates: DateColumn, text: string) {
    dates.read(text).Some? ==> dates.show(dates.read(text).value) == text
  }

  ghost predicate AllKept(dates: DateColumn, texts: set<string>) {
    forall text :: text in texts ==> Kept(dates, text)
  }

  lemma {:induction false} RunKeepsColumns(b: Books, ops: seq<L.Op>)
    ensures L.Run(b, ops).sha256 == b.sha256 && L.Run(b, ops).dates == b.dates
  {
    if ops != [] {
      RunKeepsColumns(b, ops[..|ops| - 1]);
      C.StepKeepsColumns(L.Run(b, ops[..|ops| - 1]), ops[|ops| - 1]);
    }
  }

  lemma {:induction false} WithinFaithful(b: Books, ops: seq<L.Op>, scope: Scope)
    requires AllWithin(ops, scope) && AllKept(b.dates, scope.dates)
    ensures C.RunFaithful(b, ops)
  {
    if ops != [] {
      var front, op := ops[..|ops| - 1], ops[|ops| - 1];
      WithinFaithful(b, front, scope);
      RunKeepsColumns(b, front);
      assert Within(op, scope);
    }
  }

  /** The part's journals keep every day of the hash chain verified when its dates are given back as they
      were written. */
  lemma ReachesVerifies(b: Books, after: Books, scope: Scope)
    requires Reaches(b, after, scope) && AllKept(b.dates, scope.dates)
    requires C.AllDaysVerify(b) && C.DigestLength(b.sha256)
    ensures C.AllDaysVerify(after) && after.sha256 == b.sha256 && after.dates == b.dates
  {
    var ops :| AllWithin(ops, scope) && L.Run(b, ops) == after;
    WithinFaithful(b, ops, scope);
    RunKeepsColumns(b, ops);
    C.RunVerifies(b, ops);
  }
}
