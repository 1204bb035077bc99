/** What holds of escrow after any run: the escrow account of every currency holds exactly the held
    amounts, each hold is paid out at most once, and a release means that its condition was met. */
module EscrowCustody {
  import opened Text
  import opened Ledger
  import opened Transfers
  import opened Escrow
  import opened Sums

  // ----- the invariants

  /** What a row has in the escrow account of a currency. */
  function HeldIn(currency: string): Hold -> int {
    (e: Hold) => if e.state == Held && e.currency == currency then e.amount else 0
  }

  function EscrowBalance(b: Books, currency: string): int {
    Balance(b, EscrowOf(currency))
  }

  ghost predicate EscrowMatches(s: Store) {
    forall currency: string :: EscrowBalance(s.books, currency) == SumOf(s.holds, HeldIn(currency))
  }

  function OneIf(b: bool): int {
    if b then 1 else 0
  }

  predicate PaidOut(e: Hold) {
    e.state == Released || e.state == Refunded
  }

  /** Every row has one hold journal, and one release journal exactly when it was paid out. */
  ghost predicate JournalsMatch(s: Store) {
    forall id: nat ::
      && JournalCount(s.books, EscrowHold, HoldReference(id)) == OneIf(id < |s.holds|)
      && JournalCount(s.books, EscrowRelease, HoldReference(id)) == OneIf(id < |s.holds| && PaidOut(s.holds[id]))
  }

  /** The condition of a released row was met, as far as the row can tell. */
  predicate ConditionMet(e: Hold) {
    match e.condition
    case BothSignatures => e.payerSigned && e.payeeSigned
    case TimeElapsed => e.releaseAt.Some? && e.releasedAt.Some? && e.releaseAt.value <= e.releasedAt.value
    case PayerRelease => true
    case ArbiterRelease => e.arbiter.Some?
    case OtherCondition(_) => false
  }

  /** No committed row is initiated or cancelled. */
  predicate HoldShape(e: Hold) {
    && (e.state == Held || PaidOut(e))
    && e.amount > 0
    && (e.condition.ArbiterRelease? ==> e.arbiter.Some?)
    && (e.state == Held && e.condition.BothSignatures? ==> !(e.payerSigned && e.payeeSigned))
    && (e.state == Released ==> ConditionMet(e))
  }

  ghost predicate ShapesHold(s: Store) {
    forall id: nat :: id < |s.holds| ==> HoldShape(s.holds[id])
  }

  ghost predicate Sound(s: Store) {
    EscrowMatches(s) && JournalsMatch(s) && ShapesHold(s)
  }

  // ----- journals

  lemma HoldReferenceInjective(id: nat, other: nat)
    requires HoldReference(id) == HoldReference(other)
    ensures id == other
  {
    PrintInjective(id, other);
  }

  lemma JournalledEffect(b: Books, reason: Reason, id: nat, e: Hold, from: AccountKey, to: AccountKey, clock: Clock,
      b': Books)
    requires Journalled(b, reason, id, e, from, to, clock) == Ok(b')
    ensures e.amount > 0
    ensures forall a: AccountKey ::
      Balance(b', a) == Balance(b, a) + (if a == to then e.amount else 0) - (if a == from then e.amount else 0)
    ensures forall r: Reason, k: nat ::
      JournalCount(b', r, HoldReference(k)) == JournalCount(b, r, HoldReference(k)) + OneIf(r == reason && k == id)
  {
    var lines := Pair(from, to, e.amount);
    MovedPositive(b, reason, HoldReference(id), clock.today, clock.now, lines);
    assert lines[0].amount == e.amount;
    forall a: AccountKey
      ensures Balance(b', a) == Balance(b, a) + (if a == to then e.amount else 0) - (if a == from then e.amount else 0)
    {
      MovedBalance(b, reason, HoldReference(id), clock.today, clock.now, lines, a);
      PairNet(from, to, e.amount, a);
    }
    forall r: Reason, k: nat
      ensures JournalCount(b', r, HoldReference(k))
        == JournalCount(b, r, HoldReference(k)) + OneIf(r == reason && k == id)
    {
      PostedCount(b, JournalInput(reason, HoldReference(id), clock.today, EntriesOf(lines), clock.now), r,
        HoldReference(k));
      if HoldReference(k) == HoldReference(id) {
        HoldReferenceInjective(k, id);
      }
    }
  }

  // ----- one row changes

  lemma EscrowFollows(s: Store, after: Store, id: nat, e: Hold)
    requires EscrowMatches(s) && id < |s.holds| && after.holds == s.holds[id := e]
    requires forall currency: string ::
      EscrowBalance(after.books, currency)
        == EscrowBalance(s.books, currency) - HeldIn(currency)(s.holds[id]) + HeldIn(currency)(e)
    ensures EscrowMatches(after)
  {
    forall currency: string
      ensures EscrowBalance(after.books, currency) == SumOf(after.holds, HeldIn(currency))
    {
      SumUpdate(s.holds, id, e, HeldIn(currency));
      assert EscrowBalance(s.books, currency) == SumOf(s.holds, HeldIn(currency));
    }
  }

  lemma JournalsFollow(s: Store, after: Store, id: nat, e: Hold)
    requires JournalsMatch(s) && id < |s.holds| && after.holds == s.holds[id := e]
    requires forall k: nat ::
      JournalCount(after.books, EscrowHold, HoldReference(k)) == JournalCount(s.books, EscrowHold, HoldReference(k))
    requires forall k: nat ::
      JournalCount(after.books, EscrowRelease, HoldReference(k))
      == JournalCount(s.books, EscrowRelease, HoldReference(k))
        + if k == id then OneIf(PaidOut(e)) - OneIf(PaidOut(s.holds[id])) else 0
    ensures JournalsMatch(after)
  {
    forall k: nat
      ensures JournalCount(after.books, EscrowHold, HoldReference(k)) == OneIf(k < |after.holds|)
      ensures JournalCount(after.books, EscrowRelease, HoldReference(k))
        == OneIf(k < |after.holds| && PaidOut(after.holds[k]))
    {
      assert JournalCount(s.books, EscrowHold, HoldReference(k)) == OneIf(k < |s.holds|);
    }
  }

  /** Paying a held row's amount out of the escrow account, to anyone. */
  lemma PayOutKeeps(s: Store, id: nat, to: AccountKey, clock: Clock, books: Books, e: Hold)
    requires EscrowMatches(s) && JournalsMatch(s) && id < |s.holds| && s.holds[id].state == Held && PaidOut(e)
    requires !to.kind.RailEscrow?
    requires Journalled(s.books, EscrowRelease, id, s.holds[id], EscrowOf(s.holds[id].currency), to, clock) == Ok(books)
    ensures EscrowMatches(Store(s.holds[id := e], books)) && JournalsMatch(Store(s.holds[id := e], books))
  {
    var after := Store(s.holds[id := e], books);
    JournalledEffect(s.books, EscrowRelease, id, s.holds[id], EscrowOf(s.holds[id].currency), to, clock, books);
    EscrowFollows(s, after, id, e);
    JournalsFollow(s, after, id, e);
  }

  /** What one operation's row becomes when released. */
  function ReleasedRow(e: Hold, clock: Clock): Hold {
    e.(state := Released, releasedAt := Some(clock.now))
  }

  lemma ReleaseKeeps(s: Store, id: nat, clock: Clock, after: Store)
    requires EscrowMatches(s) && JournalsMatch(s) && id < |s.holds|
    requires ReleaseResult(s, id, s.holds[id], clock) == Ok(after)
    ensures s.holds[id].state == Held && after.holds == s.holds[id := ReleasedRow(s.holds[id], clock)]
    ensures EscrowMatches(after) && JournalsMatch(after)
  {
    var e := s.holds[id];
    PayOutKeeps(s, id, SettlementOf(e.payee, e.currency), clock, after.books, ReleasedRow(e, clock));
  }

  // ----- every operation keeps the invariants

  /** Releasing a sound store's own row keeps it sound if the row's condition is then met. */
  lemma ReleaseSound(s: Store, id: nat, clock: Clock)
    requires Sound(s) && id < |s.holds| && ConditionMet(ReleasedRow(s.holds[id], clock))
    ensures ReleaseResult(s, id, s.holds[id], clock).Ok? ==> Sound(ReleaseResult(s, id, s.holds[id], clock).value)
  {
    if ReleaseResult(s, id, s.holds[id], clock).Ok? {
      var after := ReleaseResult(s, id, s.holds[id], clock).value;
      ReleaseKeeps(s, id, clock, after);
      assert HoldShape(s.holds[id]);
    }
  }

  lemma RefundSound(s: Store, id: nat, clock: Clock)
    requires Sound(s) && id < |s.holds|
    ensures RefundResult(s, id, clock).Ok? ==> Sound(RefundResult(s, id, clock).value)
  {
    if RefundResult(s, id, clock).Ok? {
      var e := s.holds[id];
      assert HoldShape(e);
      PayOutKeeps(s, id, SettlementOf(e.payer, e.currency), clock, RefundResult(s, id, clock).value.books,
        e.(state := Refunded));
    }
  }

  lemma OpenedSame(b: Books, key: AccountKey)
    requires Opened(b, key).Ok?
    ensures Opened(b, key).value.journals == b.journals
  {
  }

  /** What creating an escrow is made of: accounts opened, then the hold journal on books b1. */
  lemma CreateParts(s: Store, t: Terms, clock: Clock, after: Store) returns (b1: Books)
    requires CreateResult(s, t, clock) == Ok(after)
    ensures b1.journals == s.books.journals && after.holds == s.holds + [NewHold(t).(state := Held)]
    ensures Journalled(b1, EscrowHold, |s.holds|, NewHold(t), SettlementOf(t.payer, t.currency),
              EscrowOf(t.currency), clock) == Ok(after.books)
  {
    b1 := AccountsOpened(s.books, t.payer, t.payee, t.currency).value;
    AccountsOpenedSame(s.books, t.payer, t.payee, t.currency);
  }

  lemma AccountsOpenedSame(b: Books, payer: string, payee: string, currency: string)
    requires AccountsOpened(b, payer, payee, currency).Ok?
    ensures AccountsOpened(b, payer, payee, currency).value.journals == b.journals
  {
  }

  lemma CreateEffect(s: Store, t: Terms, clock: Clock, after: Store)
    requires CreateResult(s, t, clock) == Ok(after)
    ensures after.holds == s.holds + [NewHold(t).(state := Held)] && t.amount > 0
    ensures forall currency: string ::
      EscrowBalance(after.books, currency) == EscrowBalance(s.books, currency)
        + if currency == t.currency then t.amount else 0
    ensures forall r: Reason, k: nat ::
      JournalCount(after.books, r, HoldReference(k))
        == JournalCount(s.books, r, HoldReference(k)) + OneIf(r == EscrowHold && k == |s.holds|)
  {
    var b1 := CreateParts(s, t, clock, after);
    var from, to := SettlementOf(t.payer, t.currency), EscrowOf(t.currency);
    JournalledEffect(b1, EscrowHold, |s.holds|, NewHold(t), from, to, clock, after.books);
  }

  lemma CreateSound(s: Store, t: Terms, clock: Clock)
    requires Sound(s)
    ensures CreateResult(s, t, clock).Ok? ==> Sound(CreateResult(s, t, clock).value)
  {
    if CreateResult(s, t, clock).Ok? {
      var after := CreateResult(s, t, clock).value;
      var e := NewHold(t).(state := Held);
      CreateEffect(s, t, clock, after);
      forall currency: string
        ensures EscrowBalance(after.books, currency) == SumOf(after.holds, HeldIn(currency))
      {
        SumAppend(s.holds, e, HeldIn(currency));
        assert EscrowBalance(s.books, currency) == SumOf(s.holds, HeldIn(currency));
      }
      forall k: nat
        ensures JournalCount(after.books, EscrowHold, HoldReference(k)) == OneIf(k < |after.holds|)
        ensures JournalCount(after.books, EscrowRelease, HoldReference(k))
          == OneIf(k < |after.holds| && PaidOut(after.holds[k]))
      {
        assert JournalCount(s.books, EscrowHold, HoldReference(k)) == OneIf(k < |s.holds|);
      }
    }
  }

  lemma SignSound(s: Store, id: nat, signer: Signer, clock: Clock)
    requires Sound(s)
    ensures SignResult(s, id, signer, clock).Ok? ==> Sound(SignResult(s, id, signer, clock).value)
  {
    if SignResult(s, id, signer, clock).Ok? {
      assert HoldShape(s.holds[id]);
      var e := Signed(s.holds[id], signer);
      var s1 := s.(holds := s.holds[id := e]);
      EscrowFollows(s, s1, id, e);
      JournalsFollow(s, s1, id, e);
      if e.payerSigned && e.payeeSigned {
        ReleaseKeeps(s1, id, clock, SignResult(s, id, signer, clock).value);
      }
    }
  }

  lemma CancelSound(s: Store, id: nat, clock: Clock)
    requires Sound(s)
    ensures CancelResult(s, id, clock).Ok? ==> Sound(CancelResult(s, id, clock).value)
  {
    if id < |s.holds| {
      assert HoldShape(s.holds[id]);
      RefundSound(s, id, clock);
    }
  }

  lemma PayerReleaseSound(s: Store, id: nat, clock: Clock)
    requires Sound(s)
    ensures PayerReleaseResult(s, id, clock).Ok? ==> Sound(PayerReleaseResult(s, id, clock).value)
  {
    if id < |s.holds| && s.holds[id].condition.PayerRelease? {
      ReleaseSound(s, id, clock);
    }
  }

  lemma ArbiterReleaseSound(s: Store, id: nat, user: Option<string>, clock: Clock)
    requires Sound(s)
    ensures ArbiterReleaseResult(s, id, user, clock).Ok? ==> Sound(ArbiterReleaseResult(s, id, user, clock).value)
  {
    if id < |s.holds| && s.holds[id].condition.ArbiterRelease? {
      assert HoldShape(s.holds[id]);
      ReleaseSound(s, id, clock);
    }
  }

  /** One release of a tick, from a row that is as it was picked. */
  lemma TickReleaseSound(s: Store, id: nat, clock: Clock)
    requires Sound(s) && id < |s.holds| && IsDue(s.holds[id], clock.now)
    ensures var after := Attempted(s, id, s.holds[id], clock);
      && Sound(after) && |after.holds| == |s.holds|
      && forall k: nat :: k < |s.holds| && k != id ==> after.holds[k] == s.holds[k]
  {
    ReleaseSound(s, id, clock);
  }

  /** The rows of a tick from the k-th on are as they were picked. */
  ghost predicate Awaiting(s: Store, before: Store, due: seq<nat>, k: nat) {
    && |before.holds| == |s.holds|
    && forall i :: k <= i < |due| ==> due[i] < |s.holds| && before.holds[due[i]] == s.holds[due[i]]
  }

  lemma TickStepSound(s: Store, due: seq<nat>, k: nat, clock: Clock, before: Store, after: Store)
    requires Picked(s.holds, clock.now, due) && k < |due| && Sound(before) && Awaiting(s, before, due, k)
    requires after == Attempted(before, due[k], s.holds[due[k]], clock)
    ensures Sound(after) && Awaiting(s, after, due, k + 1)
  {
    assert IsDue(s.holds[due[k]], clock.now);
    TickReleaseSound(before, due[k], clock);
    forall i | k < i < |due|
      ensures due[i] < |s.holds| && after.holds[due[i]] == s.holds[due[i]]
    {
      assert due[i] != due[k];
    }
  }

  lemma {:induction false} TickSound(s: Store, before: Store, due: seq<nat>, k: nat, clock: Clock)
    requires Sound(before) && Picked(s.holds, clock.now, due) && k <= |due| && InTable(due, |s.holds|)
    requires Awaiting(s, before, due, k)
    ensures Sound(TickFrom(before, RowsOf(s, due), due, k, clock))
    decreases |due| - k
  {
    if k < |due| {
      var after := Attempted(before, due[k], RowsOf(s, due)[k], clock);
      TickStepSound(s, due, k, clock, before, after);
      TickSound(s, after, due, k + 1, clock);
    }
  }

  lemma JournalSound(s: Store, input: JournalInput)
    requires Sound(s) && Foreign(input)
    ensures JournalResult(s, input).Ok? ==> Sound(JournalResult(s, input).value)
  {
    if Posted(s.books, input).Ok? {
      var b := Posted(s.books, input).value;
      forall currency: string
        ensures EscrowBalance(b, currency) == EscrowBalance(s.books, currency)
      {
        UntouchedBalance(s.books, input, EscrowOf(currency));
      }
      forall k: nat
        ensures JournalCount(b, EscrowHold, HoldReference(k)) == JournalCount(s.books, EscrowHold, HoldReference(k))
        ensures JournalCount(b, EscrowRelease, HoldReference(k))
          == JournalCount(s.books, EscrowRelease, HoldReference(k))
      {
        PostedCount(s.books, input, EscrowHold, HoldReference(k));
        PostedCount(s.books, input, EscrowRelease, HoldReference(k));
      }
      SameMoney(s, b);
    }
  }

  lemma SameMoney(s: Store, b: Books)
    requires Sound(s)
    requires forall currency: string :: EscrowBalance(b, currency) == EscrowBalance(s.books, currency)
    requires forall k: nat ::
      JournalCount(b, EscrowHold, HoldReference(k)) == JournalCount(s.books, EscrowHold, HoldReference(k))
    requires forall k: nat ::
      JournalCount(b, EscrowRelease, HoldReference(k)) == JournalCount(s.books, EscrowRelease, HoldReference(k))
    ensures Sound(s.(books := b))
  {
  }

  lemma StepSound(s: Store, op: Op)
    requires Sound(s) && Possible(s, op)
    ensures Sound(Step(s, op).0)
  {
    match op {
      case Create(terms, clock) => CreateSound(s, terms, clock);
      case Sign(id, signer, clock) => SignSound(s, id, signer, clock);
      case ReleaseByPayer(id, clock) => PayerReleaseSound(s, id, clock);
      case ReleaseByArbiter(id, user, clock) => ArbiterReleaseSound(s, id, user, clock);
      case Refund(id, clock) => if id < |s.holds| { RefundSound(s, id, clock); }
      case Cancel(id, clock) => CancelSound(s, id, clock);
      case Tick(due, clock) => TickSound(s, s, due, 0, clock);
      case OtherJournal(input) => JournalSound(s, input);
    }
  }

  /** Whatever runs, the escrow accounts, the rows and the journals stay in step. */
  lemma {:induction false} RunSound(s: Store, ops: seq<Op>)
    requires Sound(s) && PossibleRun(s, ops)
    ensures Sound(Run(s, ops))
  {
    if ops != [] {
      RunSound(s, ops[..|ops| - 1]);
      StepSound(Run(s, ops[..|ops| - 1]), ops[|ops| - 1]);
    }
  }

  lemma StartSound(books: Books)
    requires books.journals == []
    ensures Sound(Store([], books))
  {
  }

  // ----- the stale row

  /** What a release from the row `e` does to the books. */
  lemma ReleaseBooks(s: Store, id: nat, e: Hold, clock: Clock, after: Store)
    requires id < |s.holds| && ReleaseResult(s, id, e, clock) == Ok(after)
    ensures after.holds == s.holds[id := ReleasedRow(s.holds[id], clock)]
    ensures forall c: string ::
      EscrowBalance(after.books, c) == EscrowBalance(s.books, c) - if c == e.currency then e.amount else 0
    ensures JournalCount(after.books, EscrowRelease, HoldReference(id))
      == JournalCount(s.books, EscrowRelease, HoldReference(id)) + 1
  {
    JournalledEffect(s.books, EscrowRelease, id, e, EscrowOf(e.currency), SettlementOf(e.payee, e.currency), clock,
      after.books);
  }

  /** The amount of a row already paid out, taken from the escrow account once more. */
  lemma PaidTwice(s: Store, id: nat, e: Hold, clock: Clock, after: Store)
    requires EscrowMatches(s) && id < |s.holds| && s.holds[id].state != Held && e.amount > 0
    requires after.holds == s.holds[id := ReleasedRow(s.holds[id], clock)]
    requires EscrowBalance(after.books, e.currency) == EscrowBalance(s.books, e.currency) - e.amount
    ensures !EscrowMatches(after)
  {
    SumUpdate(s.holds, id, ReleasedRow(s.holds[id], clock), HeldIn(e.currency));
    assert EscrowBalance(s.books, e.currency) == SumOf(s.holds, HeldIn(e.currency));
  }

  /** Releasing from a row read earlier, when it was held: the escrow account still matches the rows
      exactly when the row is still held. If it was paid out in between, it is paid out twice. */
  lemma StaleRelease(s: Store, id: nat, e: Hold, clock: Clock, after: Store)
    requires Sound(s) && id < |s.holds| && ReleaseResult(s, id, e, clock) == Ok(after)
    requires e.amount == s.holds[id].amount && e.currency == s.holds[id].currency && e.payee == s.holds[id].payee
    ensures EscrowMatches(after) <==> s.holds[id].state == Held
    ensures JournalCount(after.books, EscrowRelease, HoldReference(id)) == if s.holds[id].state == Held then 1 else 2
  {
    var row := s.holds[id];
    assert HoldShape(row);
    ReleaseBooks(s, id, e, clock, after);
    assert JournalCount(s.books, EscrowRelease, HoldReference(id)) == OneIf(PaidOut(row));
    if row.state == Held {
      EscrowFollows(s, after, id, ReleasedRow(row, clock));
    } else {
      PaidTwice(s, id, e, clock, after);
    }
  }

  // ----- who can release

  /** The operation may release this row. */
  predicate MayRelease(op: Op, id: nat, e: Hold) {
    match op
    case Sign(i, signer, _) =>
      i == id && e.condition.BothSignatures? && Signed(e, signer).payerSigned && Signed(e, signer).payeeSigned
    case ReleaseByPayer(i, _) => i == id && e.condition.PayerRelease?
    case ReleaseByArbiter(i, user, _) => i == id && e.condition.ArbiterRelease? && user == e.arbiter
    case Tick(_, clock) => IsDue(e, clock.now)
    case _ => false
  }

  lemma ReleaseOther(s: Store, i: nat, e: Hold, clock: Clock, id: nat)
    requires i < |s.holds| && id < |s.holds| && i != id && ReleaseResult(s, i, e, clock).Ok?
    ensures ReleaseResult(s, i, e, clock).value.holds[id] == s.holds[id]
  {
  }

  lemma ReleaseAttempt(s: Store, i: nat, e: Hold, clock: Clock, id: nat)
    requires i < |s.holds| && id < |s.holds| && i != id
    ensures Attempted(s, i, e, clock).holds[id] == s.holds[id]
  {
    if ReleaseResult(s, i, e, clock).Ok? {
      ReleaseOther(s, i, e, clock, id);
    }
  }

  /** A tick leaves the rows that are not among those picked. */
  lemma {:induction false} TickLeaves(s: Store, rows: seq<Hold>, due: seq<nat>, k: nat, clock: Clock, id: nat)
    requires k <= |due| == |rows| && InTable(due, |s.holds|) && id < |s.holds| && id !in due
    ensures var after := TickFrom(s, rows, due, k, clock); id < |after.holds| && after.holds[id] == s.holds[id]
    decreases |due| - k
  {
    if k < |due| {
      var next := Attempted(s, due[k], rows[k], clock);
      ReleaseAttempt(s, due[k], rows[k], clock, id);
      TickLeaves(next, rows, due, k + 1, clock, id);
    }
  }

  lemma TickReleasesDue(s: Store, due: seq<nat>, clock: Clock, id: nat)
    requires id < |s.holds| && Picked(s.holds, clock.now, due) && !IsDue(s.holds[id], clock.now)
    ensures var after := TickResult(s, due, clock); id < |after.holds| && after.holds[id] == s.holds[id]
  {
    assert forall k :: 0 <= k < |due| ==> IsDue(s.holds[due[k]], clock.now);
    TickLeaves(s, RowsOf(s, due), due, 0, clock, id);
  }

  /** A row becomes released only by the operation its condition names: the second signature, the
      deadline, the payer's call, or the call of the arbiter named in it. */
  lemma ReleaseNeedsCondition(s: Store, op: Op, id: nat)
    requires Possible(s, op) && id < |s.holds| && s.holds[id].state != Released
    requires id < |Step(s, op).0.holds| && Step(s, op).0.holds[id].state == Released
    ensures s.holds[id].state == Held && MayRelease(op, id, s.holds[id])
  {
    if op.Tick? && !IsDue(s.holds[id], op.clock.now) {
      TickReleasesDue(s, op.due, op.clock, id);
    }
  }

  /** A row paid out never changes again. */
  lemma PaidOutStays(s: Store, op: Op, id: nat)
    requires Possible(s, op) && id < |s.holds| && PaidOut(s.holds[id])
    ensures id < |Step(s, op).0.holds| && Step(s, op).0.holds[id] == s.holds[id]
  {
    if op.Tick? {
      TickReleasesDue(s, op.due, op.clock, id);
    }
  }

  // ----- who is paid

  /** An account after a payment of this amount from one account to another. */
  function AfterPayment(b: Books, a: AccountKey, from: AccountKey, to: AccountKey, amount: int): int {
    Balance(b, a) + (if a == to then amount else 0) - (if a == from then amount else 0)
  }

  /** Creating takes the amount from the payer, releasing gives it to the payee, refunding gives it back to
      the payer, and no other account moves. */
  lemma CreateDebitsPayer(s: Store, t: Terms, clock: Clock, after: Store, a: AccountKey)
    requires CreateResult(s, t, clock) == Ok(after)
    ensures Balance(after.books, a)
      == AfterPayment(s.books, a, SettlementOf(t.payer, t.currency), EscrowOf(t.currency), t.amount)
  {
    var b1 := CreateParts(s, t, clock, after);
    var from, to := SettlementOf(t.payer, t.currency), EscrowOf(t.currency);
    JournalledEffect(b1, EscrowHold, |s.holds|, NewHold(t), from, to, clock, after.books);
  }

  lemma ReleasePaysPayee(s: Store, id: nat, clock: Clock, after: Store, a: AccountKey)
    requires id < |s.holds| && ReleaseResult(s, id, s.holds[id], clock) == Ok(after)
    ensures var e := s.holds[id];
      Balance(after.books, a)
        == AfterPayment(s.books, a, EscrowOf(e.currency), SettlementOf(e.payee, e.currency), e.amount)
  {
    var e := s.holds[id];
    JournalledEffect(s.books, EscrowRelease, id, e, EscrowOf(e.currency), SettlementOf(e.payee, e.currency), clock,
      after.books);
  }

  lemma RefundPaysPayer(s: Store, id: nat, clock: Clock, after: Store, a: AccountKey)
    requires id < |s.holds| && RefundResult(s, id, clock) == Ok(after)
    ensures var e := s.holds[id];
      Balance(after.books, a)
        == AfterPayment(s.books, a, EscrowOf(e.currency), SettlementOf(e.payer, e.currency), e.amount)
  {
    var e := s.holds[id];
    JournalledEffect(s.books, EscrowRelease, id, e, EscrowOf(e.currency), SettlementOf(e.payer, e.currency), clock,
      after.books);
  }
}
