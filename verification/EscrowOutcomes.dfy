/** What becomes of an escrow, from the outside: which operation pays out a hold and to whom, what the row is
    afterwards, and that every account stands where the rows say. */
module EscrowOutcomes {
  import opened Text
  import opened Ledger
  import opened Transfers
  import opened Escrow
  import opened EscrowCustody
  import opened Sums

  // ----- what pays out

  /** The ledger takes a payment of the hold from the escrow account to this participant. */
  predicate CanPay(b: Books, e: Hold, owner: string, clock: Clock) {
    && clock.today != "" && b.dates.read(clock.today).Some? && e.amount > 0
    && Usable(b, AccountKey(RailEscrow, "", e.currency))
    && Usable(b, AccountKey(ParticipantSettlement, owner, e.currency))
  }

  /** The operation is the one that the hold's condition waits for: the signature that makes both, the payer's
      word, the named arbiter's word, or the worker's turn at or after the deadline. */
  predicate Awaited(op: Op, id: nat, e: Hold) {
    || (op.Sign? && op.id == id && e.condition.BothSignatures?
        && ((op.signer.Payer? && e.payeeSigned) || (op.signer.Payee? && e.payerSigned)))
    || (op.ReleaseByPayer? && op.id == id && e.condition.PayerRelease?)
    || (op.ReleaseByArbiter? && op.id == id && e.condition.ArbiterRelease? && e.arbiter == op.user)
    || (op.Tick? && id in op.due && e.condition.TimeElapsed? && e.releaseAt.Some?
        && e.releaseAt.value <= op.clock.now)
  }

  /** The hold is released by this operation. */
  predicate Releases(s: Store, op: Op, id: nat) {
    && id < |s.holds| && s.holds[id].state == Held && Awaited(op, id, s.holds[id])
    && CanPay(s.books, s.holds[id], s.holds[id].payee, op.clock)
  }

  /** The hold goes back to the payer by this operation. */
  predicate Refunds(s: Store, op: Op, id: nat) {
    && id < |s.holds| && s.holds[id].state == Held && (op.Refund? || op.Cancel?) && op.id == id
    && CanPay(s.books, s.holds[id], s.holds[id].payer, op.clock)
  }

  /** A signature that is not yet the second one. */
  predicate SignsFirst(s: Store, op: Op, id: nat) {
    && id < |s.holds| && op.Sign? && op.id == id && s.holds[id].state == Held && s.holds[id].condition.BothSignatures?
    && ((op.signer.Payer? && !s.holds[id].payeeSigned) || (op.signer.Payee? && !s.holds[id].payerSigned))
  }

  /** The row with the operation's signature, if it is one. */
  function WithSignature(e: Hold, op: Op): Hold {
    if !op.Sign? then e
    else if op.signer.Payer? then e.(payerSigned := true)
    else if op.signer.Payee? then e.(payeeSigned := true)
    else e
  }

  /** What the operation makes of a row. */
  function Outcome(s: Store, op: Op, id: nat): Hold
    requires id < |s.holds|
  {
    var e := s.holds[id];
    if Releases(s, op, id) then WithSignature(e, op).(state := Released, releasedAt := Some(op.clock.now))
    else if Refunds(s, op, id) then e.(state := Refunded)
    else if SignsFirst(s, op, id) then WithSignature(e, op)
    else e
  }

  lemma PaymentExactly(b: Books, id: nat, e: Hold, owner: string, clock: Clock)
    ensures Journalled(b, EscrowRelease, id, e, EscrowOf(e.currency), SettlementOf(owner, e.currency), clock).Ok? <==>
      CanPay(b, e, owner, clock)
  {
    PairAccepted(b, EscrowRelease, HoldReference(id), clock.today, clock.now, EscrowOf(e.currency),
      SettlementOf(owner, e.currency), e.amount);
  }

  lemma ReleaseExactly(s: Store, id: nat, clock: Clock)
    requires id < |s.holds|
    ensures var e := s.holds[id];
      var r := ReleaseResult(s, id, e, clock);
      && (r.Ok? <==> e.state == Held && CanPay(s.books, e, e.payee, clock))
      && (r.Ok? ==> r.value.holds == s.holds[id := e.(state := Released, releasedAt := Some(clock.now))])
  {
    PaymentExactly(s.books, id, s.holds[id], s.holds[id].payee, clock);
  }

  lemma RefundExactly(s: Store, id: nat, clock: Clock)
    requires id < |s.holds|
    ensures var e := s.holds[id];
      var r := RefundResult(s, id, clock);
      && (r.Ok? <==> e.state == Held && CanPay(s.books, e, e.payer, clock))
      && (r.Ok? ==> r.value.holds == s.holds[id := e.(state := Refunded)])
  {
    PaymentExactly(s.books, id, s.holds[id], s.holds[id].payer, clock);
  }

  lemma SignOutcome(s: Store, op: Op, id: nat)
    requires op.Sign? && op.id == id && id < |s.holds|
    requires s.holds[id].state == Held && s.holds[id].condition.BothSignatures? && !op.signer.OtherSigner?
    ensures Step(s, op).0.holds == s.holds[id := Outcome(s, op, id)]
  {
    var e := WithSignature(s.holds[id], op);
    var s1 := s.(holds := s.holds[id := e]);
    ReleaseExactly(s1, id, op.clock);
    if Releases(s, op, id) {
      assert s1.holds[id := e.(state := Released, releasedAt := Some(op.clock.now))]
        == s.holds[id := e.(state := Released, releasedAt := Some(op.clock.now))];
    } else if !SignsFirst(s, op, id) {
      assert s.holds[id := s.holds[id]] == s.holds;
    }
  }

  lemma ReleaseOutcome(s: Store, op: Op, id: nat)
    requires id < |s.holds| && (op.ReleaseByPayer? || op.ReleaseByArbiter?) && op.id == id
    ensures Step(s, op).0.holds == s.holds[id := Outcome(s, op, id)]
  {
    assert s.holds[id := s.holds[id]] == s.holds;
    ReleaseExactly(s, id, op.clock);
  }

  lemma RefundOutcome(s: Store, op: Op, id: nat)
    requires id < |s.holds| && (s.holds[id].state == Held || PaidOut(s.holds[id]))
    requires (op.Refund? || op.Cancel?) && op.id == id
    ensures Step(s, op).0.holds == s.holds[id := Outcome(s, op, id)]
  {
    assert s.holds[id := s.holds[id]] == s.holds;
    RefundExactly(s, id, op.clock);
  }

  /** One of the operations on a single row. */
  lemma SingleOutcome(s: Store, op: Op, id: nat)
    requires id < |s.holds| && (s.holds[id].state == Held || PaidOut(s.holds[id]))
    requires !op.Create? && !op.Tick? && !op.OtherJournal? && op.id == id
    ensures Step(s, op).0.holds == s.holds[id := Outcome(s, op, id)]
  {
    if op.Refund? || op.Cancel? {
      RefundOutcome(s, op, id);
    } else if !op.Sign? {
      ReleaseOutcome(s, op, id);
    } else if s.holds[id].state == Held && s.holds[id].condition.BothSignatures? && !op.signer.OtherSigner? {
      SignOutcome(s, op, id);
    } else {
      assert s.holds[id := s.holds[id]] == s.holds;
    }
  }

  // ----- a tick

  /** Releasing one row keeps every account usable as it was. */
  lemma AttemptOutcome(s: Store, id: nat, clock: Clock, after: Store)
    requires id < |s.holds| && after == Attempted(s, id, s.holds[id], clock)
    ensures after.books.accounts == s.books.accounts && after.books.dates == s.books.dates
    ensures after.holds == s.holds[id :=
      if s.holds[id].state == Held && CanPay(s.books, s.holds[id], s.holds[id].payee, clock)
      then s.holds[id].(state := Released, releasedAt := Some(clock.now)) else s.holds[id]]
  {
    ReleaseExactly(s, id, clock);
    assert s.holds[id := s.holds[id]] == s.holds;
  }

  ghost predicate AsPicked(s: Store, rows: seq<Hold>, due: seq<nat>, k: nat)
    requires |rows| == |due|
  {
    && (forall i :: k <= i < |due| ==> due[i] < |s.holds| && rows[i] == s.holds[due[i]])
    && (forall i, j :: k <= i < j < |due| ==> due[i] != due[j])
  }

  lemma {:induction false} TickOutcome(s: Store, rows: seq<Hold>, due: seq<nat>, k: nat, clock: Clock, id: nat)
    requires k <= |due| == |rows| && InTable(due, |s.holds|) && AsPicked(s, rows, due, k) && id < |s.holds|
    ensures var after, e := TickFrom(s, rows, due, k, clock), s.holds[id];
      && |after.holds| == |s.holds|
      && after.holds[id] == if id in due[k..] && e.state == Held && CanPay(s.books, e, e.payee, clock)
        then e.(state := Released, releasedAt := Some(clock.now)) else e
    decreases |due| - k
  {
    if k < |due| {
      var next := Attempted(s, due[k], rows[k], clock);
      AttemptOutcome(s, due[k], clock, next);
      assert due[k..] == [due[k]] + due[k + 1..];
      NotAgain(due, k);
      TickOutcome(next, rows, due, k + 1, clock, id);
    }
  }

  lemma NotAgain(due: seq<nat>, k: nat)
    requires k < |due| && forall i, j :: k <= i < j < |due| ==> due[i] != due[j]
    ensures due[k] !in due[k + 1..]
  {
  }

  lemma TickRows(s: Store, op: Op, id: nat)
    requires op.Tick? && Possible(s, op) && id < |s.holds|
    ensures id < |Step(s, op).0.holds| && Step(s, op).0.holds[id] == Outcome(s, op, id)
  {
    TickOutcome(s, RowsOf(s, op.due), op.due, 0, op.clock, id);
    assert op.due[0..] == op.due;
    assert id in op.due ==> IsDue(s.holds[id], op.clock.now);
  }

  /** What every operation makes of every row: it is released, refunded, signed, or left as it was, exactly as
      the conditions say. */
  lemma RowsExactly(s: Store, op: Op, id: nat)
    requires Possible(s, op) && id < |s.holds| && (s.holds[id].state == Held || PaidOut(s.holds[id]))
    ensures id < |Step(s, op).0.holds| && Step(s, op).0.holds[id] == Outcome(s, op, id)
  {
    match op {
      case Create(_, _) =>
      case Tick(due, clock) =>
        TickRows(s, op, id);
      case OtherJournal(_) =>
      case _ =>
        if op.id == id {
          SingleOutcome(s, op, id);
        } else {
          AnothersOperation(s, op, id);
        }
    }
  }

  lemma AnothersOperation(s: Store, op: Op, id: nat)
    requires id < |s.holds| && !op.Create? && !op.Tick? && !op.OtherJournal? && op.id != id
    ensures id < |Step(s, op).0.holds| && Step(s, op).0.holds[id] == s.holds[id]
  {
  }

  /** The deadline of a held row has come. */
  predicate Elapsed(e: Hold, now: int) {
    e.state == Held && e.condition == TimeElapsed && e.releaseAt.Some? && now >= e.releaseAt.value
  }

  /** A tick releases every row whose deadline has come and that the ledger lets it pay, up to a hundred, and when
      it leaves one out it takes none that came later. */
  lemma TickReleases(s: Store, due: seq<nat>, clock: Clock, id: nat)
    requires Possible(s, Tick(due, clock)) && id < |s.holds|
    ensures id < |Step(s, Tick(due, clock)).0.holds| && |due| <= 100
    ensures var e, after := s.holds[id], Step(s, Tick(due, clock)).0.holds[id];
      && (id in due ==> Elapsed(e, clock.now))
      && (Elapsed(e, clock.now) && (id in due || |due| < 100) ==>
        after == if CanPay(s.books, e, e.payee, clock)
                 then e.(state := Released, releasedAt := Some(clock.now)) else e)
      && (Elapsed(e, clock.now) && id !in due ==>
        after == e && forall k :: 0 <= k < |due| ==>
          due[k] < |s.holds| && s.holds[due[k]].releaseAt.Some?
          && s.holds[due[k]].releaseAt.value <= e.releaseAt.value)
  {
    TickRows(s, Tick(due, clock), id);
    assert forall k :: 0 <= k < |due| ==> IsDue(s.holds[due[k]], clock.now);
    assert IsDue(s.holds[id], clock.now) <==> Elapsed(s.holds[id], clock.now);
  }

  // ----- creating

  /** What a creation asks of its terms, its accounts and the ledger. */
  predicate CanCreate(b: Books, t: Terms, clock: Clock) {
    && t.payerKnown && t.payeeKnown && (t.condition.TimeElapsed? ==> t.releaseAt.Some?)
    && (t.condition.ArbiterRelease? ==> t.arbiter.Some?)
    && clock.today != "" && b.dates.read(clock.today).Some? && t.amount > 0 && t.payee != ""
    && Available(b, AccountKey(ParticipantSettlement, t.payer, t.currency))
    && Available(b, AccountKey(RailEscrow, "", t.currency))
  }

  lemma AccountsExactly(b: Books, payer: string, payee: string, currency: string)
    ensures AccountsOpened(b, payer, payee, currency).Ok? <==> payer != "" && payee != ""
    ensures AccountsOpened(b, payer, payee, currency).Ok? ==>
      var after := AccountsOpened(b, payer, payee, currency).value;
      && after.dates == b.dates
      && (Usable(after, SettlementOf(payer, currency)) <==> Available(b, SettlementOf(payer, currency)))
      && (Usable(after, EscrowOf(currency)) <==> Available(b, EscrowOf(currency)))
  {
    var x, y, z := SettlementOf(payer, currency), SettlementOf(payee, currency), EscrowOf(currency);
    if payer != "" && payee != "" {
      var b1 := Opened(b, x).value;
      var b2 := Opened(b1, y).value;
      var b3 := Opened(b2, z).value;
      OpenedAccount(b, x, b1, x);
      OpenedAccount(b1, y, b2, x);
      OpenedAccount(b2, z, b3, x);
      OpenedAccount(b, x, b1, z);
      OpenedAccount(b1, y, b2, z);
      OpenedAccount(b2, z, b3, z);
    }
  }

  lemma HoldJournalExactly(b: Books, id: nat, t: Terms, clock: Clock)
    ensures var payer, escrow := SettlementOf(t.payer, t.currency), EscrowOf(t.currency);
      Journalled(b, EscrowHold, id, NewHold(t), payer, escrow, clock).Ok? <==>
        && clock.today != "" && b.dates.read(clock.today).Some? && t.amount > 0 && Usable(b, payer) && Usable(b, escrow)
  {
    PairAccepted(b, EscrowHold, HoldReference(id), clock.today, clock.now, SettlementOf(t.payer, t.currency),
      EscrowOf(t.currency), t.amount);
  }

  /** A creation adds one held row with the terms and no signature, or nothing. */
  lemma CreateExactly(s: Store, t: Terms, clock: Clock)
    ensures Step(s, Create(t, clock)).0.holds == s.holds +
      if CanCreate(s.books, t, clock)
      then [Hold(Held, t.payer, t.payee, t.amount, t.currency, t.condition, t.releaseAt, t.arbiter, false, false, None)]
      else []
  {
    AccountsExactly(s.books, t.payer, t.payee, t.currency);
    if AccountsOpened(s.books, t.payer, t.payee, t.currency).Ok? {
      HoldJournalExactly(AccountsOpened(s.books, t.payer, t.payee, t.currency).value, |s.holds|, t, clock);
    }
  }

  // ----- every account, by the rows

  /** What a row says of an account: a held amount has left the payer for the escrow account, a released one
      for the payee, a refunded one is back where it was. */
  function Stake(a: AccountKey): Hold -> int {
    (e: Hold) =>
      (if a == AccountKey(ParticipantSettlement, e.payer, e.currency) && (e.state == Held || e.state == Released)
       then -e.amount else 0)
      + (if a == AccountKey(ParticipantSettlement, e.payee, e.currency) && e.state == Released then e.amount else 0)
      + (if a == AccountKey(RailEscrow, "", e.currency) && e.state == Held then e.amount else 0)
  }

  /** What an account holds besides what the rows say. */
  function Rest(s: Store, a: AccountKey): int {
    Balance(s.books, a) - SumOf(s.holds, Stake(a))
  }

  lemma ReleaseRest(s: Store, id: nat, clock: Clock, after: Store, a: AccountKey)
    requires id < |s.holds| && ReleaseResult(s, id, s.holds[id], clock) == Ok(after)
    ensures Rest(after, a) == Rest(s, a)
  {
    var e := s.holds[id];
    ReleasePaysPayee(s, id, clock, after, a);
    SumUpdate(s.holds, id, ReleasedRow(e, clock), Stake(a));
  }

  lemma RefundRest(s: Store, id: nat, clock: Clock, after: Store, a: AccountKey)
    requires id < |s.holds| && RefundResult(s, id, clock) == Ok(after)
    ensures Rest(after, a) == Rest(s, a)
  {
    RefundPaysPayer(s, id, clock, after, a);
    SumUpdate(s.holds, id, s.holds[id].(state := Refunded), Stake(a));
  }

  lemma CreateRest(s: Store, t: Terms, clock: Clock, after: Store, a: AccountKey)
    requires CreateResult(s, t, clock) == Ok(after)
    ensures Rest(after, a) == Rest(s, a)
  {
    CreateDebitsPayer(s, t, clock, after, a);
    var _ := CreateParts(s, t, clock, after);
    SumAppend(s.holds, NewHold(t).(state := Held), Stake(a));
  }

  lemma SignRest(s: Store, id: nat, signer: Signer, clock: Clock, after: Store, a: AccountKey)
    requires SignResult(s, id, signer, clock) == Ok(after)
    ensures Rest(after, a) == Rest(s, a)
  {
    var e := Signed(s.holds[id], signer);
    var s1 := s.(holds := s.holds[id := e]);
    SumUpdate(s.holds, id, e, Stake(a));
    if e.payerSigned && e.payeeSigned {
      ReleaseRest(s1, id, clock, after, a);
    }
  }

  lemma {:induction false} TickRest(s: Store, rows: seq<Hold>, due: seq<nat>, k: nat, clock: Clock, a: AccountKey)
    requires k <= |due| == |rows| && InTable(due, |s.holds|) && AsPicked(s, rows, due, k)
    ensures Rest(TickFrom(s, rows, due, k, clock), a) == Rest(s, a)
    decreases |due| - k
  {
    if k < |due| {
      var next := Attempted(s, due[k], rows[k], clock);
      AttemptOutcome(s, due[k], clock, next);
      if ReleaseResult(s, due[k], rows[k], clock).Ok? {
        ReleaseRest(s, due[k], clock, next, a);
      }
      TickRest(next, rows, due, k + 1, clock, a);
    }
  }

  /** No operation of escrow moves an account except as the rows say. */
  lemma StepRest(s: Store, op: Op, a: AccountKey)
    requires Possible(s, op) && !op.OtherJournal?
    ensures Rest(Step(s, op).0, a) == Rest(s, a)
  {
    var after := Step(s, op).0;
    if op.Tick? {
      TickRest(s, RowsOf(s, op.due), op.due, 0, op.clock, a);
    } else if Step(s, op).1.None? {
      CommittedRest(s, op, after, a);
    }
  }

  lemma CommittedRest(s: Store, op: Op, after: Store, a: AccountKey)
    requires !op.OtherJournal? && !op.Tick? && Step(s, op) == (after, None)
    ensures Rest(after, a) == Rest(s, a)
  {
    match op {
      case Create(terms, clock) => CreateRest(s, terms, clock, after, a);
      case Sign(id, signer, clock) => SignRest(s, id, signer, clock, after, a);
      case ReleaseByPayer(id, clock) => ReleaseRest(s, id, clock, after, a);
      case ReleaseByArbiter(id, _, clock) => ReleaseRest(s, id, clock, after, a);
      case Refund(id, clock) => RefundRest(s, id, clock, after, a);
      case Cancel(id, clock) =>
        if s.holds[id].state == Initiated {
          SumUpdate(s.holds, id, s.holds[id].(state := Cancelled), Stake(a));
        } else {
          RefundRest(s, id, clock, after, a);
        }
    }
  }

  /** An operation on one row leaves the table as long as it was and every other row alone. */
  lemma OneRowChanges(s: Store, op: Op, id: nat)
    requires Possible(s, op) && id < |s.holds| && (s.holds[id].state == Held || PaidOut(s.holds[id]))
    requires !op.Create? && !op.Tick? && !op.OtherJournal? && op.id == id
    ensures Step(s, op).0.holds == s.holds[id := Outcome(s, op, id)]
  {
    RowsExactly(s, op, id);
    var holds := Step(s, op).0.holds;
    assert |holds| == |s.holds|;
    forall k | 0 <= k < |holds| && k != id
      ensures holds[k] == s.holds[k]
    {
      AnothersOperation(s, op, k);
    }
  }

  /** What the operation pays out of the row to this account. */
  function Payment(s: Store, op: Op, id: nat, a: AccountKey): int
    requires id < |s.holds|
  {
    var e := s.holds[id];
    if Releases(s, op, id) then Between(e, e.payee, a) else if Refunds(s, op, id) then Between(e, e.payer, a) else 0
  }

  /** The amount of the row, from the escrow account to this participant. */
  function Between(e: Hold, owner: string, a: AccountKey): int {
    (if a == AccountKey(ParticipantSettlement, owner, e.currency) then e.amount else 0)
    - (if a == AccountKey(RailEscrow, "", e.currency) then e.amount else 0)
  }

  lemma StakePaid(s: Store, op: Op, id: nat, a: AccountKey)
    requires id < |s.holds|
    ensures Stake(a)(Outcome(s, op, id)) == Stake(a)(s.holds[id]) + Payment(s, op, id, a)
  {
  }

  /** The second signature, the payer's word and the named arbiter's word pay the payee: the row is released, the
      amount leaves the escrow account for the payee, and no other account moves. A refund and a cancellation pay
      the payer in the same way. Any other call moves no account. */
  lemma PaidExactly(s: Store, op: Op, id: nat, a: AccountKey)
    requires Possible(s, op) && id < |s.holds| && (s.holds[id].state == Held || PaidOut(s.holds[id]))
    requires !op.Create? && !op.Tick? && !op.OtherJournal? && op.id == id
    ensures Step(s, op).0.holds == s.holds[id := Outcome(s, op, id)]
    ensures Balance(Step(s, op).0.books, a) == Balance(s.books, a) + Payment(s, op, id, a)
  {
    OneRowChanges(s, op, id);
    StepRest(s, op, a);
    StakePaid(s, op, id, a);
    SumUpdate(s.holds, id, Outcome(s, op, id), Stake(a));
  }

  /** No other part's journal names this account. */
  ghost predicate Unnamed(ops: seq<Op>, a: AccountKey) {
    forall i, k :: 0 <= i < |ops| && ops[i].OtherJournal? && 0 <= k < |ops[i].input.entries| ==>
      ops[i].input.entries[k].account != a
  }

  lemma OtherRest(s: Store, input: JournalInput, a: AccountKey)
    requires forall k :: 0 <= k < |input.entries| ==> input.entries[k].account != a
    ensures Rest(Step(s, OtherJournal(input)).0, a) == Rest(s, a)
  {
    var r := Posted(s.books, input);
    if r.Ok? {
      UntouchedBalance(s.books, input, a);
      assert Step(s, OtherJournal(input)).0 == s.(books := r.value);
    }
  }

  /** Over any run, an account that no other part touches has moved by what the rows say and by nothing else. */
  lemma {:induction false} RunByRows(s: Store, ops: seq<Op>, a: AccountKey)
    requires PossibleRun(s, ops) && Unnamed(ops, a)
    ensures Balance(Run(s, ops).books, a) - SumOf(Run(s, ops).holds, Stake(a))
      == Balance(s.books, a) - SumOf(s.holds, Stake(a))
  {
    if ops != [] {
      var front, op := ops[..|ops| - 1], ops[|ops| - 1];
      RunByRows(s, front, a);
      if op.OtherJournal? {
        OtherRest(Run(s, front), op.input, a);
      } else {
        StepRest(Run(s, front), op, a);
      }
    }
  }
}
