/** Disputes, escrow and cross-border payments on one ledger, in any order: each part's journals are
    foreign to the other two, so all three stay sound together, the ledger's balances still sum to zero,
    and its hash chain still verifies. */
module Rail {
  import opened Text
  import opened Ledger
  import opened Transfers
  import opened Postings
  import L = LedgerBalances
  import C = LedgerChain
  import D = Disputes
  import DC = DisputeCustody
  import E = Escrow
  import EC = EscrowCustody
  import X = CrossBorder
  import XC = CrossBorderCustody

  // ----- the scope of each part

  function DisputeScope(dates: set<string>): Scope {
    Scope({DisputeReserveHold, DisputeReserveRelease}, {ParticipantSettlement, RailDisputeReserve}, dates)
  }

  function EscrowScope(dates: set<string>): Scope {
    Scope({EscrowHold, EscrowRelease}, {ParticipantSettlement, RailEscrow}, dates)
  }

  function PaymentScope(dates: set<string>): Scope {
    Scope({XbLeg1, XbLeg2, XbCompensate}, {ParticipantSettlement, RailFxNostro, RailForeignRailNostro}, dates)
  }

  function TransactionDates(tx: Option<D.Transaction>): set<string> {
    match tx case Some(t) => {t.date} case None => {}
  }

  /** The date texts an operation may post under. */
  function DisputeDates(op: D.Op): set<string> {
    match op
    case Process(_, p) => {p.transaction.date}
    case SettleAuto(_, tx, _) => TransactionDates(tx)
    case Confirm(_, _, tx, _) => TransactionDates(tx)
    case _ => {}
  }

  function EscrowDates(op: E.Op): set<string> {
    match op case OtherJournal(_) => {} case _ => {op.clock.today}
  }

  function PaymentDates(op: X.Op): set<string> {
    match op
    case Coordinate(_, clock) => {clock.today}
    case Tick(_, clock) => {clock.today}
    case _ => {}
  }

  // ----- disputes post within their scope

  /** An account opened first, and the rest of the operation from there. */
  lemma OpenedFirst(b: Books, key: AccountKey, middle: Books, after: Books, scope: Scope)
    requires WithAccount(b, key) == Ok(middle) && Reaches(middle, after, scope)
    ensures Reaches(b, after, scope)
  {
    ReachesOpen(b, key, middle, scope);
    ReachesOn(b, middle, after, scope);
  }

  lemma HeldReaches(b: Books, id: nat, amount: int, currency: string, beneficiary: string, date: string, now: int,
      after: Books)
    requires D.Held(b, id, amount, currency, beneficiary, date, now) == Ok(after)
    ensures Reaches(b, after, DisputeScope({date}))
  {
    var scope := DisputeScope({date});
    var debit, credit := D.SettlementOf(beneficiary, currency), D.ReserveOf(currency);
    var b1 := D.Opened(b, debit).value;
    var b2 := D.Opened(b1, credit).value;
    ReachesMoved(b2, DisputeReserveHold, D.CaseReference(id), date, now, Pair(debit, credit, amount), after, scope);
    OpenedFirst(b1, credit, b2, after, scope);
    OpenedFirst(b, debit, b1, after, scope);
  }

  lemma ReleaseKinds(c: D.Case, tx: D.Transaction, outcome: D.Verdict, lines: seq<Line>)
    requires D.ReleaseLines(c, tx, outcome, c.outcomeAmount) == Ok(lines)
    ensures forall k :: 0 <= k < |lines| ==> lines[k].account.kind in {ParticipantSettlement, RailDisputeReserve}
  {
  }

  /** The release journal, once its accounts are open. */
  lemma ReleaseJournalReaches(b: Books, id: nat, c: D.Case, tx: D.Transaction, outcome: D.Verdict, now: int,
      lines: seq<Line>, after: Books)
    requires D.ReleaseLines(c, tx, outcome, c.outcomeAmount) == Ok(lines)
    requires D.Journalled(b, DisputeReserveRelease, id, tx.date, now, lines) == Ok(after)
    ensures Reaches(b, after, DisputeScope({tx.date}))
  {
    ReleaseKinds(c, tx, outcome, lines);
    ReachesMoved(b, DisputeReserveRelease, D.CaseReference(id), tx.date, now, lines, after, DisputeScope({tx.date}));
  }

  lemma ReleasedReaches(b: Books, id: nat, c: D.Case, tx: D.Transaction, outcome: D.Verdict, now: int, after: Books)
    requires D.Released(b, id, c, tx, outcome, now) == Ok(after)
    ensures Reaches(b, after, DisputeScope({tx.date}))
  {
    var scope := DisputeScope({tx.date});
    var reserve, originator, beneficiary :=
      D.ReserveOf(c.currency), D.SettlementOf(tx.originator, c.currency), D.SettlementOf(tx.beneficiary, c.currency);
    var b1 := D.Opened(b, reserve).value;
    var b2 := D.Opened(b1, originator).value;
    var b3 := D.Opened(b2, beneficiary).value;
    var lines := D.ReleaseLines(c, tx, outcome, c.outcomeAmount).value;
    ReleaseJournalReaches(b3, id, c, tx, outcome, now, lines, after);
    OpenedFirst(b2, beneficiary, b3, after, scope);
    OpenedFirst(b1, originator, b2, after, scope);
    OpenedFirst(b, reserve, b1, after, scope);
  }

  lemma ProcessReaches(s: D.Store, id: nat, p: D.Processing, after: D.Store)
    requires D.ProcessResult(s, id, p) == Ok(after) && after.books != s.books
    ensures Reaches(s.books, after.books, DisputeScope({p.transaction.date}))
  {
    var c := s.cases[id].(state := D.Accepted);
    var beneficiary := D.Beneficiary(p.transaction, c);
    DC.ProcessBooks(s, id, p, after);
    HeldReaches(s.books, id, c.amount, c.currency, beneficiary, p.transaction.date, p.now, after.books);
  }

  lemma SettledReaches(s: D.Store, id: nat, tx: D.Transaction, outcome: D.Verdict, now: int, after: D.Store)
    requires id < |s.cases| && D.SettledWith(s, id, tx, outcome, now) == Ok(after)
    ensures Reaches(s.books, after.books, DisputeScope({tx.date}))
  {
    DC.SettledBooks(s, id, tx, outcome, now, after);
    ReleasedReaches(s.books, id, s.cases[id], tx, outcome, now, after.books);
  }

  lemma DisputeReaches(s: D.Store, op: D.Op)
    requires !op.OtherJournal?
    ensures Reaches(s.books, D.Step(s, op).0.books, DisputeScope(DisputeDates(op)))
  {
    var after := D.Step(s, op).0;
    if after.books == s.books {
      ReachesSame(s.books, DisputeScope(DisputeDates(op)));
    } else {
      match op {
        case Process(id, p) => ProcessReaches(s, id, p, after);
        case SettleAuto(id, tx, now) =>
          var c := s.cases[id];
          SettledReaches(s, id, tx.value, if c.outcome.Some? then c.outcome.value else D.UnknownVerdict, now, after);
        case Confirm(id, user, tx, now) => SettledReaches(s, id, tx.value, D.OutcomeOf(s.cases[id].state), now, after);
        case OpenAccount(key) => ReachesOpen(s.books, key, after.books, DisputeScope(DisputeDates(op)));
        case _ =>
      }
    }
  }

  // ----- escrow posts within its scope

  lemma EscrowJournalReaches(b: Books, reason: Reason, id: nat, e: E.Hold, from: AccountKey, to: AccountKey,
      clock: E.Clock, after: Books)
    requires E.Journalled(b, reason, id, e, from, to, clock) == Ok(after)
    requires reason.EscrowHold? || reason.EscrowRelease?
    requires from.kind in {ParticipantSettlement, RailEscrow} && to.kind in {ParticipantSettlement, RailEscrow}
    ensures Reaches(b, after, EscrowScope({clock.today}))
  {
    ReachesMoved(b, reason, E.HoldReference(id), clock.today, clock.now, Pair(from, to, e.amount), after,
      EscrowScope({clock.today}));
  }

  lemma CreateReaches(s: E.Store, t: E.Terms, clock: E.Clock, after: E.Store)
    requires E.CreateResult(s, t, clock) == Ok(after)
    ensures Reaches(s.books, after.books, EscrowScope({clock.today}))
  {
    var scope := EscrowScope({clock.today});
    var payer, payee, escrow :=
      E.SettlementOf(t.payer, t.currency), E.SettlementOf(t.payee, t.currency), E.EscrowOf(t.currency);
    var b1 := E.Opened(s.books, payer).value;
    var b2 := E.Opened(b1, payee).value;
    var b3 := E.Opened(b2, escrow).value;
    EscrowJournalReaches(b3, EscrowHold, |s.holds|, E.NewHold(t), payer, escrow, clock, after.books);
    OpenedFirst(b2, escrow, b3, after.books, scope);
    OpenedFirst(b1, payee, b2, after.books, scope);
    OpenedFirst(s.books, payer, b1, after.books, scope);
  }

  lemma ReleaseReaches(s: E.Store, id: nat, e: E.Hold, clock: E.Clock, after: E.Store)
    requires id < |s.holds| && E.ReleaseResult(s, id, e, clock) == Ok(after)
    ensures Reaches(s.books, after.books, EscrowScope({clock.today}))
  {
    EscrowJournalReaches(
      s.books, EscrowRelease, id, e, E.EscrowOf(e.currency), E.SettlementOf(e.payee, e.currency), clock, after.books);
  }

  lemma RefundReaches(s: E.Store, id: nat, clock: E.Clock, after: E.Store)
    requires id < |s.holds| && E.RefundResult(s, id, clock) == Ok(after)
    ensures Reaches(s.books, after.books, EscrowScope({clock.today}))
  {
    var e := s.holds[id];
    EscrowJournalReaches(
      s.books, EscrowRelease, id, e, E.EscrowOf(e.currency), E.SettlementOf(e.payer, e.currency), clock, after.books);
  }

  lemma AttemptReaches(s: E.Store, id: nat, e: E.Hold, clock: E.Clock)
    requires id < |s.holds|
    ensures Reaches(s.books, E.Attempted(s, id, e, clock).books, EscrowScope({clock.today}))
  {
    var released := E.ReleaseResult(s, id, e, clock);
    if released.Ok? {
      ReleaseReaches(s, id, e, clock, released.value);
    } else {
      ReachesSame(s.books, EscrowScope({clock.today}));
    }
  }

  lemma {:induction false} EscrowTickReaches(s: E.Store, rows: seq<E.Hold>, due: seq<nat>, k: nat, clock: E.Clock)
    requires k <= |due| == |rows| && E.InTable(due, |s.holds|)
    ensures Reaches(s.books, E.TickFrom(s, rows, due, k, clock).books, EscrowScope({clock.today}))
    decreases |due| - k
  {
    var scope := EscrowScope({clock.today});
    if k == |due| {
      ReachesSame(s.books, scope);
    } else {
      var next := E.Attempted(s, due[k], rows[k], clock);
      AttemptReaches(s, due[k], rows[k], clock);
      EscrowTickReaches(next, rows, due, k + 1, clock);
      ReachesOn(s.books, next.books, E.TickFrom(s, rows, due, k, clock).books, scope);
    }
  }

  lemma EscrowReaches(s: E.Store, op: E.Op)
    requires !op.OtherJournal?
    ensures Reaches(s.books, E.Step(s, op).0.books, EscrowScope(EscrowDates(op)))
  {
    var after := E.Step(s, op).0;
    if after.books == s.books {
      ReachesSame(s.books, EscrowScope(EscrowDates(op)));
    } else {
      match op {
        case Create(terms, clock) => CreateReaches(s, terms, clock, after);
        case Sign(id, signer, clock) =>
          var e := E.Signed(s.holds[id], signer);
          ReleaseReaches(s.(holds := s.holds[id := e]), id, e, clock, after);
        case ReleaseByPayer(id, clock) => ReleaseReaches(s, id, s.holds[id], clock, after);
        case ReleaseByArbiter(id, user, clock) => ReleaseReaches(s, id, s.holds[id], clock, after);
        case Refund(id, clock) => RefundReaches(s, id, clock, after);
        case Cancel(id, clock) => RefundReaches(s, id, clock, after);
        case Tick(due, clock) => EscrowTickReaches(s, E.RowsOf(s, due), due, 0, clock);
      }
    }
  }

  // ----- cross-border payments post within their scope

  lemma PaymentJournalReaches(b: Books, reason: Reason, t: nat, clock: X.Clock, lines: seq<Line>, after: Books)
    requires X.Journalled(b, reason, t, clock, lines) == Ok(after)
    requires reason.XbLeg1? || reason.XbLeg2? || reason.XbCompensate?
    requires forall k :: 0 <= k < |lines| ==>
      lines[k].account.kind in {ParticipantSettlement, RailFxNostro, RailForeignRailNostro}
    ensures Reaches(b, after, PaymentScope({clock.today}))
  {
    ReachesMoved(b, reason, X.TransactionReference(t), clock.today, clock.now, lines, after,
      PaymentScope({clock.today}));
  }

  lemma Leg1Reaches(b: Books, r: X.Row, clock: X.Clock, after: Books)
    requires X.Leg1Posted(b, r, clock) == Ok(after)
    ensures Reaches(b, after, PaymentScope({clock.today}))
  {
    var payer, nostro := X.SettlementOf(r.originator, r.payCurrency), X.FxNostroOf(r.payCurrency);
    var b1 := X.Opened(b, payer).value;
    var b2 := X.Opened(b1, nostro).value;
    PaymentJournalReaches(b2, XbLeg1, r.transactionId, clock, X.Leg1Lines(r), after);
    OpenedFirst(b1, nostro, b2, after, PaymentScope({clock.today}));
    OpenedFirst(b, payer, b1, after, PaymentScope({clock.today}));
  }

  lemma Leg2Reaches(b: Books, r: X.Row, clock: X.Clock, after: Books)
    requires X.Leg2Posted(b, r, clock) == Ok(after)
    ensures Reaches(b, after, PaymentScope({clock.today}))
  {
    var nostro, foreign := X.FxNostroOf(r.receiveCurrency), X.ForeignNostroOf(r.rail, r.receiveCurrency);
    var b1 := X.Opened(b, nostro).value;
    var b2 := X.Opened(b1, foreign).value;
    PaymentJournalReaches(b2, XbLeg2, r.transactionId, clock, X.Leg2Lines(r), after);
    OpenedFirst(b1, foreign, b2, after, PaymentScope({clock.today}));
    OpenedFirst(b, nostro, b1, after, PaymentScope({clock.today}));
  }

  lemma OrderReaches(s: X.Store, o: X.Order, clock: X.Clock, after: X.Store)
    requires X.CoordinateResult(s, o, clock) == Ok(after)
    ensures Reaches(s.books, after.books, PaymentScope({clock.today}))
  {
    var s1 := XC.CoordinateParts(s, o, clock, after);
    var b1 := X.Leg1Posted(s.books, X.RowFor(o), clock).value;
    Leg1Reaches(s.books, X.RowFor(o), clock, b1);
    Leg2Reaches(b1, X.RowFor(o), clock, after.books);
    ReachesOn(s.books, b1, after.books, PaymentScope({clock.today}));
  }

  lemma CompensationKinds(lines: seq<Line>, e: X.Row)
    requires lines == X.CompensationLines(e)
    ensures forall k :: 0 <= k < |lines| ==>
      lines[k].account.kind in {ParticipantSettlement, RailFxNostro, RailForeignRailNostro}
  {
  }

  lemma CompensationReaches(b: Books, e: X.Row, clock: X.Clock, after: Books)
    requires X.CompensationPosted(b, e, clock) == Ok(after)
    ensures Reaches(b, after, PaymentScope({clock.today}))
  {
    var lines := X.CompensationLines(e);
    CompensationKinds(lines, e);
    PaymentJournalReaches(b, XbCompensate, e.transactionId, clock, lines, after);
  }

  lemma HandledReaches(s: X.Store, picked: seq<X.Row>, c: X.Contact, clock: X.Clock)
    requires c.id < |s.rows| == |picked|
    ensures Reaches(s.books, X.Handled(s, picked, c, clock).books, PaymentScope({clock.today}))
  {
    var after := X.Handled(s, picked, c, clock).books;
    if c.railKnown && c.reply.Declined? && X.CompensationPosted(s.books, picked[c.id], clock).Ok? {
      CompensationReaches(s.books, picked[c.id], clock, after);
    } else {
      ReachesSame(s.books, PaymentScope({clock.today}));
    }
  }

  lemma {:induction false} PaymentTickReaches(s: X.Store, picked: seq<X.Row>, contacts: seq<X.Contact>, k: nat,
      clock: X.Clock)
    requires k <= |contacts| && X.InTable(contacts, |s.rows|) && |picked| == |s.rows|
    ensures Reaches(s.books, X.TickFrom(s, picked, contacts, k, clock).books, PaymentScope({clock.today}))
    decreases |contacts| - k
  {
    var scope := PaymentScope({clock.today});
    if k == |contacts| {
      ReachesSame(s.books, scope);
    } else {
      var next := X.Handled(s, picked, contacts[k], clock);
      HandledReaches(s, picked, contacts[k], clock);
      PaymentTickReaches(next, picked, contacts, k + 1, clock);
      ReachesOn(s.books, next.books, X.TickFrom(s, picked, contacts, k, clock).books, scope);
    }
  }

  lemma PaymentReaches(s: X.Store, op: X.Op)
    requires !op.OtherJournal?
    ensures Reaches(s.books, X.Step(s, op).0.books, PaymentScope(PaymentDates(op)))
  {
    var after := X.Step(s, op).0;
    if after.books == s.books {
      ReachesSame(s.books, PaymentScope(PaymentDates(op)));
    } else if op.Coordinate? {
      OrderReaches(s, op.order, op.clock, after);
    } else {
      PaymentTickReaches(s, s.rows, op.contacts, 0, op.clock);
    }
  }

  // ----- each part's journals are foreign to the others

  /** Nothing in the scope touches a dispute reserve or is a hold or release of one. */
  predicate ForeignToDisputes(scope: Scope) {
    RailDisputeReserve !in scope.kinds && DisputeReserveHold !in scope.reasons
      && DisputeReserveRelease !in scope.reasons
  }

  predicate ForeignToEscrow(scope: Scope) {
    RailEscrow !in scope.kinds && EscrowHold !in scope.reasons && EscrowRelease !in scope.reasons
  }

  predicate ForeignToPayments(scope: Scope) {
    && RailFxNostro !in scope.kinds && RailForeignRailNostro !in scope.kinds
    && XbLeg1 !in scope.reasons && XbLeg2 !in scope.reasons && XbCompensate !in scope.reasons
  }

  lemma ScopesForeign(dates: set<string>)
    ensures ForeignToEscrow(DisputeScope(dates)) && ForeignToPayments(DisputeScope(dates))
    ensures ForeignToDisputes(EscrowScope(dates)) && ForeignToPayments(EscrowScope(dates))
    ensures ForeignToDisputes(PaymentScope(dates)) && ForeignToEscrow(PaymentScope(dates))
  {
  }

  lemma DisputesKept(s: D.Store, op: L.Op)
    requires DC.Sound(s) && (op.Post? ==> D.Foreign(op.input))
    ensures DC.Sound(s.(books := L.Step(s.books, op)))
  {
    if op.Post? && Posted(s.books, op.input).Ok? {
      DC.ForeignEffect(s.books, op.input);
    }
    DC.SameBooksSound(s, L.Step(s.books, op));
  }

  lemma EscrowKept(s: E.Store, op: L.Op)
    requires EC.Sound(s) && (op.Post? ==> E.Foreign(op.input))
    ensures EC.Sound(s.(books := L.Step(s.books, op)))
  {
    if op.Post? {
      EC.JournalSound(s, op.input);
    } else {
      EC.SameMoney(s, L.Step(s.books, op));
    }
  }

  lemma PaymentsKept(s: X.Store, op: L.Op)
    requires XC.Sound(s) && (op.Post? ==> X.Foreign(op.input))
    ensures XC.Sound(s.(books := L.Step(s.books, op)))
  {
    if op.Post? && Posted(s.books, op.input).Ok? {
      XC.JournalSound(s, op.input, Posted(s.books, op.input).value);
    } else {
      XC.BooksSound(s, L.Step(s.books, op));
    }
  }

  lemma {:induction false} DisputesAfterRun(s: D.Store, ops: seq<L.Op>, scope: Scope)
    requires DC.Sound(s) && AllWithin(ops, scope) && ForeignToDisputes(scope)
    ensures DC.Sound(s.(books := L.Run(s.books, ops)))
  {
    if ops != [] {
      var front, op := ops[..|ops| - 1], ops[|ops| - 1];
      DisputesAfterRun(s, front, scope);
      assert Within(op, scope);
      DisputesKept(s.(books := L.Run(s.books, front)), op);
    }
  }

  /** Disputes stay sound whatever a foreign part does to the ledger. */
  lemma DisputesUnmoved(s: D.Store, after: Books, scope: Scope)
    requires DC.Sound(s) && Reaches(s.books, after, scope) && ForeignToDisputes(scope)
    ensures DC.Sound(s.(books := after))
  {
    var ops :| AllWithin(ops, scope) && L.Run(s.books, ops) == after;
    DisputesAfterRun(s, ops, scope);
  }

  lemma {:induction false} EscrowAfterRun(s: E.Store, ops: seq<L.Op>, scope: Scope)
    requires EC.Sound(s) && AllWithin(ops, scope) && ForeignToEscrow(scope)
    ensures EC.Sound(s.(books := L.Run(s.books, ops)))
  {
    if ops != [] {
      var front, op := ops[..|ops| - 1], ops[|ops| - 1];
      EscrowAfterRun(s, front, scope);
      assert Within(op, scope);
      EscrowKept(s.(books := L.Run(s.books, front)), op);
    }
  }

  lemma EscrowUnmoved(s: E.Store, after: Books, scope: Scope)
    requires EC.Sound(s) && Reaches(s.books, after, scope) && ForeignToEscrow(scope)
    ensures EC.Sound(s.(books := after))
  {
    var ops :| AllWithin(ops, scope) && L.Run(s.books, ops) == after;
    EscrowAfterRun(s, ops, scope);
  }

  lemma {:induction false} PaymentsAfterRun(s: X.Store, ops: seq<L.Op>, scope: Scope)
    requires XC.Sound(s) && AllWithin(ops, scope) && ForeignToPayments(scope)
    ensures XC.Sound(s.(books := L.Run(s.books, ops)))
  {
    if ops != [] {
      var front, op := ops[..|ops| - 1], ops[|ops| - 1];
      PaymentsAfterRun(s, front, scope);
      assert Within(op, scope);
      PaymentsKept(s.(books := L.Run(s.books, front)), op);
    }
  }

  lemma PaymentsUnmoved(s: X.Store, after: Books, scope: Scope)
    requires XC.Sound(s) && Reaches(s.books, after, scope) && ForeignToPayments(scope)
    ensures XC.Sound(s.(books := after))
  {
    var ops :| AllWithin(ops, scope) && L.Run(s.books, ops) == after;
    PaymentsAfterRun(s, ops, scope);
  }

  // ----- the three parts on one ledger

  /** The tables of all three parts; the ledger is one. */
  datatype State = State(disputes: D.Store, escrow: E.Store, payments: X.Store)

  ghost predicate OneLedger(s: State) {
    s.disputes.books == s.escrow.books == s.payments.books
  }

  function LedgerOf(s: State): Books {
    s.disputes.books
  }

  function OnBooks(s: State, b: Books): State {
    State(s.disputes.(books := b), s.escrow.(books := b), s.payments.(books := b))
  }

  /** An operation of one part, or a ledger operation of none of them. */
  datatype Op = Dispute(d: D.Op) | Escrow(e: E.Op) | Payment(x: X.Op) | Other(l: L.Op)

  function Step(s: State, op: Op): State {
    match op
    case Dispute(d) => var s' := D.Step(s.disputes, d).0; OnBooks(s.(disputes := s'), s'.books)
    case Escrow(e) => var s' := E.Step(s.escrow, e).0; OnBooks(s.(escrow := s'), s'.books)
    case Payment(x) => var s' := X.Step(s.payments, x).0; OnBooks(s.(payments := s'), s'.books)
    case Other(l) => OnBooks(s, L.Step(LedgerOf(s), l))
  }

  /** A ledger operation of other parts of the rail: a journal foreign to all three. */
  predicate ForeignToAll(l: L.Op) {
    l.Post? ==> D.Foreign(l.input) && E.Foreign(l.input) && X.Foreign(l.input)
  }

  ghost predicate Possible(s: State, op: Op) {
    match op
    case Dispute(d) => !d.OtherJournal?
    case Escrow(e) => !e.OtherJournal? && E.Possible(s.escrow, e)
    case Payment(x) => !x.OtherJournal? && X.Possible(s.payments, x)
    case Other(l) => ForeignToAll(l)
  }

  function Run(s: State, ops: seq<Op>): State {
    if ops == [] then s else Step(Run(s, ops[..|ops| - 1]), ops[|ops| - 1])
  }

  ghost predicate PossibleRun(s: State, ops: seq<Op>) {
    ops == [] || (PossibleRun(s, ops[..|ops| - 1]) && Possible(Run(s, ops[..|ops| - 1]), ops[|ops| - 1]))
  }

  /** All three parts are sound on the same ledger, and its journals balance. */
  ghost predicate Sound(s: State) {
    OneLedger(s) && DC.Sound(s.disputes) && EC.Sound(s.escrow) && XC.Sound(s.payments) && L.Sound(LedgerOf(s))
  }

  lemma DisputeStepSound(s: State, d: D.Op)
    requires Sound(s) && !d.OtherJournal?
    ensures Sound(Step(s, Dispute(d)))
  {
    var after, scope := D.Step(s.disputes, d).0, DisputeScope(DisputeDates(d));
    DC.StepSound(s.disputes, d);
    DisputeReaches(s.disputes, d);
    ScopesForeign(DisputeDates(d));
    EscrowUnmoved(s.escrow, after.books, scope);
    PaymentsUnmoved(s.payments, after.books, scope);
    ReachesBalanced(LedgerOf(s), after.books, scope);
  }

  lemma EscrowStepSound(s: State, e: E.Op)
    requires Sound(s) && !e.OtherJournal? && E.Possible(s.escrow, e)
    ensures Sound(Step(s, Escrow(e)))
  {
    var after, scope := E.Step(s.escrow, e).0, EscrowScope(EscrowDates(e));
    EC.StepSound(s.escrow, e);
    EscrowReaches(s.escrow, e);
    ScopesForeign(EscrowDates(e));
    DisputesUnmoved(s.disputes, after.books, scope);
    PaymentsUnmoved(s.payments, after.books, scope);
    ReachesBalanced(LedgerOf(s), after.books, scope);
  }

  lemma PaymentStepSound(s: State, x: X.Op)
    requires Sound(s) && !x.OtherJournal? && X.Possible(s.payments, x)
    ensures Sound(Step(s, Payment(x)))
  {
    var after, scope := X.Step(s.payments, x).0, PaymentScope(PaymentDates(x));
    XC.StepSound(s.payments, x);
    PaymentReaches(s.payments, x);
    ScopesForeign(PaymentDates(x));
    DisputesUnmoved(s.disputes, after.books, scope);
    EscrowUnmoved(s.escrow, after.books, scope);
    ReachesBalanced(LedgerOf(s), after.books, scope);
  }

  lemma OtherStepSound(s: State, l: L.Op)
    requires Sound(s) && ForeignToAll(l)
    ensures Sound(Step(s, Other(l)))
  {
    L.StepSound(LedgerOf(s), l);
    DisputesKept(s.disputes, l);
    EscrowKept(s.escrow, l);
    PaymentsKept(s.payments, l);
  }

  lemma StepSound(s: State, op: Op)
    requires Sound(s) && Possible(s, op)
    ensures Sound(Step(s, op))
  {
    match op {
      case Dispute(d) => DisputeStepSound(s, d);
      case Escrow(e) => EscrowStepSound(s, e);
      case Payment(x) => PaymentStepSound(s, x);
      case Other(l) => OtherStepSound(s, l);
    }
  }

  /** However the operations of the three parts and of the rest of the rail are interleaved, every custody
      account holds what its own part's rows say, and every journal balances. */
  lemma {:induction false} RunSound(s: State, ops: seq<Op>)
    requires Sound(s) && PossibleRun(s, ops)
    ensures Sound(Run(s, ops))
  {
    if ops != [] {
      RunSound(s, ops[..|ops| - 1]);
      StepSound(Run(s, ops[..|ops| - 1]), ops[|ops| - 1]);
    }
  }

  /** The balances of all the accounts of a currency sum to zero after any such interleaving. */
  lemma Conservation(s: State, ops: seq<Op>, keys: seq<AccountKey>, currency: string)
    requires Sound(s) && PossibleRun(s, ops)
    requires L.ListsCurrency(LedgerOf(Run(s, ops)).accounts, keys, currency)
    ensures L.BalanceSum(LedgerOf(Run(s, ops)).journals, keys) == 0
  {
    RunSound(s, ops);
    var b := LedgerOf(Run(s, ops));
    L.SumsToZero(b.accounts, b.journals, keys, currency);
  }

  lemma StepNumbered(s: State, op: Op)
    requires OneLedger(s) && Possible(s, op) && L.Numbered(LedgerOf(s))
    ensures OneLedger(Step(s, op)) && L.Numbered(LedgerOf(Step(s, op)))
    ensures LedgerOf(s).journals <= LedgerOf(Step(s, op)).journals
  {
    var b, after := LedgerOf(s), LedgerOf(Step(s, op));
    match op {
      case Dispute(d) =>
        DisputeReaches(s.disputes, d);
        ReachesNumbered(b, after, DisputeScope(DisputeDates(d)));
      case Escrow(e) =>
        EscrowReaches(s.escrow, e);
        ReachesNumbered(b, after, EscrowScope(EscrowDates(e)));
      case Payment(x) =>
        PaymentReaches(s.payments, x);
        ReachesNumbered(b, after, PaymentScope(PaymentDates(x)));
      case Other(l) =>
        L.StepPostsOne(b, l);
        L.PostsOneNumbered(b, after);
    }
  }

  /** Whatever the parts do, journal numbers increase from one journal to the next, and a journal once posted
      stays where it is. */
  lemma {:induction false} RunNumbered(s: State, ops: seq<Op>)
    requires OneLedger(s) && PossibleRun(s, ops) && L.Numbered(LedgerOf(s))
    ensures OneLedger(Run(s, ops)) && L.Numbered(LedgerOf(Run(s, ops)))
    ensures LedgerOf(s).journals <= LedgerOf(Run(s, ops)).journals
  {
    if ops != [] {
      RunNumbered(s, ops[..|ops| - 1]);
      StepNumbered(Run(s, ops[..|ops| - 1]), ops[|ops| - 1]);
    }
  }

  lemma StartSound(books: Books)
    requires books.journals == []
    ensures Sound(State(D.Store([], [], map[], [], books), E.Store([], books), X.Store([], [], books)))
  {
    DC.StartSound(books);
    EC.StartSound(books);
    XC.StartSound(books);
  }

  // ----- the hash chain under all of them

  /** The dates the operation posts under are given back as written; a journal of another part is
      rejected or written as the tables give it back. */
  ghost predicate WrittenBack(s: State, op: Op) {
    match op
    case Dispute(d) => AllKept(LedgerOf(s).dates, DisputeDates(d))
    case Escrow(e) => AllKept(LedgerOf(s).dates, EscrowDates(e))
    case Payment(x) => AllKept(LedgerOf(s).dates, PaymentDates(x))
    case Other(l) => C.PostsFaithfully(LedgerOf(s), l)
  }

  ghost predicate RunWrittenBack(s: State, ops: seq<Op>) {
    ops == [] || (RunWrittenBack(s, ops[..|ops| - 1]) && WrittenBack(Run(s, ops[..|ops| - 1]), ops[|ops| - 1]))
  }

  ghost predicate Verifies(b: Books) {
    C.AllDaysVerify(b) && C.DigestLength(b.sha256)
  }

  lemma StepVerifies(s: State, op: Op)
    requires OneLedger(s) && Possible(s, op) && Verifies(LedgerOf(s)) && WrittenBack(s, op)
    ensures OneLedger(Step(s, op)) && Verifies(LedgerOf(Step(s, op)))
  {
    var b, after := LedgerOf(s), LedgerOf(Step(s, op));
    match op {
      case Dispute(d) =>
        DisputeReaches(s.disputes, d);
        ReachesVerifies(b, after, DisputeScope(DisputeDates(d)));
      case Escrow(e) =>
        EscrowReaches(s.escrow, e);
        ReachesVerifies(b, after, EscrowScope(EscrowDates(e)));
      case Payment(x) =>
        PaymentReaches(s.payments, x);
        ReachesVerifies(b, after, PaymentScope(PaymentDates(x)));
      case Other(l) =>
        C.StepVerifies(b, l);
        C.StepKeepsColumns(b, l);
    }
  }

  /** However the parts are interleaved, every day of the ledger's hash chain verifies, as long as the
      dates of their journals are given back as they were written. */
  lemma {:induction false} RunVerifies(s: State, ops: seq<Op>)
    requires OneLedger(s) && PossibleRun(s, ops) && Verifies(LedgerOf(s)) && RunWrittenBack(s, ops)
    ensures OneLedger(Run(s, ops)) && Verifies(LedgerOf(Run(s, ops)))
  {
    if ops != [] {
      RunVerifies(s, ops[..|ops| - 1]);
      StepVerifies(Run(s, ops[..|ops| - 1]), ops[|ops| - 1]);
    }
  }
}
