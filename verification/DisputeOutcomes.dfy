/** What becomes of a dispute, from the outside: which operation takes a case to which state and when, whom
    the money goes to, and that it goes by the recorded decision. */
module DisputeOutcomes {
  import opened Text
  import opened Ledger
  import opened Transfers
  import opened Disputes
  import opened DisputeCustody
  import L = LedgerBalances

  // ----- whom a release pays

  /** The amount leaves the reserve; `back` of it goes to the originator, the rest to the beneficiary. */
  function PaidTo(c: Case, tx: Transaction, back: int, a: AccountKey): int {
    (if a == AccountKey(ParticipantSettlement, tx.originator, c.currency) then back else 0)
    + (if a == AccountKey(ParticipantSettlement, tx.beneficiary, c.currency) then c.amount - back else 0)
    - (if a == AccountKey(RailDisputeReserve, "", c.currency) then c.amount else 0)
  }

  /** And no other account moves. */
  ghost predicate PaidOut(b: Books, after: Books, c: Case, tx: Transaction, back: int) {
    forall a: AccountKey :: Balance(after, a) == Balance(b, a) + PaidTo(c, tx, back, a)
  }

  /** What a verdict on this case gives back to the originator. */
  function Back(c: Case, outcome: Verdict, share: Option<int>): Option<int> {
    match outcome
    case Uphold => Some(c.amount)
    case Reject => Some(0)
    case Partial => if share.Some? && 0 < share.value < c.amount then share else None
    case UnknownVerdict => None
  }

  /** What a confirmation gives back: all of the amount of an upheld case, none of a denied one, the share of a
      partly upheld one. */
  function BackOnConfirm(c: Case): Option<int> {
    match c.state
    case Upheld => Some(c.amount)
    case Denied => Some(0)
    case PartialUpheld =>
      if c.outcomeAmount.Some? && 0 < c.outcomeAmount.value < c.amount then c.outcomeAmount else None
    case _ => None
  }

  function BackAutomatically(c: Case): Option<int> {
    match c.outcome
    case Some(v) => Back(c, v, c.outcomeAmount)
    case None => None
  }

  lemma LinesPay(c: Case, tx: Transaction, outcome: Verdict, lines: seq<Line>, a: AccountKey)
    requires ReleaseLines(c, tx, outcome, c.outcomeAmount) == Ok(lines)
    ensures Back(c, outcome, c.outcomeAmount).Some?
    ensures LinesNet(lines, a) == PaidTo(c, tx, Back(c, outcome, c.outcomeAmount).value, a)
  {
    var reserve, originator, beneficiary :=
      ReserveOf(c.currency), SettlementOf(tx.originator, c.currency), SettlementOf(tx.beneficiary, c.currency);
    match outcome {
      case Uphold => PairNet(reserve, originator, c.amount, a);
      case Reject => PairNet(reserve, beneficiary, c.amount, a);
      case Partial =>
        TripleNet(Line(reserve, DR, c.amount), Line(originator, CR, c.outcomeAmount.value),
          Line(beneficiary, CR, c.amount - c.outcomeAmount.value), a);
      case UnknownVerdict =>
    }
  }

  predicate IsReleaseAccount(c: Case, tx: Transaction, a: AccountKey) {
    || a == AccountKey(RailDisputeReserve, "", c.currency)
    || a == AccountKey(ParticipantSettlement, tx.originator, c.currency)
    || a == AccountKey(ParticipantSettlement, tx.beneficiary, c.currency)
  }

  /** The accounts of a release, opened. */
  lemma AccountsOpened(b: Books, c: Case, tx: Transaction, after: Books, a: AccountKey)
    requires ReleaseAccounts(b, c, tx) == Ok(after)
    ensures after.journals == b.journals && after.nextSeq == b.nextSeq && after.dates == b.dates
    ensures IsReleaseAccount(c, tx, a) ==> (Usable(after, a) <==> Available(b, a))
  {
    var b1 := Opened(b, ReserveOf(c.currency)).value;
    var b2 := Opened(b1, SettlementOf(tx.originator, c.currency)).value;
    OpenedAccount(b, ReserveOf(c.currency), b1, a);
    OpenedAccount(b1, SettlementOf(tx.originator, c.currency), b2, a);
    OpenedAccount(b2, SettlementOf(tx.beneficiary, c.currency), after, a);
  }

  lemma ReleasePaysOut(b: Books, id: nat, c: Case, tx: Transaction, outcome: Verdict, now: int, after: Books)
    requires Released(b, id, c, tx, outcome, now) == Ok(after)
    ensures Back(c, outcome, c.outcomeAmount).Some?
    ensures PaidOut(b, after, c, tx, Back(c, outcome, c.outcomeAmount).value)
  {
    var b1 := ReleaseAccounts(b, c, tx).value;
    var lines := ReleaseLines(c, tx, outcome, c.outcomeAmount).value;
    LinesPay(c, tx, outcome, lines, ReserveOf(c.currency));
    JournalledEffect(b1, DisputeReserveRelease, id, tx.date, now, lines);
    forall a: AccountKey
      ensures Balance(after, a) == Balance(b, a) + PaidTo(c, tx, Back(c, outcome, c.outcomeAmount).value, a)
    {
      LinesPay(c, tx, outcome, lines, a);
      AccountsOpened(b, c, tx, b1, a);
    }
  }

  lemma SettlementPays(s: Store, id: nat, tx: Transaction, outcome: Verdict, now: int, after: Store)
    requires id < |s.cases| && SettledWith(s, id, tx, outcome, now) == Ok(after)
    ensures Back(s.cases[id], outcome, s.cases[id].outcomeAmount).Some?
    ensures PaidOut(s.books, after.books, s.cases[id], tx, Back(s.cases[id], outcome, s.cases[id].outcomeAmount).value)
  {
    SettledBooks(s, id, tx, outcome, now, after);
    ReleasePaysOut(s.books, id, s.cases[id], tx, outcome, now, after.books);
  }

  lemma ConfirmCommits(s: Store, op: Op, r: Result<Store, DisputeError>)
    requires op.Confirm? && r == ConfirmResult(s, op.id, op.user, op.tx, op.now)
    ensures Step(s, op).0 == if r.Ok? then r.value else s
  {
  }

  lemma AutoCommits(s: Store, op: Op, r: Result<Store, DisputeError>)
    requires op.SettleAuto? && r == SettleAutoResult(s, op.id, op.tx, op.now)
    ensures Step(s, op).0 == if r.Ok? then r.value else s
  {
  }

  lemma ConfirmChanges(s: Store, id: nat, user: Option<string>, tx: Option<Transaction>, now: int, after: Store)
    requires ConfirmResult(s, id, user, tx, now) == Ok(after) && after != s
    ensures id < |s.cases| && tx.Some? && s.cases[id].state in {Upheld, PartialUpheld, Denied}
    ensures SettledWith(s, id, tx.value, OutcomeOf(s.cases[id].state), now) == Ok(after)
  {
  }

  lemma ConfirmationSettles(s: Store, id: nat, user: Option<string>, tx: Option<Transaction>, now: int)
      returns (v: Verdict)
    requires Step(s, Confirm(id, user, tx, now)).0 != s
    ensures id < |s.cases| && tx.Some?
    ensures SettledWith(s, id, tx.value, v, now) == Ok(Step(s, Confirm(id, user, tx, now)).0)
    ensures s.cases[id].state in {Upheld, PartialUpheld, Denied}
    ensures Back(s.cases[id], v, s.cases[id].outcomeAmount) == BackOnConfirm(s.cases[id])
  {
    var r := ConfirmResult(s, id, user, tx, now);
    ConfirmCommits(s, Confirm(id, user, tx, now), r);
    ConfirmChanges(s, id, user, tx, now, r.value);
    v := OutcomeOf(s.cases[id].state);
    StateGivesBack(s.cases[id]);
  }

  lemma StateGivesBack(c: Case)
    requires c.state in {Upheld, PartialUpheld, Denied}
    ensures Back(c, OutcomeOf(c.state), c.outcomeAmount) == BackOnConfirm(c)
  {
  }

  lemma AutoChanges(s: Store, id: nat, tx: Option<Transaction>, now: int, after: Store) returns (v: Verdict)
    requires SettleAutoResult(s, id, tx, now) == Ok(after) && after != s
    ensures id < |s.cases| && tx.Some? && s.cases[id].state == AutoResolved
    ensures SettledWith(s, id, tx.value, v, now) == Ok(after)
    ensures if s.cases[id].outcome.Some? then v == s.cases[id].outcome.value else v == UnknownVerdict
  {
    v := if s.cases[id].outcome.Some? then s.cases[id].outcome.value else UnknownVerdict;
  }

  lemma AutoSettles(s: Store, id: nat, tx: Option<Transaction>, now: int) returns (v: Verdict)
    requires Step(s, SettleAuto(id, tx, now)).0 != s
    ensures id < |s.cases| && tx.Some? && s.cases[id].state == AutoResolved
    ensures SettledWith(s, id, tx.value, v, now) == Ok(Step(s, SettleAuto(id, tx, now)).0)
    ensures if s.cases[id].outcome.Some? then v == s.cases[id].outcome.value else v == UnknownVerdict
  {
    var r := SettleAutoResult(s, id, tx, now);
    AutoCommits(s, SettleAuto(id, tx, now), r);
    v := AutoChanges(s, id, tx, now, r.value);
  }

  /** A confirmation that changes anything pays out by the state of the case: the originator of an upheld one,
      the beneficiary of a denied one, both of a partly upheld one. */
  lemma ConfirmationPays(s: Store, id: nat, user: Option<string>, tx: Option<Transaction>, now: int)
    requires Step(s, Confirm(id, user, tx, now)).0 != s
    ensures id < |s.cases| && tx.Some? && BackOnConfirm(s.cases[id]).Some?
    ensures PaidOut(s.books, Step(s, Confirm(id, user, tx, now)).0.books, s.cases[id], tx.value,
      BackOnConfirm(s.cases[id]).value)
  {
    var v := ConfirmationSettles(s, id, user, tx, now);
    SettlementPays(s, id, tx.value, v, now, Step(s, Confirm(id, user, tx, now)).0);
  }

  /** An automatic settlement that changes anything pays out by the outcome written in the case. */
  lemma AutoSettlementPays(s: Store, id: nat, tx: Option<Transaction>, now: int)
    requires Step(s, SettleAuto(id, tx, now)).0 != s
    ensures id < |s.cases| && tx.Some? && BackAutomatically(s.cases[id]).Some?
    ensures PaidOut(s.books, Step(s, SettleAuto(id, tx, now)).0.books, s.cases[id], tx.value,
      BackAutomatically(s.cases[id]).value)
  {
    var v := AutoSettles(s, id, tx, now);
    SettlementPays(s, id, tx.value, v, now, Step(s, SettleAuto(id, tx, now)).0);
  }

  // ----- which operation takes a case where

  /** The ledger takes a journal of this date and amount on usable accounts. */
  predicate CanPost(b: Books, date: string, amount: int) {
    date != "" && b.dates.read(date).Some? && amount > 0
  }

  /** The amount can be taken from the beneficiary: of the transaction, or of the case if that has none. */
  predicate CanHold(b: Books, c: Case, tx: Transaction) {
    var owner := if tx.beneficiary == "" then c.beneficiary else tx.beneficiary;
    && CanPost(b, tx.date, c.amount) && Available(b, AccountKey(ParticipantSettlement, owner, c.currency))
    && Available(b, AccountKey(RailDisputeReserve, "", c.currency))
  }

  lemma HeldExactly(b: Books, id: nat, amount: int, currency: string, owner: string, date: string, now: int)
    ensures Held(b, id, amount, currency, owner, date, now).Ok? <==>
      && CanPost(b, date, amount) && Available(b, AccountKey(ParticipantSettlement, owner, currency))
      && Available(b, AccountKey(RailDisputeReserve, "", currency))
  {
    var debit, credit := SettlementOf(owner, currency), ReserveOf(currency);
    if Opened(b, debit).Ok? {
      var b1 := Opened(b, debit).value;
      var b2 := Opened(b1, credit).value;
      HoldAccountsOpened(b, debit, credit, b1, b2);
      HeldOnceOpened(b, id, amount, currency, owner, date, now, b1, b2);
    }
  }

  lemma HeldOnceOpened(b: Books, id: nat, amount: int, currency: string, owner: string, date: string, now: int,
      b1: Books, b2: Books)
    requires Opened(b, SettlementOf(owner, currency)) == Ok(b1) && Opened(b1, ReserveOf(currency)) == Ok(b2)
    ensures Held(b, id, amount, currency, owner, date, now).Ok? <==>
      && CanPost(b2, date, amount) && Usable(b2, SettlementOf(owner, currency)) && Usable(b2, ReserveOf(currency))
  {
    PairAccepted(b2, DisputeReserveHold, CaseReference(id), date, now, SettlementOf(owner, currency),
      ReserveOf(currency), amount);
  }

  lemma HoldAccountsOpened(b: Books, debit: AccountKey, credit: AccountKey, b1: Books, b2: Books)
    requires Opened(b, debit) == Ok(b1) && Opened(b1, credit) == Ok(b2) && debit != credit
    ensures b2.dates == b.dates && (Usable(b2, debit) <==> Available(b, debit))
    ensures Usable(b2, credit) <==> Available(b, credit)
  {
    OpenedAccount(b, debit, b1, debit);
    OpenedAccount(b, debit, b1, credit);
    OpenedAccount(b1, credit, b2, debit);
    OpenedAccount(b1, credit, b2, credit);
  }

  /** The ledger takes the release of a case that gives this much back. */
  predicate CanRelease(b: Books, c: Case, tx: Transaction, back: Option<int>) {
    && back.Some? && tx.originator != "" && tx.beneficiary != ""
    && CanPost(b, tx.date, c.amount) && Available(b, AccountKey(RailDisputeReserve, "", c.currency))
    && (back.value > 0 ==> Available(b, AccountKey(ParticipantSettlement, tx.originator, c.currency)))
    && (back.value < c.amount ==> Available(b, AccountKey(ParticipantSettlement, tx.beneficiary, c.currency)))
  }

  lemma ReleaseAccountsExactly(b: Books, c: Case, tx: Transaction)
    ensures ReleaseAccounts(b, c, tx).Ok? <==> tx.originator != "" && tx.beneficiary != ""
  {
  }

  lemma LinesExist(c: Case, tx: Transaction, outcome: Verdict)
    ensures ReleaseLines(c, tx, outcome, c.outcomeAmount).Ok? <==> Back(c, outcome, c.outcomeAmount).Some?
  {
  }

  /** The ledger takes the lines of a release that gives this much back. */
  predicate TakesRelease(b: Books, c: Case, tx: Transaction, back: int) {
    && tx.date != "" && b.dates.read(tx.date).Some? && c.amount > 0 && Usable(b, ReserveOf(c.currency))
    && (back > 0 ==> Usable(b, SettlementOf(tx.originator, c.currency)))
    && (back < c.amount ==> Usable(b, SettlementOf(tx.beneficiary, c.currency)))
  }

  lemma WholeTaken(b: Books, id: nat, c: Case, tx: Transaction, outcome: Verdict, now: int, lines: seq<Line>)
    requires outcome.Uphold? || outcome.Reject?
    requires ReleaseLines(c, tx, outcome, c.outcomeAmount) == Ok(lines)
    ensures Journalled(b, DisputeReserveRelease, id, tx.date, now, lines).Ok? <==>
      TakesRelease(b, c, tx, if outcome.Uphold? then c.amount else 0)
  {
    var reserve := ReserveOf(c.currency);
    var to := SettlementOf(if outcome.Uphold? then tx.originator else tx.beneficiary, c.currency);
    PairAccepted(b, DisputeReserveRelease, CaseReference(id), tx.date, now, reserve, to, c.amount);
  }

  lemma SharesTaken(b: Books, id: nat, c: Case, tx: Transaction, now: int, lines: seq<Line>)
    requires ReleaseLines(c, tx, Partial, c.outcomeAmount) == Ok(lines)
    ensures c.outcomeAmount.Some?
    ensures Journalled(b, DisputeReserveRelease, id, tx.date, now, lines).Ok? <==>
      TakesRelease(b, c, tx, c.outcomeAmount.value)
  {
    var x := c.outcomeAmount.value;
    var reserve, originator, beneficiary :=
      ReserveOf(c.currency), SettlementOf(tx.originator, c.currency), SettlementOf(tx.beneficiary, c.currency);
    assert lines == Split(reserve, originator, beneficiary, x, c.amount - x);
    SplitAccepted(b, DisputeReserveRelease, CaseReference(id), tx.date, now, reserve, originator, beneficiary, x,
      c.amount - x);
  }

  lemma LinesTaken(b: Books, id: nat, c: Case, tx: Transaction, outcome: Verdict, now: int, lines: seq<Line>)
    requires ReleaseLines(c, tx, outcome, c.outcomeAmount) == Ok(lines)
    ensures Back(c, outcome, c.outcomeAmount).Some?
    ensures Journalled(b, DisputeReserveRelease, id, tx.date, now, lines).Ok? <==>
      TakesRelease(b, c, tx, Back(c, outcome, c.outcomeAmount).value)
  {
    LinesExist(c, tx, outcome);
    if outcome.Partial? {
      SharesTaken(b, id, c, tx, now, lines);
    } else {
      WholeTaken(b, id, c, tx, outcome, now, lines);
    }
  }

  lemma ReleasedIs(b: Books, id: nat, c: Case, tx: Transaction, outcome: Verdict, now: int, b1: Books)
    requires ReleaseAccounts(b, c, tx) == Ok(b1)
    ensures var lines := ReleaseLines(c, tx, outcome, c.outcomeAmount);
      Released(b, id, c, tx, outcome, now)
        == if lines.Err? then Err(lines.error)
           else Journalled(b1, DisputeReserveRelease, id, tx.date, now, lines.value)
  {
  }

  lemma ReleasedExactly(b: Books, id: nat, c: Case, tx: Transaction, outcome: Verdict, now: int)
    ensures Released(b, id, c, tx, outcome, now).Ok? <==> CanRelease(b, c, tx, Back(c, outcome, c.outcomeAmount))
  {
    ReleaseAccountsExactly(b, c, tx);
    LinesExist(c, tx, outcome);
    if ReleaseAccounts(b, c, tx).Ok? {
      var b1, lines := ReleaseAccounts(b, c, tx).value, ReleaseLines(c, tx, outcome, c.outcomeAmount);
      ReleasedIs(b, id, c, tx, outcome, now, b1);
      if lines.Ok? {
        LinesTaken(b1, id, c, tx, outcome, now, lines.value);
        ReleaseTaken(b, c, tx, b1, Back(c, outcome, c.outcomeAmount).value);
      }
    }
  }

  lemma ReleaseTaken(b: Books, c: Case, tx: Transaction, b1: Books, back: int)
    requires ReleaseAccounts(b, c, tx) == Ok(b1)
    ensures TakesRelease(b1, c, tx, back) <==> CanRelease(b, c, tx, Some(back))
  {
    ReleaseAccountsExactly(b, c, tx);
    AccountsOpened(b, c, tx, b1, ReserveOf(c.currency));
    AccountsOpened(b, c, tx, b1, SettlementOf(tx.originator, c.currency));
    AccountsOpened(b, c, tx, b1, SettlementOf(tx.beneficiary, c.currency));
  }

  /** A valid processing of a filed case. */
  predicate Processes(s: Store, op: Op, id: nat) {
    op.Process? && op.id == id && id < |s.cases| && s.cases[id].state == Filed
  }

  /** A manual ruling with this outcome on a case in adjudication that has no decision. */
  predicate Rules(s: Store, op: Op, id: nat, v: Verdict) {
    && op.Decide? && op.id == id && id < |s.cases| && s.cases[id].state == Adjudicating && id !in s.decisions
    && op.ruling.outcome == v && op.ruling.knownRationale
    && (v == Partial ==> op.ruling.amount.Some? && 0 < op.ruling.amount.value < s.cases[id].amount)
  }

  /** After this operation both parties have sent evidence, or the deadline has passed. */
  predicate Heard(s: Store, op: Op, id: nat) {
    || (op.Upload? && op.id == id
        && (op.side == Filer || Evidence(id, Filer) in s.evidence)
        && (op.side == Responder || Evidence(id, Responder) in s.evidence))
    || (op.Expire? && op.id == id && id < |s.cases|
        && (s.cases[id].deadline.None? || s.cases[id].deadline.value <= op.now))
  }

  /** The operation settles the case: the automatic one, or a confirmation by someone other than who decided. */
  predicate Settles(s: Store, op: Op, id: nat) {
    id < |s.cases| &&
    var c := s.cases[id];
    || (op.SettleAuto? && op.id == id && c.state == AutoResolved && op.tx.Some?
        && CanRelease(s.books, c, op.tx.value, BackAutomatically(c)))
    || (op.Confirm? && op.id == id && c.state in {Upheld, PartialUpheld, Denied} && id in s.decisions
        && (s.decisions[id].decidedBy.None? || s.decisions[id].decidedBy != op.user) && op.tx.Some?
        && CanRelease(s.books, c, op.tx.value, BackOnConfirm(c)))
  }

  /** The operation takes the case to this state, from another. */
  predicate Moves(s: Store, op: Op, id: nat, to: State)
    requires id < |s.cases|
  {
    var c := s.cases[id];
    match to
    case Filed => false
    case Accepted => false
    case Rejected => Processes(s, op, id) && !op.processing.valid
    case EvidencePending =>
      Processes(s, op, id) && op.processing.valid && op.processing.resolution.None?
      && CanHold(s.books, c, op.processing.transaction)
    case AutoResolved =>
      Processes(s, op, id) && op.processing.valid && op.processing.resolution.Some?
      && CanHold(s.books, c, op.processing.transaction)
    case Adjudicating => c.state == EvidencePending && Heard(s, op, id)
    case Upheld => Rules(s, op, id, Uphold)
    case PartialUpheld => Rules(s, op, id, Partial)
    case Denied =>
      Rules(s, op, id, Reject)
      || (op.Kill? && op.id == id && c.state != Rejected && c.state != Settled && c.state != Denied)
    case Settled => Settles(s, op, id)
  }

  /** The state a case goes to. */
  predicate GoesTo(s: Store, op: Op, id: nat, to: State)
    requires id < |s.cases|
  {
    id < |Step(s, op).0.cases| && Step(s, op).0.cases[id].state == to && s.cases[id].state != to
  }

  lemma HoldsExactly(s: Store, id: nat, p: Processing)
    requires id < |s.cases| && s.cases[id].reserve.None?
    ensures AcceptedAndHeld(s, id, p).Ok? <==> CanHold(s.books, s.cases[id], p.transaction)
    ensures AcceptedAndHeld(s, id, p).Ok? ==> |AcceptedAndHeld(s, id, p).value.cases| == |s.cases|
  {
    var c := s.cases[id].(state := Accepted);
    HeldExactly(s.books, id, c.amount, c.currency, Beneficiary(p.transaction, c), p.transaction.date, p.now);
  }

  /** Processing, by what accepting and holding comes to. */
  lemma ProcessIs(s: Store, op: Op, held: Result<Store, DisputeError>)
    requires op.Process? && op.id < |s.cases| && s.cases[op.id].state == Filed
    requires held == AcceptedAndHeld(s, op.id, op.processing) && (held.Ok? ==> |held.value.cases| == |s.cases|)
    ensures Step(s, op).0 ==
      if !op.processing.valid then WithState(s, op.id, s.cases[op.id].(state := Rejected))
      else if held.Ok? then Resolved(held.value, op.id, op.processing) else s
  {
  }

  /** The case that resolving leaves. */
  lemma ResolvedCase(s: Store, id: nat, p: Processing)
    requires id < |s.cases|
    ensures var after, c := Resolved(s, id, p), s.cases[id];
      && after.books == s.books
      && after.cases == s.cases[id := match p.resolution
           case Some(r) => c.(state := AutoResolved, outcome := Some(r.outcome), outcomeAmount := r.amount)
           case None => c.(state := EvidencePending, deadline := Some(p.deadline))]
  {
  }

  /** The case that processing leaves. */
  lemma ProcessedCase(s: Store, op: Op)
    requires op.Process? && op.id < |s.cases| && CaseShape(s.cases[op.id])
    ensures |Step(s, op).0.cases| == |s.cases|
    ensures var c, p := s.cases[op.id], op.processing;
      Step(s, op).0.cases[op.id] ==
        if c.state != Filed then c
        else if !p.valid then c.(state := Rejected)
        else if !CanHold(s.books, c, p.transaction) then c
        else match p.resolution
          case Some(r) => c.(state := AutoResolved, reserve := Some(s.books.nextSeq), outcome := Some(r.outcome),
                             outcomeAmount := r.amount)
          case None => c.(state := EvidencePending, reserve := Some(s.books.nextSeq), deadline := Some(p.deadline))
  {
    var c := s.cases[op.id];
    if c.state == Filed {
      var held := AcceptedAndHeld(s, op.id, op.processing);
      HoldsExactly(s, op.id, op.processing);
      ProcessIs(s, op, held);
      if held.Ok? {
        AcceptedParts(s, op.id, op.processing, held.value);
        ResolvedCase(held.value, op.id, op.processing);
      }
    } else {
      ProcessIdle(s, op);
    }
  }

  lemma ProcessIdle(s: Store, op: Op)
    requires op.Process? && op.id < |s.cases| && s.cases[op.id].state != Filed
    ensures Step(s, op).0 == s
  {
  }

  lemma ProcessMoves(s: Store, op: Op, id: nat, to: State)
    requires id < |s.cases| && op.Process? && op.id == id && CaseShape(s.cases[id])
    ensures GoesTo(s, op, id, to) <==> Moves(s, op, id, to)
  {
    ProcessedCase(s, op);
  }

  predicate Settleable(state: State) {
    state == AutoResolved || state == Upheld || state == PartialUpheld || state == Denied
  }

  lemma AdvanceSettles(s: Store, id: nat, c: Case)
    requires id < |s.cases| && Settleable(s.cases[id].state) && c.state == Settled
    ensures Advance(s, id, c) == Ok(WithState(s, id, c))
  {
  }

  lemma SettledIfReleased(s: Store, id: nat, tx: Transaction, outcome: Verdict, now: int,
      released: Result<Books, DisputeError>)
    requires id < |s.cases| && Settleable(s.cases[id].state)
    requires released == Released(s.books, id, s.cases[id], tx, outcome, now)
    ensures SettledWith(s, id, tx, outcome, now).Ok? <==> released.Ok?
    ensures released.Ok? ==>
      SettledWith(s, id, tx, outcome, now) == Ok(WithState(s.(books := released.value), id,
        s.cases[id].(state := Settled, release := Some(s.books.nextSeq))))
  {
    if released.Ok? {
      AdvanceSettles(s.(books := released.value), id,
        s.cases[id].(state := Settled, release := Some(s.books.nextSeq)));
    }
  }

  /** Settling succeeds exactly when the ledger takes the release. */
  lemma SettlesExactly(s: Store, id: nat, tx: Transaction, outcome: Verdict, now: int,
      r: Result<Store, DisputeError>)
    requires id < |s.cases| && Settleable(s.cases[id].state) && r == SettledWith(s, id, tx, outcome, now)
    ensures r.Ok? <==> CanRelease(s.books, s.cases[id], tx, Back(s.cases[id], outcome, s.cases[id].outcomeAmount))
    ensures r.Ok? ==> |r.value.cases| == |s.cases| && r.value.cases[id].state == Settled
  {
    SettledIfReleased(s, id, tx, outcome, now, Released(s.books, id, s.cases[id], tx, outcome, now));
    ReleasedExactly(s.books, id, s.cases[id], tx, outcome, now);
  }

  lemma AutoMoves(s: Store, op: Op, id: nat, to: State)
    requires id < |s.cases| && op.SettleAuto? && op.id == id
    ensures GoesTo(s, op, id, to) <==> Moves(s, op, id, to)
  {
    var c := s.cases[id];
    if c.state == AutoResolved && op.tx.Some? {
      var v := if c.outcome.Some? then c.outcome.value else UnknownVerdict;
      var r := SettledWith(s, id, op.tx.value, v, op.now);
      SettlesExactly(s, id, op.tx.value, v, op.now, r);
      AutoStep(s, op, id, v, r);
    } else {
      AutoIdle(s, op, id);
    }
  }

  lemma AutoIdle(s: Store, op: Op, id: nat)
    requires id < |s.cases| && op.SettleAuto? && op.id == id && (s.cases[id].state != AutoResolved || op.tx.None?)
    ensures Step(s, op).0 == s
  {
  }

  lemma AutoStep(s: Store, op: Op, id: nat, v: Verdict, r: Result<Store, DisputeError>)
    requires id < |s.cases| && op.SettleAuto? && op.id == id && s.cases[id].state == AutoResolved && op.tx.Some?
    requires v == if s.cases[id].outcome.Some? then s.cases[id].outcome.value else UnknownVerdict
    requires r == SettledWith(s, id, op.tx.value, v, op.now)
    ensures Step(s, op).0 == if r.Ok? then r.value else s
    ensures Back(s.cases[id], v, s.cases[id].outcomeAmount) == BackAutomatically(s.cases[id])
  {
    AutoIs(s, id, op.tx, op.now, v, r);
    AutoCommits(s, op, SettleAutoResult(s, id, op.tx, op.now));
  }

  lemma AutoIs(s: Store, id: nat, tx: Option<Transaction>, now: int, v: Verdict, r: Result<Store, DisputeError>)
    requires id < |s.cases| && s.cases[id].state == AutoResolved && tx.Some?
    requires v == if s.cases[id].outcome.Some? then s.cases[id].outcome.value else UnknownVerdict
    requires r == SettledWith(s, id, tx.value, v, now)
    ensures SettleAutoResult(s, id, tx, now) == r
  {
  }

  /** The checks a confirmation must pass before anything is released. */
  predicate MayConfirm(s: Store, op: Op, id: nat)
    requires op.Confirm?
  {
    id in s.decisions && (s.decisions[id].decidedBy.None? || s.decisions[id].decidedBy != op.user)
  }

  lemma ConfirmIs(s: Store, op: Op, id: nat, r: Result<Store, DisputeError>)
    requires id < |s.cases| && op.Confirm? && op.id == id && s.cases[id].release.None? && op.tx.Some?
    requires s.cases[id].state in {Upheld, PartialUpheld, Denied}
    requires r == SettledWith(s, id, op.tx.value, OutcomeOf(s.cases[id].state), op.now)
    ensures MayConfirm(s, op, id) ==> ConfirmResult(s, id, op.user, op.tx, op.now) == r
    ensures !MayConfirm(s, op, id) ==> ConfirmResult(s, id, op.user, op.tx, op.now).Err?
  {
  }

  lemma ConfirmMoves(s: Store, op: Op, id: nat, to: State)
    requires id < |s.cases| && op.Confirm? && op.id == id && CaseShape(s.cases[id])
    ensures GoesTo(s, op, id, to) <==> Moves(s, op, id, to)
  {
    var c := s.cases[id];
    if c.state in {Upheld, PartialUpheld, Denied} && op.tx.Some? {
      var r := SettledWith(s, id, op.tx.value, OutcomeOf(c.state), op.now);
      SettlesExactly(s, id, op.tx.value, OutcomeOf(c.state), op.now, r);
      ConfirmStep(s, op, id, r);
      StateGivesBack(c);
    } else {
      ConfirmIdle(s, op, id);
    }
  }

  lemma ConfirmIdle(s: Store, op: Op, id: nat)
    requires id < |s.cases| && op.Confirm? && op.id == id
    requires s.cases[id].state !in {Upheld, PartialUpheld, Denied} || op.tx.None?
    ensures Step(s, op).0 == s
  {
  }

  lemma ConfirmStep(s: Store, op: Op, id: nat, r: Result<Store, DisputeError>)
    requires id < |s.cases| && op.Confirm? && op.id == id && CaseShape(s.cases[id]) && op.tx.Some?
    requires s.cases[id].state in {Upheld, PartialUpheld, Denied}
    requires r == SettledWith(s, id, op.tx.value, OutcomeOf(s.cases[id].state), op.now)
    ensures Step(s, op).0 == if r.Ok? && MayConfirm(s, op, id) then r.value else s
  {
    ConfirmIs(s, op, id, r);
    ConfirmCommits(s, op, ConfirmResult(s, id, op.user, op.tx, op.now));
  }

  lemma OtherMoves(s: Store, op: Op, id: nat, to: State)
    requires id < |s.cases| && (op.Kill? || op.Upload? || op.Expire? || op.Decide?) && op.id == id
    ensures GoesTo(s, op, id, to) <==> Moves(s, op, id, to)
  {
  }

  lemma OwnMoves(s: Store, op: Op, id: nat, to: State)
    requires id < |s.cases| && CaseShape(s.cases[id])
    requires !op.File? && !op.Process? && !op.OpenAccount? && !op.OtherJournal? && op.id == id
    ensures GoesTo(s, op, id, to) <==> Moves(s, op, id, to)
  {
    if op.SettleAuto? {
      AutoMoves(s, op, id, to);
    } else if op.Confirm? {
      ConfirmMoves(s, op, id, to);
    } else {
      OtherMoves(s, op, id, to);
    }
  }

  lemma AnothersMoves(s: Store, op: Op, id: nat)
    requires id < |s.cases|
    requires !op.File? && !op.Process? && !op.OpenAccount? && !op.OtherJournal? && op.id != id
    ensures id < |Step(s, op).0.cases| && Step(s, op).0.cases[id] == s.cases[id]
  {
  }

  /** The state machine, read by where a case goes: it goes to another state exactly when one of the operations
      that lead there finds its conditions met. */
  lemma StateChanges(s: Store, op: Op, id: nat, to: State)
    requires id < |s.cases| && CaseShape(s.cases[id])
    ensures GoesTo(s, op, id, to) <==> Moves(s, op, id, to)
  {
    match op {
      case File(_) =>
      case Process(i, p) =>
        if i == id {
          ProcessMoves(s, op, id, to);
        } else if ProcessResult(s, i, p).Ok? {
          OtherCasesStay(s, i, p, id);
        }
      case OpenAccount(_) =>
      case OtherJournal(_) =>
      case _ =>
        if op.id == id {
          OwnMoves(s, op, id, to);
        } else {
          AnothersMoves(s, op, id);
        }
    }
  }

  /** What the one who confirms is told: nothing if the case is settled now or was before; and otherwise whether
      the case, its state, the decision, another user or the transaction is missing, or what the release met. */
  lemma ConfirmAnswers(s: Store, op: Op, error: Option<DisputeError>)
    requires op.Confirm? && error == Step(s, op).1
    ensures var id := op.id;
      if id >= |s.cases| then error == Some(NotFound)
      else if s.cases[id].state == Settled then error == None
      else if s.cases[id].state !in {Upheld, PartialUpheld, Denied} then error == Some(Conflict)
      else if s.cases[id].release.Some? then error == None
      else if id !in s.decisions then error == Some(NoDecision)
      else if s.decisions[id].decidedBy.Some? && op.user == s.decisions[id].decidedBy then error == Some(MakerChecker)
      else if op.tx.None? then error == Some(NotFound)
      else error == None <==> CanRelease(s.books, s.cases[id], op.tx.value, BackOnConfirm(s.cases[id]))
  {
    if op.id < |s.cases| && s.cases[op.id].state in {Upheld, PartialUpheld, Denied} && op.tx.Some? {
      var r := SettledWith(s, op.id, op.tx.value, OutcomeOf(s.cases[op.id].state), op.now);
      SettlesExactly(s, op.id, op.tx.value, OutcomeOf(s.cases[op.id].state), op.now, r);
      StateGivesBack(s.cases[op.id]);
    }
  }

  // ----- what is written

  /** The case as its new state leaves it. */
  predicate Rewritten(s: Store, op: Op, c: Case, d: Case) {
    match d.state
    case EvidencePending =>
      op.Process?
        && d == c.(state := d.state, reserve := Some(s.books.nextSeq), deadline := Some(op.processing.deadline))
    case AutoResolved =>
      op.Process? && op.processing.resolution.Some?
      && d == c.(state := d.state, reserve := Some(s.books.nextSeq),
                 outcome := Some(op.processing.resolution.value.outcome),
                 outcomeAmount := op.processing.resolution.value.amount)
    case Settled => d == c.(state := d.state, release := Some(s.books.nextSeq))
    case _ =>
      if op.Decide? then
        d == c.(state := d.state, outcome := Some(op.ruling.outcome), outcomeAmount := op.ruling.amount)
      else d == c.(state := d.state)
  }

  lemma ProcessWrites(s: Store, op: Op, id: nat)
    requires id < |s.cases| && op.Process? && op.id == id && CaseShape(s.cases[id])
    ensures id < |Step(s, op).0.cases|
    ensures var d := Step(s, op).0.cases[id];
      if d.state == s.cases[id].state then d == s.cases[id] else Rewritten(s, op, s.cases[id], d)
  {
    ProcessedCase(s, op);
  }

  lemma SettlementWrites(s: Store, op: Op, id: nat)
    requires id < |s.cases| && (op.SettleAuto? || op.Confirm?) && op.id == id && Step(s, op).0 != s
    ensures var d := Step(s, op).0.cases;
      |d| == |s.cases| && d[id].state == Settled != s.cases[id].state && Rewritten(s, op, s.cases[id], d[id])
    ensures Step(s, op).0.decisions == s.decisions
  {
    var tx, after := op.tx, Step(s, op).0;
    var v: Verdict;
    if op.SettleAuto? {
      v := AutoSettles(s, id, op.tx, op.now);
    } else {
      v := ConfirmationSettles(s, id, op.user, op.tx, op.now);
    }
    SettledIfReleased(s, id, op.tx.value, v, op.now, Released(s.books, id, s.cases[id], op.tx.value, v, op.now));
  }

  lemma OthersWrite(s: Store, op: Op, id: nat)
    requires id < |s.cases| && (op.Kill? || op.Upload? || op.Expire? || op.Decide?) && op.id == id
    ensures var d := Step(s, op).0.cases;
      |d| == |s.cases|
      && if d[id].state == s.cases[id].state then d[id] == s.cases[id] else Rewritten(s, op, s.cases[id], d[id])
  {
  }

  /** A case that goes nowhere is as it was, and one that goes somewhere is rewritten as its new state says. */
  lemma CaseWritten(s: Store, op: Op, id: nat)
    requires id < |s.cases| && CaseShape(s.cases[id])
    ensures id < |Step(s, op).0.cases|
    ensures var d := Step(s, op).0.cases[id];
      if d.state == s.cases[id].state then d == s.cases[id] else Rewritten(s, op, s.cases[id], d)
  {
    match op {
      case File(_) =>
      case Process(i, p) =>
        if i == id {
          ProcessWrites(s, op, id);
        } else if ProcessResult(s, i, p).Ok? {
          OtherCasesStay(s, i, p, id);
        }
      case OpenAccount(_) =>
      case OtherJournal(_) =>
      case _ =>
        if op.id != id {
          AnothersMoves(s, op, id);
        } else if op.SettleAuto? || op.Confirm? {
          if Step(s, op).0 != s {
            SettlementWrites(s, op, id);
          }
        } else {
          OthersWrite(s, op, id);
        }
    }
  }

  // ----- decisions

  /** The decision that the operation records on the case. */
  function NewDecision(s: Store, op: Op, id: nat): Option<Decision> {
    if id >= |s.cases| || id in s.decisions || id >= |Step(s, op).0.cases| then None
    else if Step(s, op).0.cases[id].state == s.cases[id].state then None
    else if op.Process? && Step(s, op).0.cases[id].state == AutoResolved && op.processing.resolution.Some? then
      Some(Decision(op.processing.resolution.value.outcome, op.processing.resolution.value.amount, None))
    else if op.Decide? then Some(Decision(op.ruling.outcome, op.ruling.amount, op.ruling.decidedBy))
    else None
  }

  lemma ProcessCommits(s: Store, op: Op, s1: Store)
    requires op.Process? && op.id < |s.cases| && s.cases[op.id].state == Filed && op.processing.valid
    requires AcceptedAndHeld(s, op.id, op.processing) == Ok(s1) && |s1.cases| == |s.cases|
    ensures Step(s, op).0 == Resolved(s1, op.id, op.processing)
  {
  }

  lemma ResolvedDecides(s: Store, id: nat, p: Processing)
    requires id < |s.cases|
    ensures var after := Resolved(s, id, p);
      && |after.cases| == |s.cases|
      && after.cases[id].state == (if p.resolution.Some? then AutoResolved else EvidencePending)
      && after.decisions == if p.resolution.Some? && id !in s.decisions then
          s.decisions[id := Decision(p.resolution.value.outcome, p.resolution.value.amount, None)]
        else s.decisions
  {
  }

  lemma ResolutionDecides(s: Store, op: Op)
    requires op.Process? && op.id < |s.cases| && CaseShape(s.cases[op.id])
    ensures |Step(s, op).0.cases| == |s.cases|
    ensures var decisions := Step(s, op).0.decisions;
      match NewDecision(s, op, op.id)
      case Some(d) => decisions == s.decisions[op.id := d]
      case None => decisions == s.decisions
  {
    if s.cases[op.id].state == Filed && op.processing.valid {
      if AcceptedAndHeld(s, op.id, op.processing).Ok? {
        var s1 := AcceptedAndHeld(s, op.id, op.processing).value;
        AcceptedParts(s, op.id, op.processing, s1);
        ProcessCommits(s, op, s1);
        ResolvedDecides(s1, op.id, op.processing);
      }
    }
  }

  lemma ProcessDecides(s: Store, op: Op, id: nat)
    requires op.Process? && op.id < |s.cases| && CaseShape(s.cases[op.id])
    ensures DecisionWritten(s, op, id)
  {
    ResolutionDecides(s, op);
    if ProcessResult(s, op.id, op.processing).Ok? && op.id != id && id < |s.cases| {
      OtherCasesStay(s, op.id, op.processing, id);
    }
  }

  /** Decisions stay, and a new one is recorded by an automatic resolution or a manual ruling. */
  predicate DecisionWritten(s: Store, op: Op, id: nat) {
    var after := Step(s, op).0.decisions;
    if id in s.decisions then id in after && after[id] == s.decisions[id]
    else match NewDecision(s, op, id)
      case Some(d) => id in after && after[id] == d
      case None => id !in after
  }

  lemma SettlementDecides(s: Store, op: Op, id: nat)
    requires op.SettleAuto? || op.Confirm?
    ensures DecisionWritten(s, op, id)
  {
    if Step(s, op).0 != s {
      SettlementWrites(s, op, op.id);
    }
  }

  lemma OthersDecide(s: Store, op: Op, id: nat)
    requires op.File? || op.Kill? || op.Upload? || op.Expire? || op.Decide? || op.OpenAccount? || op.OtherJournal?
    ensures DecisionWritten(s, op, id)
  {
  }

  lemma DecisionsExactly(s: Store, op: Op, id: nat)
    requires ShapesHold(s)
    ensures DecisionWritten(s, op, id)
  {
    if op.Process? {
      if op.id < |s.cases| {
        assert CaseShape(s.cases[op.id]);
        ProcessDecides(s, op, id);
      }
    } else if op.SettleAuto? || op.Confirm? {
      SettlementDecides(s, op, id);
    } else {
      OthersDecide(s, op, id);
    }
  }

  // ----- payment by decision, over runs

  /** What the state of a case says of its decision: a denied one was ruled against or killed. */
  predicate Ruled(s: Store, ops: seq<Op>, id: nat) {
    id < |s.cases| ==>
      var c := s.cases[id];
      match c.state
      case AutoResolved =>
        id in s.decisions && c.outcome == Some(s.decisions[id].outcome) && c.outcomeAmount == s.decisions[id].amount
      case Upheld => id in s.decisions && s.decisions[id].outcome == Uphold
      case PartialUpheld =>
        id in s.decisions && s.decisions[id].outcome == Partial && c.outcomeAmount == s.decisions[id].amount
      case Denied => Kill(id) in ops || (id in s.decisions && s.decisions[id].outcome == Reject)
      case _ => true
  }

  lemma RuledStep(s: Store, ops: seq<Op>, op: Op, id: nat)
    requires ShapesHold(s) && Ruled(s, ops, id)
    ensures Ruled(Step(s, op).0, ops + [op], id)
  {
    DecisionsExactly(s, op, id);
    if id < |s.cases| {
      assert CaseShape(s.cases[id]);
      CaseWritten(s, op, id);
      StateChanges(s, op, id, Step(s, op).0.cases[id].state);
    } else if id < |Step(s, op).0.cases| {
      NewCaseUnruled(s, op, id);
    }
  }

  lemma NewCaseUnruled(s: Store, op: Op, id: nat)
    requires id >= |s.cases| && id < |Step(s, op).0.cases|
    ensures Step(s, op).0.cases[id].state == Filed || Step(s, op).0.cases[id].state == Rejected
  {
  }

  /** No journal of another part touches the reserve. */
  ghost predicate OthersForeign(ops: seq<Op>) {
    forall i :: 0 <= i < |ops| && ops[i].OtherJournal? ==> Foreign(ops[i].input)
  }

  lemma RunShapes(s: Store, ops: seq<Op>)
    requires Sound(s) && OthersForeign(ops)
    ensures ShapesHold(Run(s, ops))
  {
    RunSound(s, ops);
  }

  lemma {:induction false} RunRuled(s: Store, ops: seq<Op>, id: nat)
    requires Sound(s) && s.cases == [] && OthersForeign(ops)
    ensures Ruled(Run(s, ops), ops, id)
  {
    if ops != [] {
      var front, op := ops[..|ops| - 1], ops[|ops| - 1];
      RunRuled(s, front, id);
      RunShapes(s, front);
      RuledStep(Run(s, front), front, op, id);
      assert front + [op] == ops;
    }
  }

  /** In every run, money that leaves the reserve goes by the recorded decision: back to the originator if it
      upholds, to the beneficiary if it rejects, to both by its share if it is partial. Only the confirmation of
      a case that an operator killed pays the beneficiary whatever was decided. */
  lemma PaidByDecision(s: Store, ops: seq<Op>, op: Op) returns (back: int)
    requires Sound(s) && s.cases == [] && OthersForeign(ops) && (op.Confirm? || op.SettleAuto?)
    requires Step(Run(s, ops), op).0 != Run(s, ops)
    ensures var t := Run(s, ops);
      && op.id < |t.cases| && op.id in t.decisions && op.tx.Some?
      && PaidOut(t.books, Step(t, op).0.books, t.cases[op.id], op.tx.value, back)
      && (Back(t.cases[op.id], t.decisions[op.id].outcome, t.decisions[op.id].amount) == Some(back)
          || (Kill(op.id) in ops && t.cases[op.id].state == Denied && back == 0))
  {
    var t, id := Run(s, ops), op.id;
    RunRuled(s, ops, id);
    RunShapes(s, ops);
    if op.Confirm? {
      ConfirmationPays(t, id, op.user, op.tx, op.now);
      ConfirmNeedsAnother(t, id, op.user, op.tx, op.now, Step(t, op).0);
      back := BackOnConfirm(t.cases[id]).value;
      ConfirmedByDecision(t, ops, id, back);
    } else {
      AutoSettlementPays(t, id, op.tx, op.now);
      var v := AutoSettles(t, id, op.tx, op.now);
      back := BackAutomatically(t.cases[id]).value;
    }
  }

  lemma ConfirmedByDecision(t: Store, ops: seq<Op>, id: nat, back: int)
    requires Ruled(t, ops, id) && id < |t.cases| && id in t.decisions && BackOnConfirm(t.cases[id]) == Some(back)
    ensures Back(t.cases[id], t.decisions[id].outcome, t.decisions[id].amount) == Some(back)
      || (Kill(id) in ops && t.cases[id].state == Denied && back == 0)
  {
  }

  // ----- filing

  /** A filing in time, under the limit, on a known transaction that was confirmed or reversed. */
  predicate FiledInTime(f: Filing) {
    && f.knownReason && f.recentFilings < 100 && f.knownParticipant && f.transaction.Some?
    && !f.transaction.value.state.TxOther?
    && (f.fileWithinDays.None? || f.ageDays <= f.fileWithinDays.value)
  }

  /** A filing that is refused but recorded: over the limit, or too late. */
  predicate RefusedOnRecord(f: Filing) {
    && f.knownReason && f.knownParticipant && f.transaction.Some?
    && (f.recentFilings >= 100
        || (!f.transaction.value.state.TxOther? && f.fileWithinDays.Some? && f.ageDays > f.fileWithinDays.value))
  }

  /** What a filing leaves: a filed case for the amount asked or the transaction's, against its beneficiary; a
      rejected one; or nothing. Only the first is answered without an error. */
  lemma FilingExactly(s: Store, f: Filing)
    ensures var (after, error) := Step(s, File(f));
      && after.books == s.books && after.decisions == s.decisions && after.evidence == s.evidence
      && s.cases <= after.cases && |after.cases| <= |s.cases| + 1 && (error.None? <==> FiledInTime(f))
      && (|after.cases| > |s.cases| <==> FiledInTime(f) || RefusedOnRecord(f))
      && (|after.cases| > |s.cases| ==>
        var c, tx := after.cases[|s.cases|], f.transaction.value;
        && (c.state == Filed <==> FiledInTime(f)) && (c.state == Rejected <==> RefusedOnRecord(f))
        && (c.state == Filed ==>
          && c.amount == (if f.amountOverride.Some? then f.amountOverride.value else tx.amount)
          && c.currency == tx.currency && c.beneficiary == tx.beneficiary)
        && (c.state == Rejected ==>
          (c.amount, c.currency) == if f.recentFilings >= 100 then (0, "XXX") else (tx.amount, tx.currency))
        && c.reserve.None? && c.release.None? && c.outcome.None?)
  {
  }

  // ----- the hold and the evidence

  /** Accepting a case moves its amount from the beneficiary's account into the reserve, and nothing else. */
  lemma ProcessingHolds(s: Store, op: Op, id: nat, a: AccountKey)
    requires op.Process? && op.id == id && id < |s.cases| && CaseShape(s.cases[id])
    requires Step(s, op).0.cases[id].state in {EvidencePending, AutoResolved} && s.cases[id].state == Filed
    ensures var c, tx := s.cases[id], op.processing.transaction;
      var owner := if tx.beneficiary == "" then c.beneficiary else tx.beneficiary;
      Balance(Step(s, op).0.books, a) == Balance(s.books, a)
        - (if a == AccountKey(ParticipantSettlement, owner, c.currency) then c.amount else 0)
        + (if a == AccountKey(RailDisputeReserve, "", c.currency) then c.amount else 0)
  {
    var c, p := s.cases[id].(state := Accepted), op.processing;
    var s1 := AcceptedAndHeld(s, id, p).value;
    AcceptedParts(s, id, p, s1);
    HoldPays(s.books, id, c.amount, c.currency, Beneficiary(p.transaction, c), p.transaction.date, p.now, s1.books, a);
  }

  lemma HoldPays(b: Books, id: nat, amount: int, currency: string, owner: string, date: string, now: int, after: Books,
      a: AccountKey)
    requires Held(b, id, amount, currency, owner, date, now) == Ok(after)
    ensures Balance(after, a) == Balance(b, a)
      - (if a == AccountKey(ParticipantSettlement, owner, currency) then amount else 0)
      + (if a == AccountKey(RailDisputeReserve, "", currency) then amount else 0)
  {
    var debit, credit := SettlementOf(owner, currency), ReserveOf(currency);
    var b1 := Opened(b, debit).value;
    var b2 := Opened(b1, credit).value;
    OpenedSame(b, debit);
    OpenedSame(b1, credit);
    JournalledEffect(b2, DisputeReserveHold, id, date, now, Pair(debit, credit, amount));
    PairNet(debit, credit, amount, a);
  }

  /** Evidence is added only by an upload to a case that waits for it or is in adjudication. */
  lemma EvidenceExactly(s: Store, op: Op)
    ensures Step(s, op).0.evidence == s.evidence +
      if op.Upload? && op.id < |s.cases| && s.cases[op.id].state in {EvidencePending, Adjudicating}
      then [Evidence(op.id, op.side)] else []
  {
    if (op.SettleAuto? || op.Confirm?) && Step(s, op).0 != s {
      SettlementEvidence(s, op);
    }
  }

  lemma SettlementEvidence(s: Store, op: Op)
    requires (op.SettleAuto? || op.Confirm?) && Step(s, op).0 != s
    ensures Step(s, op).0.evidence == s.evidence
  {
    var v: Verdict;
    if op.SettleAuto? {
      v := AutoSettles(s, op.id, op.tx, op.now);
    } else {
      v := ConfirmationSettles(s, op.id, op.user, op.tx, op.now);
    }
    SettledIfReleased(s, op.id, op.tx.value, v, op.now,
      Released(s.books, op.id, s.cases[op.id], op.tx.value, v, op.now));
  }

  // ----- the numbers in a case

  /** The journal of this number is for this case and of this kind. */
  ghost predicate NumberOf(b: Books, number: nat, reason: Reason, id: nat) {
    exists i :: 0 <= i < |b.journals| && b.journals[i].seqNo == number && b.journals[i].reason == reason
      && b.journals[i].reference == Reference(Some("dispute_case"), Some(Print(id)))
  }

  /** Journal numbers increase, and the numbers in a case are those of its own hold and its own release. */
  ghost predicate NumbersMatch(s: Store) {
    L.Numbered(s.books) && forall id: nat :: id < |s.cases| ==>
      && (s.cases[id].reserve.Some? ==> NumberOf(s.books, s.cases[id].reserve.value, DisputeReserveHold, id))
      && (s.cases[id].release.Some? ==> NumberOf(s.books, s.cases[id].release.value, DisputeReserveRelease, id))
  }

  /** One journal, of this reason and for this case, under the next number. */
  predicate PostsFor(b: Books, after: Books, reason: Reason, id: nat) {
    && |after.journals| == |b.journals| + 1 && L.PostsOne(b, after)
    && after.journals[|b.journals|].reason == reason
    && after.journals[|b.journals|].reference == Reference(Some("dispute_case"), Some(Print(id)))
  }

  lemma HoldPosts(b: Books, id: nat, amount: int, currency: string, owner: string, date: string, now: int,
      after: Books)
    requires Held(b, id, amount, currency, owner, date, now) == Ok(after)
    ensures PostsFor(b, after, DisputeReserveHold, id)
  {
    var b1 := Opened(b, SettlementOf(owner, currency)).value;
    OpenedSame(b, SettlementOf(owner, currency));
    OpenedSame(b1, ReserveOf(currency));
  }

  lemma ReleasePosts(b: Books, id: nat, c: Case, tx: Transaction, outcome: Verdict, now: int, after: Books)
    requires Released(b, id, c, tx, outcome, now) == Ok(after)
    ensures PostsFor(b, after, DisputeReserveRelease, id)
  {
    var b1 := ReleaseAccounts(b, c, tx).value;
    AccountsOpened(b, c, tx, b1, ReserveOf(c.currency));
  }

  /** A number once given keeps its journal, and a new journal takes the next one. */
  lemma NumbersStay(b: Books, after: Books, number: nat, reason: Reason, id: nat)
    requires b.journals <= after.journals && NumberOf(b, number, reason, id)
    ensures NumberOf(after, number, reason, id)
  {
    var i :| 0 <= i < |b.journals| && b.journals[i].seqNo == number && b.journals[i].reason == reason
      && b.journals[i].reference == Reference(Some("dispute_case"), Some(Print(id)));
    assert after.journals[i] == b.journals[i];
  }

  /** What a step posts: the hold of the case it accepts, the release of the case it settles, or at most one
      journal of no case's. */
  lemma StepPosts(s: Store, op: Op)
    requires ShapesHold(s)
    ensures L.PostsOne(s.books, Step(s, op).0.books)
    ensures op.Process? && op.id < |s.cases| && Step(s, op).0.cases[op.id].reserve != s.cases[op.id].reserve ==>
      PostsFor(s.books, Step(s, op).0.books, DisputeReserveHold, op.id)
    ensures (op.SettleAuto? || op.Confirm?) && Step(s, op).0 != s ==>
      PostsFor(s.books, Step(s, op).0.books, DisputeReserveRelease, op.id)
  {
    var after := Step(s, op).0;
    if op.Process? {
      if op.id < |s.cases| {
        assert CaseShape(s.cases[op.id]);
        ProcessPosts(s, op);
      }
    } else if op.SettleAuto? || op.Confirm? {
      if after != s {
        SettlementPosts(s, op);
      }
    }
  }

  lemma ProcessPosts(s: Store, op: Op)
    requires op.Process? && op.id < |s.cases| && CaseShape(s.cases[op.id])
    ensures |Step(s, op).0.cases| == |s.cases| && L.PostsOne(s.books, Step(s, op).0.books)
    ensures Step(s, op).0.cases[op.id].reserve != s.cases[op.id].reserve ==>
      PostsFor(s.books, Step(s, op).0.books, DisputeReserveHold, op.id)
  {
    var p, c := op.processing, s.cases[op.id].(state := Accepted);
    if s.cases[op.id].state == Filed && p.valid {
      if AcceptedAndHeld(s, op.id, p).Ok? {
        var s1 := AcceptedAndHeld(s, op.id, p).value;
        AcceptedParts(s, op.id, p, s1);
        ProcessCommits(s, op, s1);
        HoldPosts(s.books, op.id, c.amount, c.currency, Beneficiary(p.transaction, c), p.transaction.date, p.now,
          s1.books);
      }
    }
  }

  lemma SettlementPosts(s: Store, op: Op)
    requires (op.SettleAuto? || op.Confirm?) && Step(s, op).0 != s
    ensures PostsFor(s.books, Step(s, op).0.books, DisputeReserveRelease, op.id)
  {
    var v: Verdict;
    if op.SettleAuto? {
      v := AutoSettles(s, op.id, op.tx, op.now);
    } else {
      v := ConfirmationSettles(s, op.id, op.user, op.tx, op.now);
    }
    var after := Step(s, op).0;
    SettledBooks(s, op.id, op.tx.value, v, op.now, after);
    ReleasePosts(s.books, op.id, s.cases[op.id], op.tx.value, v, op.now, after.books);
  }

  lemma PostedNumber(b: Books, after: Books, reason: Reason, id: nat)
    requires PostsFor(b, after, reason, id)
    ensures NumberOf(after, b.nextSeq, reason, id)
  {
    assert after.journals[|b.journals|].seqNo == b.nextSeq;
  }

  lemma CaseNumbers(s: Store, op: Op, id: nat)
    requires ShapesHold(s) && NumbersMatch(s) && id < |s.cases| && s.books.journals <= Step(s, op).0.books.journals
    ensures id < |Step(s, op).0.cases|
    ensures var c, b := Step(s, op).0.cases[id], Step(s, op).0.books;
      && (c.reserve.Some? ==> NumberOf(b, c.reserve.value, DisputeReserveHold, id))
      && (c.release.Some? ==> NumberOf(b, c.release.value, DisputeReserveRelease, id))
  {
    var c, after := s.cases[id], Step(s, op).0;
    assert CaseShape(c);
    CaseWritten(s, op, id);
    StepPosts(s, op);
    StateChanges(s, op, id, after.cases[id].state);
    if c.reserve.Some? {
      NumbersStay(s.books, after.books, c.reserve.value, DisputeReserveHold, id);
    }
    if c.release.Some? {
      NumbersStay(s.books, after.books, c.release.value, DisputeReserveRelease, id);
    }
    if after.cases[id].reserve != c.reserve {
      PostedNumber(s.books, after.books, DisputeReserveHold, id);
    }
    if after.cases[id].release != c.release {
      PostedNumber(s.books, after.books, DisputeReserveRelease, id);
    }
  }

  lemma NewCaseNumbers(s: Store, op: Op, id: nat)
    requires id >= |s.cases| && id < |Step(s, op).0.cases|
    ensures Step(s, op).0.cases[id].reserve.None? && Step(s, op).0.cases[id].release.None?
  {
  }

  /** In every run a case's numbers name its own journals. */
  lemma {:induction false} RunNumbers(s: Store, ops: seq<Op>)
    requires Sound(s) && NumbersMatch(s) && OthersForeign(ops)
    ensures NumbersMatch(Run(s, ops))
  {
    if ops != [] {
      var front, op := ops[..|ops| - 1], ops[|ops| - 1];
      var t := Run(s, front);
      RunNumbers(s, front);
      RunSound(s, front);
      StepPosts(t, op);
      L.PostsOneNumbered(t.books, Run(s, ops).books);
      forall id: nat | id < |Run(s, ops).cases|
        ensures var c, b := Run(s, ops).cases[id], Run(s, ops).books;
          && (c.reserve.Some? ==> NumberOf(b, c.reserve.value, DisputeReserveHold, id))
          && (c.release.Some? ==> NumberOf(b, c.release.value, DisputeReserveRelease, id))
      {
        if id < |t.cases| {
          CaseNumbers(t, op, id);
        } else {
          NewCaseNumbers(t, op, id);
        }
      }
    }
  }
}
