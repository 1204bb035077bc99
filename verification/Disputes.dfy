/** Dispute cases and the reserve they hold (modules/disputes). `Store` is the content of the tables;
    each operation is one database transaction, and its function gives the committed store together
    with the error the caller sees. The class `Desk` updates the tables step by step. */
module Disputes {
  import opened Text
  import opened Ledger
  import opened Transfers

  datatype State =
    | Filed | Accepted | EvidencePending | Adjudicating | AutoResolved
    | Upheld | PartialUpheld | Denied | Rejected | Settled

  predicate IsTerminal(s: State) {
    s == Rejected || s == Settled
  }

  /** TRANSITIONS */
  predicate CanTransition(from: State, to: State) {
    match from
    case Filed => to == Accepted || to == Rejected || to == Denied
    case Accepted => to == EvidencePending || to == AutoResolved || to == Denied
    case EvidencePending => to == Adjudicating || to == Denied
    case Adjudicating => to == Upheld || to == Denied || to == PartialUpheld
    case AutoResolved => to == Settled
    case Upheld => to == Settled
    case PartialUpheld => to == Settled
    case Denied => to == Settled
    case _ => false
  }

  datatype Verdict = Uphold | Reject | Partial | UnknownVerdict

  datatype Case = Case(
    state: State, amount: int, currency: string, beneficiary: string,
    reserve: Option<nat>, release: Option<nat>, outcome: Option<Verdict>, outcomeAmount: Option<int>,
    deadline: Option<int>)

  /** A status history row. */
  datatype Row = Row(caseId: nat, from: Option<State>, to: State)

  datatype Decision = Decision(outcome: Verdict, amount: Option<int>, decidedBy: Option<string>)

  datatype Party = Filer | Responder | OtherParty

  datatype Evidence = Evidence(caseId: nat, side: Party)

  datatype TransactionState = TxConfirmed | TxReversed | TxOther

  /** The disputed transaction, as the transactions service returns it. */
  datatype Transaction = Transaction(state: TransactionState, amount: int, currency: string, originator: string,
    beneficiary: string, date: string)

  datatype Store = Store(
    cases: seq<Case>, history: seq<Row>, decisions: map<nat, Decision>, evidence: seq<Evidence>, books: Books)

  datatype DisputeError =
    | NotFound | Conflict | ValidationFailed | RateLimited | WindowExpired | NoDecision | MakerChecker
    | ForeignKey
    | LedgerFailed(error: LedgerError)

  const MAX_PER_CUSTOMER := 100

  function ReserveOf(currency: string): AccountKey {
    AccountKey(RailDisputeReserve, "", currency)
  }

  function SettlementOf(owner: string, currency: string): AccountKey {
    AccountKey(ParticipantSettlement, owner, currency)
  }

  function CaseReference(id: nat): Reference {
    Reference(Some("dispute_case"), Some(Print(id)))
  }

  // ----- state changes

  /** The row of a case replaced, and a history row for its change of state. */
  function WithState(s: Store, id: nat, c: Case): Store
    requires id < |s.cases|
  {
    s.(cases := s.cases[id := c], history := s.history + [Row(id, Some(s.cases[id].state), c.state)])
  }

  /** `transition`: the new row is written unless the case is already in that state. */
  function Advance(s: Store, id: nat, c: Case): Result<Store, DisputeError> {
    if id >= |s.cases| then Err(NotFound)
    else if s.cases[id].state == c.state then Ok(s)
    else if IsTerminal(s.cases[id].state) then Err(Conflict)
    else if !CanTransition(s.cases[id].state, c.state) then Err(Conflict)
    else Ok(WithState(s, id, c))
  }

  /** A transaction that throws is rolled back. */
  function Committed(s: Store, r: Result<Store, DisputeError>): (Store, Option<DisputeError>) {
    match r
    case Ok(s') => (s', None)
    case Err(e) => (s, Some(e))
  }

  function Opened(b: Books, key: AccountKey): Result<Books, DisputeError> {
    match WithAccount(b, key)
    case Ok(b') => Ok(b')
    case Err(e) => Err(LedgerFailed(e))
  }

  function Journalled(b: Books, reason: Reason, id: nat, date: string, now: int, lines: seq<Line>):
      Result<Books, DisputeError> {
    match Moved(b, reason, CaseReference(id), date, now, lines)
    case Ok(b') => Ok(b')
    case Err(e) => Err(LedgerFailed(e))
  }

  // ----- filing

  /** A request to file: whether its filing participant is in the participants table, and the transaction
      it names if that is in the transactions table. */
  datatype Filing = Filing(
    knownReason: bool, recentFilings: nat, knownParticipant: bool, transaction: Option<Transaction>, ageDays: int,
    fileWithinDays: Option<int>, amountOverride: Option<int>)

  function NewCase(state: State, amount: int, currency: string, beneficiary: string): Case {
    Case(state, amount, currency, beneficiary, None, None, None, None, None)
  }

  function Inserted(s: Store, c: Case, from: Option<State>): Store {
    s.(cases := s.cases + [c], history := s.history + [Row(|s.cases|, from, c.state)])
  }

  /** The case's row refers to a participant and a transaction, and cannot be inserted without them. */
  predicate Insertable(f: Filing) {
    f.knownParticipant && f.transaction.Some?
  }

  /** A case to insert, and the error for the caller; when it cannot be inserted the caller sees that. */
  function Attempted(f: Filing, c: Case, error: Option<DisputeError>): (Option<Case>, Option<DisputeError>) {
    if Insertable(f) then (Some(c), error) else (None, Some(ForeignKey))
  }

  /** The case a filing leaves behind, if any, and the error its caller sees: a filing over the rate limit
      or too late is refused and leaves a rejected case. */
  function FilingOf(f: Filing): (Option<Case>, Option<DisputeError>) {
    if !f.knownReason then (None, Some(ValidationFailed))
    else if f.recentFilings >= MAX_PER_CUSTOMER then Attempted(f, NewCase(Rejected, 0, "XXX", ""), Some(RateLimited))
    else match f.transaction
      case None => (None, Some(NotFound))
      case Some(tx) =>
        if tx.state.TxOther? then (None, Some(Conflict))
        else if f.fileWithinDays.Some? && f.ageDays > f.fileWithinDays.value then
          Attempted(f, NewCase(Rejected, tx.amount, tx.currency, ""), Some(WindowExpired))
        else
          var amount := if f.amountOverride.Some? then f.amountOverride.value else tx.amount;
          Attempted(f, NewCase(Filed, amount, tx.currency, tx.beneficiary), None)
  }

  /** The history row of a new case: a rejected one is recorded as filed before. */
  function Origin(c: Case): Option<State> {
    if c.state == Filed then None else Some(Filed)
  }

  /** `file` */
  function FileStep(s: Store, f: Filing): (Store, Option<DisputeError>) {
    var (filed, error) := FilingOf(f);
    (if filed.Some? then Inserted(s, filed.value, Origin(filed.value)) else s, error)
  }

  // ----- processing

  datatype Resolution = Resolution(outcome: Verdict, amount: Option<int>)

  /** What validation and the auto-resolver answer. */
  datatype Processing = Processing(valid: bool, transaction: Transaction, resolution: Option<Resolution>,
    deadline: int, now: int)

  /** `holdAmount`: the beneficiary's settlement account is debited into the reserve. */
  function Held(b: Books, id: nat, amount: int, currency: string, beneficiary: string, date: string, now: int):
      Result<Books, DisputeError> {
    var b1 :- Opened(b, SettlementOf(beneficiary, currency));
    var b2 :- Opened(b1, ReserveOf(currency));
    Journalled(b2, DisputeReserveHold, id, date, now,
      Pair(SettlementOf(beneficiary, currency), ReserveOf(currency), amount))
  }

  /** What `holdAmount` answers: the hold journal, posted now or before, and the books. */
  function HoldResult(s: Store, id: nat, amount: int, currency: string, beneficiary: string, date: string, now: int):
    Result<(nat, Books), DisputeError>
  {
    if id >= |s.cases| then Err(NotFound)
    else if s.cases[id].state != Accepted then Err(Conflict)
    else if s.cases[id].reserve.Some? then Ok((s.cases[id].reserve.value, s.books))
    else
      var books :- Held(s.books, id, amount, currency, beneficiary, date, now);
      Ok((s.books.nextSeq, books))
  }

  function Beneficiary(tx: Transaction, c: Case): string {
    if tx.beneficiary != "" then tx.beneficiary else c.beneficiary
  }

  /** The store once the case is accepted and its reserve held. */
  function AcceptedAndHeld(s: Store, id: nat, p: Processing): Result<Store, DisputeError>
    requires id < |s.cases|
  {
    var c := s.cases[id].(state := Accepted);
    var s1 := WithState(s, id, c);
    if c.reserve.Some? then Ok(s1) else
    var books :- Held(s1.books, id, c.amount, c.currency, Beneficiary(p.transaction, c), p.transaction.date, p.now);
    Ok(s1.(cases := s1.cases[id := c.(reserve := Some(s1.books.nextSeq))], books := books))
  }

  function Decided(s: Store, id: nat, d: Decision): Store {
    if id in s.decisions then s else s.(decisions := s.decisions[id := d])
  }

  /** What follows acceptance: an automatic resolution, or the wait for evidence. */
  function Resolved(s: Store, id: nat, p: Processing): Store
    requires id < |s.cases|
  {
    var c := s.cases[id];
    match p.resolution
    case Some(r) =>
      WithState(Decided(s, id, Decision(r.outcome, r.amount, None)), id,
                c.(state := AutoResolved, outcome := Some(r.outcome), outcomeAmount := r.amount))
    case None => WithState(s, id, c.(state := EvidencePending, deadline := Some(p.deadline)))
  }

  /** `processFiled` */
  function ProcessResult(s: Store, id: nat, p: Processing): Result<Store, DisputeError> {
    if id >= |s.cases| then Err(NotFound)
    else if s.cases[id].state != Filed then Ok(s)
    else if !p.valid then Ok(WithState(s, id, s.cases[id].(state := Rejected)))
    else
      var s1 :- AcceptedAndHeld(s, id, p);
      Ok(Resolved(s1, id, p))
  }

  /** `operatorKill` */
  function KillResult(s: Store, id: nat): Result<Store, DisputeError> {
    if id >= |s.cases| then Err(NotFound)
    else if IsTerminal(s.cases[id].state) then Err(Conflict)
    else Ok(WithState(s, id, s.cases[id].(state := Denied)))
  }

  // ----- evidence and decision

  predicate HasSide(evidence: seq<Evidence>, id: nat, side: Party) {
    Evidence(id, side) in evidence
  }

  /** `upload` */
  function UploadResult(s: Store, id: nat, side: Party): Result<Store, DisputeError> {
    if id >= |s.cases| then Err(NotFound)
    else if s.cases[id].state != EvidencePending && s.cases[id].state != Adjudicating then Err(Conflict)
    else
      var s1 := s.(evidence := s.evidence + [Evidence(id, side)]);
      if s.cases[id].state == EvidencePending && HasSide(s1.evidence, id, Filer)
        && HasSide(s1.evidence, id, Responder) then
        Advance(s1, id, s.cases[id].(state := Adjudicating))
      else Ok(s1)
  }

  /** `expireWindowAndAdvance` */
  function ExpireResult(s: Store, id: nat, now: int): Result<Store, DisputeError> {
    if id >= |s.cases| then Err(NotFound)
    else if s.cases[id].state != EvidencePending then Ok(s)
    else if s.cases[id].deadline.Some? && now < s.cases[id].deadline.value then Ok(s)
    else Advance(s, id, s.cases[id].(state := Adjudicating))
  }

  datatype Ruling = Ruling(outcome: Verdict, knownRationale: bool, amount: Option<int>, decidedBy: Option<string>)

  /** `stateForOutcome` */
  function StateFor(outcome: Verdict): State
    requires !outcome.UnknownVerdict?
  {
    match outcome
    case Uphold => Upheld
    case Reject => Denied
    case Partial => PartialUpheld
  }

  /** `validateManualDecision` finds nothing wrong. */
  predicate ValidRuling(r: Ruling, caseAmount: int) {
    && !r.outcome.UnknownVerdict?
    && r.knownRationale
    && (r.outcome.Partial? ==> r.amount.Some? && 0 < r.amount.value < caseAmount)
  }

  /** `decideManually` */
  function DecideResult(s: Store, id: nat, r: Ruling): Result<Store, DisputeError> {
    if id >= |s.cases| then Err(NotFound)
    else if s.cases[id].state != Adjudicating then Err(Conflict)
    else if !ValidRuling(r, s.cases[id].amount) then Err(ValidationFailed)
    else if id in s.decisions then Err(Conflict)
    else
      var s1 := Decided(s, id, Decision(r.outcome, r.amount, r.decidedBy));
      Advance(s1, id, s.cases[id].(state := StateFor(r.outcome), outcome := Some(r.outcome), outcomeAmount := r.amount))
  }

  // ----- settlement

  /** The lines of the release journal: the whole amount leaves the reserve, for the originator, the
      beneficiary, or both. */
  function ReleaseLines(c: Case, tx: Transaction, outcome: Verdict, share: Option<int>):
      Result<seq<Line>, DisputeError> {
    var reserve, originator, beneficiary :=
      ReserveOf(c.currency), SettlementOf(tx.originator, c.currency), SettlementOf(tx.beneficiary, c.currency);
    match outcome
    case Uphold => Ok(Pair(reserve, originator, c.amount))
    case Reject => Ok(Pair(reserve, beneficiary, c.amount))
    case Partial =>
      if share.None? then Err(ValidationFailed)
      else if share.value <= 0 || share.value >= c.amount then Err(ValidationFailed)
      else Ok([Line(reserve, DR, c.amount), Line(originator, CR, share.value),
        Line(beneficiary, CR, c.amount - share.value)])
    case UnknownVerdict => Err(ValidationFailed)
  }

  /** The accounts that a release may pay. */
  function ReleaseAccounts(b: Books, c: Case, tx: Transaction): Result<Books, DisputeError> {
    var b1 :- Opened(b, ReserveOf(c.currency));
    var b2 :- Opened(b1, SettlementOf(tx.originator, c.currency));
    Opened(b2, SettlementOf(tx.beneficiary, c.currency))
  }

  /** `postReleaseJournal` */
  function Released(b: Books, id: nat, c: Case, tx: Transaction, outcome: Verdict, now: int):
      Result<Books, DisputeError> {
    var b1 :- ReleaseAccounts(b, c, tx);
    var lines :- ReleaseLines(c, tx, outcome, c.outcomeAmount);
    Journalled(b1, DisputeReserveRelease, id, tx.date, now, lines)
  }

  /** The release journal posted and the case settled. */
  function SettledWith(s: Store, id: nat, tx: Transaction, outcome: Verdict, now: int): Result<Store, DisputeError>
    requires id < |s.cases|
  {
    var c := s.cases[id];
    var books :- Released(s.books, id, c, tx, outcome, now);
    Advance(s.(books := books), id, c.(state := Settled, release := Some(s.books.nextSeq)))
  }

  /** `settleAutoResolved` */
  function SettleAutoResult(s: Store, id: nat, tx: Option<Transaction>, now: int): Result<Store, DisputeError> {
    if id >= |s.cases| then Err(NotFound)
    else if s.cases[id].state == Settled then Ok(s)
    else if s.cases[id].state != AutoResolved then Err(Conflict)
    else if tx.None? then Err(NotFound)
    else
      var outcome := s.cases[id].outcome;
      SettledWith(s, id, tx.value, if outcome.Some? then outcome.value else UnknownVerdict, now)
  }

  function OutcomeOf(state: State): Verdict {
    if state == Upheld then Uphold else if state == Denied then Reject else Partial
  }

  /** `confirmSettlement` */
  function ConfirmResult(s: Store, id: nat, user: Option<string>, tx: Option<Transaction>, now: int):
      Result<Store, DisputeError> {
    if id >= |s.cases| then Err(NotFound)
    else if s.cases[id].state == Settled then Ok(s)
    else if s.cases[id].state !in {Upheld, PartialUpheld, Denied} then Err(Conflict)
    else if s.cases[id].release.Some? then Ok(s)
    else if id !in s.decisions then Err(NoDecision)
    else if s.decisions[id].decidedBy.Some? && s.decisions[id].decidedBy == user then Err(MakerChecker)
    else if tx.None? then Err(NotFound)
    else SettledWith(s, id, tx.value, OutcomeOf(s.cases[id].state), now)
  }

  // ----- everything that can happen

  datatype Op =
    | File(filing: Filing)
    | Process(id: nat, processing: Processing)
    | Kill(id: nat)
    | Upload(id: nat, side: Party)
    | Expire(id: nat, now: int)
    | Decide(id: nat, ruling: Ruling)
    | SettleAuto(id: nat, tx: Option<Transaction>, now: int)
    | Confirm(id: nat, user: Option<string>, tx: Option<Transaction>, now: int)
    | OpenAccount(key: AccountKey)
    | OtherJournal(input: JournalInput)

  /** A journal that other parts of the rail post: it neither touches the reserve nor is for a case. */
  predicate Foreign(input: JournalInput) {
    && !input.reason.DisputeReserveHold? && !input.reason.DisputeReserveRelease?
    && forall i :: 0 <= i < |input.entries| ==> !input.entries[i].account.kind.RailDisputeReserve?
  }

  function OpenResult(s: Store, key: AccountKey): Result<Store, DisputeError> {
    match WithAccount(s.books, key)
    case Ok(b) => Ok(s.(books := b))
    case Err(e) => Err(LedgerFailed(e))
  }

  function JournalResult(s: Store, input: JournalInput): Result<Store, DisputeError> {
    match Posted(s.books, input)
    case Ok(b) => Ok(s.(books := b))
    case Err(e) => Err(LedgerFailed(e))
  }

  function Step(s: Store, op: Op): (Store, Option<DisputeError>) {
    match op
    case File(f) => FileStep(s, f)
    case Process(id, p) => Committed(s, ProcessResult(s, id, p))
    case Kill(id) => Committed(s, KillResult(s, id))
    case Upload(id, side) => Committed(s, UploadResult(s, id, side))
    case Expire(id, now) => Committed(s, ExpireResult(s, id, now))
    case Decide(id, r) => Committed(s, DecideResult(s, id, r))
    case SettleAuto(id, tx, now) => Committed(s, SettleAutoResult(s, id, tx, now))
    case Confirm(id, user, tx, now) => Committed(s, ConfirmResult(s, id, user, tx, now))
    case OpenAccount(key) => Committed(s, OpenResult(s, key))
    case OtherJournal(input) => Committed(s, JournalResult(s, input))
  }

  function Run(s: Store, ops: seq<Op>): Store {
    if ops == [] then s else Step(Run(s, ops[..|ops| - 1]), ops[|ops| - 1]).0
  }
}
