/** Escrow holds (modules/overlays-escrow). `Store` is the content of the tables, and each operation's
    function gives the store that its transaction commits. */
module Escrow {
  import opened Text
  import opened Ledger
  import opened Transfers

  datatype State = Initiated | Held | Released | Refunded | Cancelled

  predicate IsTerminal(s: State) {
    s == Released || s == Refunded || s == Cancelled
  }

  /** TRANSITIONS */
  predicate CanTransition(from: State, to: State) {
    match from
    case Initiated => to == Held || to == Cancelled
    case Held => to == Released || to == Refunded || to == Cancelled
    case _ => false
  }

  datatype Condition = BothSignatures | TimeElapsed | PayerRelease | ArbiterRelease | OtherCondition(name: string)

  datatype Hold = Hold(
    state: State, payer: string, payee: string, amount: int, currency: string, condition: Condition,
    releaseAt: Option<int>, arbiter: Option<string>, payerSigned: bool, payeeSigned: bool, releasedAt: Option<int>)

  datatype Store = Store(holds: seq<Hold>, books: Books)

  datatype EscrowError = NotFound | Conflict | ValidationFailed | NotArbiter | LedgerFailed(error: LedgerError)

  /** The time of a call, and the day it falls on. */
  datatype Clock = Clock(now: int, today: string)

  datatype Signer = Payer | Payee | OtherSigner

  function EscrowOf(currency: string): AccountKey {
    AccountKey(RailEscrow, "", currency)
  }

  function SettlementOf(owner: string, currency: string): AccountKey {
    AccountKey(ParticipantSettlement, owner, currency)
  }

  function HoldReference(id: nat): Reference {
    Reference(Some("escrow_hold"), Some(Print(id)))
  }

  function Opened(b: Books, key: AccountKey): Result<Books, EscrowError> {
    match WithAccount(b, key)
    case Ok(b') => Ok(b')
    case Err(e) => Err(LedgerFailed(e))
  }

  /** `ensureAccounts` */
  function AccountsOpened(b: Books, payer: string, payee: string, currency: string): Result<Books, EscrowError> {
    var b1 :- Opened(b, SettlementOf(payer, currency));
    var b2 :- Opened(b1, SettlementOf(payee, currency));
    Opened(b2, EscrowOf(currency))
  }

  /** `postJournal` */
  function Journalled(b: Books, reason: Reason, id: nat, e: Hold, from: AccountKey, to: AccountKey, clock: Clock):
      Result<Books, EscrowError> {
    match Moved(b, reason, HoldReference(id), clock.today, clock.now, Pair(from, to, e.amount))
    case Ok(b') => Ok(b')
    case Err(error) => Err(LedgerFailed(error))
  }

  datatype Terms = Terms(
    payerKnown: bool, payeeKnown: bool, payer: string, payee: string, amount: int, currency: string,
    condition: Condition, releaseAt: Option<int>, arbiter: Option<string>)

  function NewHold(t: Terms): Hold {
    Hold(Initiated, t.payer, t.payee, t.amount, t.currency, t.condition, t.releaseAt, t.arbiter, false, false, None)
  }

  /** `create`: the row is inserted as initiated and is held before the transaction ends. */
  function CreateResult(s: Store, t: Terms, clock: Clock): Result<Store, EscrowError> {
    if !t.payerKnown || !t.payeeKnown then Err(NotFound)
    else if t.condition.TimeElapsed? && t.releaseAt.None? then Err(ValidationFailed)
    else if t.condition.ArbiterRelease? && t.arbiter.None? then Err(ValidationFailed)
    else
      var id, row := |s.holds|, NewHold(t);
      var b1 :- AccountsOpened(s.books, t.payer, t.payee, t.currency);
      var b2 :- Journalled(b1, EscrowHold, id, row, SettlementOf(t.payer, t.currency), EscrowOf(t.currency), clock);
      Ok(Store(s.holds + [row.(state := Held)], b2))
  }

  /** `releaseInternal` from the row `e`, which need not be what the table holds now. */
  function ReleaseResult(s: Store, id: nat, e: Hold, clock: Clock): Result<Store, EscrowError>
    requires id < |s.holds|
  {
    if !CanTransition(e.state, Released) then Err(Conflict)
    else
      var books :- Journalled(s.books, EscrowRelease, id, e, EscrowOf(e.currency), SettlementOf(e.payee, e.currency),
        clock);
      Ok(Store(s.holds[id := s.holds[id].(state := Released, releasedAt := Some(clock.now))], books))
  }

  /** `refundInternal` */
  function RefundResult(s: Store, id: nat, clock: Clock): Result<Store, EscrowError>
    requires id < |s.holds|
  {
    var e := s.holds[id];
    if !CanTransition(e.state, Refunded) then Err(Conflict)
    else
      var books :- Journalled(s.books, EscrowRelease, id, e, EscrowOf(e.currency), SettlementOf(e.payer, e.currency),
        clock);
      Ok(Store(s.holds[id := e.(state := Refunded)], books))
  }

  function Signed(e: Hold, signer: Signer): Hold {
    if signer.Payer? then e.(payerSigned := true) else e.(payeeSigned := true)
  }

  /** `sign`: the second signature releases. */
  function SignResult(s: Store, id: nat, signer: Signer, clock: Clock): Result<Store, EscrowError> {
    if id >= |s.holds| then Err(NotFound)
    else if s.holds[id].state != Held then Err(Conflict)
    else if !s.holds[id].condition.BothSignatures? then Err(Conflict)
    else if signer.OtherSigner? then Err(ValidationFailed)
    else
      var e := Signed(s.holds[id], signer);
      var s1 := s.(holds := s.holds[id := e]);
      if e.payerSigned && e.payeeSigned then ReleaseResult(s1, id, e, clock) else Ok(s1)
  }

  /** `payerRelease`. Who calls it is not checked here. */
  function PayerReleaseResult(s: Store, id: nat, clock: Clock): Result<Store, EscrowError> {
    if id >= |s.holds| then Err(NotFound)
    else if !s.holds[id].condition.PayerRelease? then Err(Conflict)
    else ReleaseResult(s, id, s.holds[id], clock)
  }

  /** `arbiterRelease` */
  function ArbiterReleaseResult(s: Store, id: nat, user: Option<string>, clock: Clock): Result<Store, EscrowError> {
    if id >= |s.holds| then Err(NotFound)
    else if !s.holds[id].condition.ArbiterRelease? then Err(Conflict)
    else if s.holds[id].arbiter != user then Err(NotArbiter)
    else ReleaseResult(s, id, s.holds[id], clock)
  }

  /** `refund` */
  function RefundByPayer(s: Store, id: nat, clock: Clock): Result<Store, EscrowError> {
    if id >= |s.holds| then Err(NotFound) else RefundResult(s, id, clock)
  }

  /** `cancel`: a held escrow is refunded. */
  function CancelResult(s: Store, id: nat, clock: Clock): Result<Store, EscrowError> {
    if id >= |s.holds| then Err(NotFound)
    else if IsTerminal(s.holds[id].state) then Err(Conflict)
    else if s.holds[id].state == Initiated then Ok(s.(holds := s.holds[id := s.holds[id].(state := Cancelled)]))
    else RefundResult(s, id, clock)
  }

  /** A row the worker picks. */
  predicate IsDue(e: Hold, now: int) {
    e.state == Held && e.condition.TimeElapsed? && e.releaseAt.Some? && e.releaseAt.value <= now
  }

  const TICK_LIMIT := 100

  /** What `pickDueTimeElapsed` may return: due rows, each once, earliest first; a due row that is not among
      them comes no earlier than any of them, and the limit is reached. */
  ghost predicate Picked(holds: seq<Hold>, now: int, due: seq<nat>) {
    && |due| <= TICK_LIMIT
    && (forall k :: 0 <= k < |due| ==> due[k] < |holds| && IsDue(holds[due[k]], now))
    && (forall j, k :: 0 <= j < k < |due| ==>
      due[j] != due[k] && holds[due[j]].releaseAt.value <= holds[due[k]].releaseAt.value)
    && (forall id: nat :: id < |holds| && IsDue(holds[id], now) && id !in due ==>
      |due| == TICK_LIMIT && forall k :: 0 <= k < |due| ==>
        holds[due[k]].releaseAt.value <= holds[id].releaseAt.value)
  }

  /** One release, in its own transaction: one that fails changes nothing. */
  function Attempted(s: Store, id: nat, e: Hold, clock: Clock): (after: Store)
    requires id < |s.holds|
    ensures |after.holds| == |s.holds|
  {
    Committed(s, ReleaseResult(s, id, e, clock)).0
  }

  /** The releases of a tick from the k-th on, each from the row picked, each in its own transaction. */
  function TickFrom(s: Store, rows: seq<Hold>, due: seq<nat>, k: nat, clock: Clock): Store
    requires k <= |due| == |rows| && InTable(due, |s.holds|)
    decreases |due| - k
  {
    if k == |due| then s else TickFrom(Attempted(s, due[k], rows[k], clock), rows, due, k + 1, clock)
  }

  predicate InTable(due: seq<nat>, size: nat) {
    forall i :: 0 <= i < |due| ==> due[i] < size
  }

  function RowsOf(s: Store, due: seq<nat>): (rows: seq<Hold>)
    requires InTable(due, |s.holds|)
    ensures |rows| == |due|
  {
    seq(|due|, i requires 0 <= i < |due| => s.holds[due[i]])
  }

  /** `tick` with no other step between the pick and the releases. */
  function TickResult(s: Store, due: seq<nat>, clock: Clock): Store {
    if InTable(due, |s.holds|) then TickFrom(s, RowsOf(s, due), due, 0, clock) else s
  }

  // ----- everything that can happen

  datatype Op =
    | Create(terms: Terms, clock: Clock)
    | Sign(id: nat, signer: Signer, clock: Clock)
    | ReleaseByPayer(id: nat, clock: Clock)
    | ReleaseByArbiter(id: nat, user: Option<string>, clock: Clock)
    | Refund(id: nat, clock: Clock)
    | Cancel(id: nat, clock: Clock)
    | Tick(due: seq<nat>, clock: Clock)
    | OtherJournal(input: JournalInput)

  /** A journal that other parts of the rail post. */
  predicate Foreign(input: JournalInput) {
    && !input.reason.EscrowHold? && !input.reason.EscrowRelease?
    && forall i :: 0 <= i < |input.entries| ==> !input.entries[i].account.kind.RailEscrow?
  }

  /** What can happen in this store. */
  ghost predicate Possible(s: Store, op: Op) {
    match op
    case Tick(due, clock) => Picked(s.holds, clock.now, due)
    case OtherJournal(input) => Foreign(input)
    case _ => true
  }

  function JournalResult(s: Store, input: JournalInput): Result<Store, EscrowError> {
    match Posted(s.books, input)
    case Ok(b) => Ok(s.(books := b))
    case Err(e) => Err(LedgerFailed(e))
  }

  function Committed(s: Store, r: Result<Store, EscrowError>): (Store, Option<EscrowError>) {
    match r
    case Ok(s') => (s', None)
    case Err(e) => (s, Some(e))
  }

  function Step(s: Store, op: Op): (Store, Option<EscrowError>) {
    match op
    case Create(terms, clock) => Committed(s, CreateResult(s, terms, clock))
    case Sign(id, signer, clock) => Committed(s, SignResult(s, id, signer, clock))
    case ReleaseByPayer(id, clock) => Committed(s, PayerReleaseResult(s, id, clock))
    case ReleaseByArbiter(id, user, clock) => Committed(s, ArbiterReleaseResult(s, id, user, clock))
    case Refund(id, clock) => Committed(s, RefundByPayer(s, id, clock))
    case Cancel(id, clock) => Committed(s, CancelResult(s, id, clock))
    case Tick(due, clock) => (TickResult(s, due, clock), None)
    case OtherJournal(input) => Committed(s, JournalResult(s, input))
  }

  /** A run, and whether each of its steps was possible when it came. */
  function Run(s: Store, ops: seq<Op>): Store {
    if ops == [] then s else Step(Run(s, ops[..|ops| - 1]), ops[|ops| - 1]).0
  }

  ghost predicate PossibleRun(s: Store, ops: seq<Op>) {
    ops == [] || (PossibleRun(s, ops[..|ops| - 1]) && Possible(Run(s, ops[..|ops| - 1]), ops[|ops| - 1]))
  }
}
