/** Cross-border payment versus payment (modules/crossborder-tx, modules/crossborder-fx): quotes are
    consumed, two legs are posted with the row that records them, and the recovery worker confirms the
    row or compensates both legs. `Store` is the content of the tables. */
module CrossBorder {
  import opened Text
  import opened Ledger
  import opened Transfers

  datatype QuoteState = Open | Locked | Consumed | Expired | RejectedSlippage

  datatype Quote = Quote(state: QuoteState, expiresAt: int, consumedBy: Option<nat>)

  datatype State = ForeignInstructing | PendingForeign | Confirmed | Rejected | Failed

  predicate IsTerminal(s: State) {
    s == Confirmed || s == Rejected || s == Failed
  }

  datatype Row = Row(
    transactionId: nat, rail: string, quoteId: nat, payCurrency: string, receiveCurrency: string, pay: int,
    receive: int,
    originator: string, state: State, attempts: nat, nextAttemptAt: Option<int>, foreignTx: Option<string>,
    compensation: Option<nat>)

  datatype Store = Store(quotes: seq<Quote>, rows: seq<Row>, books: Books)

  datatype XbError =
    | ValidationFailed | NotFound | Conflict | QuoteExpired | SlippageExceeded | TravelRule
    | LedgerFailed(error: LedgerError)

  datatype Clock = Clock(now: int, today: string)

  // ----- accounts and legs

  function FxNostroOf(currency: string): AccountKey {
    AccountKey(RailFxNostro, "", currency)
  }

  function ForeignNostroOf(rail: string, currency: string): AccountKey {
    AccountKey(RailForeignRailNostro, rail, currency)
  }

  function SettlementOf(owner: string, currency: string): AccountKey {
    AccountKey(ParticipantSettlement, owner, currency)
  }

  function TransactionReference(transactionId: nat): Reference {
    Reference(Some("crossborder_tx"), Some(Print(transactionId)))
  }

  function Leg1Lines(r: Row): seq<Line> {
    Pair(SettlementOf(r.originator, r.payCurrency), FxNostroOf(r.payCurrency), r.pay)
  }

  function Leg2Lines(r: Row): seq<Line> {
    Pair(FxNostroOf(r.receiveCurrency), ForeignNostroOf(r.rail, r.receiveCurrency), r.receive)
  }

  /** Both legs inverted, in one journal. */
  function CompensationLines(r: Row): seq<Line> {
    [Line(FxNostroOf(r.payCurrency), DR, r.pay),
     Line(SettlementOf(r.originator, r.payCurrency), CR, r.pay),
     Line(ForeignNostroOf(r.rail, r.receiveCurrency), DR, r.receive),
     Line(FxNostroOf(r.receiveCurrency), CR, r.receive)]
  }

  function Opened(b: Books, key: AccountKey): Result<Books, XbError> {
    match WithAccount(b, key)
    case Ok(b') => Ok(b')
    case Err(e) => Err(LedgerFailed(e))
  }

  function Journalled(b: Books, reason: Reason, transactionId: nat, clock: Clock, lines: seq<Line>):
      Result<Books, XbError> {
    match Moved(b, reason, TransactionReference(transactionId), clock.today, clock.now, lines)
    case Ok(b') => Ok(b')
    case Err(e) => Err(LedgerFailed(e))
  }

  /** `postLeg1` */
  function Leg1Posted(b: Books, r: Row, clock: Clock): Result<Books, XbError> {
    var b1 :- Opened(b, SettlementOf(r.originator, r.payCurrency));
    var b2 :- Opened(b1, FxNostroOf(r.payCurrency));
    Journalled(b2, XbLeg1, r.transactionId, clock, Leg1Lines(r))
  }

  /** `postLeg2` */
  function Leg2Posted(b: Books, r: Row, clock: Clock): Result<Books, XbError> {
    var b1 :- Opened(b, FxNostroOf(r.receiveCurrency));
    var b2 :- Opened(b1, ForeignNostroOf(r.rail, r.receiveCurrency));
    Journalled(b2, XbLeg2, r.transactionId, clock, Leg2Lines(r))
  }

  /** Both legs, in the coordinator's transaction. */
  function LegsPosted(b: Books, r: Row, clock: Clock): Result<Books, XbError> {
    var b1 :- Leg1Posted(b, r, clock);
    Leg2Posted(b1, r, clock)
  }

  /** `postCompensation` */
  function CompensationPosted(b: Books, r: Row, clock: Clock): Result<Books, XbError> {
    Journalled(b, XbCompensate, r.transactionId, clock, CompensationLines(r))
  }

  // ----- quotes

  /** `quote`: what remains of each amount after the fees must be positive. */
  function QuoteResult(s: Store, netPay: int, netReceive: int, expiresAt: int): Result<Store, XbError> {
    if netPay <= 0 || netReceive <= 0 then Err(ValidationFailed)
    else Ok(s.(quotes := s.quotes + [Quote(Open, expiresAt, None)]))
  }

  function WithQuote(s: Store, id: nat, q: Quote): Store
    requires id < |s.quotes|
  {
    s.(quotes := s.quotes[id := q])
  }

  /** `lock`: a quote past its time is marked expired, whatever its state, and the caller sees an error. */
  function LockStep(s: Store, id: nat, now: int): (Store, Option<XbError>) {
    if id >= |s.quotes| then (s, Some(NotFound))
    else if s.quotes[id].expiresAt <= now then (WithQuote(s, id, s.quotes[id].(state := Expired)), Some(Conflict))
    else if s.quotes[id].state != Open then (s, Some(Conflict))
    else (WithQuote(s, id, s.quotes[id].(state := Locked)), None)
  }

  /** `expirePastDue` on the quotes it selected. */
  function ExpiredQuotes(quotes: seq<Quote>, ids: set<nat>, now: int): (qs: seq<Quote>)
    ensures |qs| == |quotes|
  {
    seq(|quotes|, i requires 0 <= i < |quotes| =>
      if i in ids && (quotes[i].state == Open || quotes[i].state == Locked) && quotes[i].expiresAt <= now
      then quotes[i].(state := Expired) else quotes[i])
  }

  /** What the checks made while consuming a quote answer: the drift in basis points if a maker quotes the
      pair, and the drift that is allowed. */
  datatype Drift = Drift(bps: Option<int>, cap: int)

  /** `verifyAndConsumeOnClient`; the states it writes before throwing are rolled back. */
  function Consume(s: Store, id: nat, transactionId: nat, drift: Drift, now: int): Result<Store, XbError> {
    if id >= |s.quotes| then Err(NotFound)
    else
      var q := s.quotes[id];
      if q.state == Consumed then (if q.consumedBy == Some(transactionId) then Ok(s) else Err(Conflict))
      else if q.state != Open && q.state != Locked then Err(Conflict)
      else if q.expiresAt <= now then Err(QuoteExpired)
      else if drift.bps.Some? && drift.bps.value > drift.cap then Err(SlippageExceeded)
      else Ok(WithQuote(s, id, q.(state := Consumed, consumedBy := Some(transactionId))))
  }

  // ----- the coordinator

  datatype Order = Order(
    railActive: Option<bool>, rail: string, quoteId: nat, payCurrency: string, receiveCurrency: string, pay: int,
    receive: int,
    transactionId: nat, originator: string, drift: Drift, travelRulePasses: bool)

  function RowFor(o: Order): Row {
    Row(o.transactionId, o.rail, o.quoteId, o.payCurrency, o.receiveCurrency, o.pay, o.receive, o.originator,
        ForeignInstructing, 0, None, None, None)
  }

  predicate HasTransaction(rows: seq<Row>, transactionId: nat) {
    exists i :: 0 <= i < |rows| && rows[i].transactionId == transactionId
  }

  /** `coordinateOnClient`: the quote is consumed, both legs are posted and the row inserted, or nothing. */
  function CoordinateResult(s: Store, o: Order, clock: Clock): Result<Store, XbError> {
    if o.railActive.None? then Err(NotFound)
    else if !o.railActive.value then Err(Conflict)
    else
      var s1 :- Consume(s, o.quoteId, o.transactionId, o.drift, clock.now);
      if !o.travelRulePasses then Err(TravelRule)
      else Recorded(s1, o, LegsPosted(s1.books, RowFor(o), clock))
  }

  /** The row inserted once the legs are posted, unless the transaction has one. */
  function Recorded(s: Store, o: Order, legs: Result<Books, XbError>): Result<Store, XbError> {
    var books :- legs;
    if HasTransaction(s.rows, o.transactionId) then Err(Conflict)
    else Ok(Store(s.quotes, s.rows + [RowFor(o)], books))
  }

  // ----- the recovery worker

  const MAX_ATTEMPTS := 5
  const BACKOFF: seq<int> := [5, 30, 120, 600, 1800]

  /** `backoffFor` */
  function BackoffFor(attempts: nat): int {
    BACKOFF[if attempts < |BACKOFF| then attempts else |BACKOFF| - 1]
  }

  /** What the foreign rail answers; `Unreachable` is an error other than a timeout. */
  datatype Reply =
    | Accepted(foreignTx: Option<string>) | Declined | Pending(foreignTx: Option<string>) | TimedOut | Unreachable
    | OtherReply

  function WithRow(s: Store, id: nat, r: Row): Store
    requires id < |s.rows|
  {
    s.(rows := s.rows[id := r])
  }

  /** `bumpAttempt`, on the row as it is now. */
  function Bumped(r: Row, attempts: nat, now: int): Row {
    r.(attempts := r.attempts + 1, nextAttemptAt := Some(now + BackoffFor(attempts) * 1000))
  }

  function Known(reply: Option<string>, before: Option<string>): Option<string> {
    if reply.Some? then reply else before
  }

  /** The foreign rail declines: both legs are compensated and the row is rejected. */
  function DeclineResult(s: Store, id: nat, e: Row, clock: Clock): Result<Store, XbError>
    requires id < |s.rows|
  {
    var r := s.rows[id].(state := Rejected, compensation := Some(s.books.nextSeq));
    var books :- CompensationPosted(s.books, e, clock);
    Ok(Store(s.quotes, s.rows[id := r], books))
  }

  /** `handleOne` for the row with this id, from the row `e` as it was picked. */
  function HandleResult(s: Store, id: nat, e: Row, railKnown: bool, reply: Reply, clock: Clock): Result<Store, XbError>
    requires id < |s.rows|
  {
    var r := s.rows[id];
    if !railKnown then Ok(WithRow(s, id, r.(state := Failed)))
    else match reply
      case Unreachable => Err(Conflict)
      case TimedOut =>
        if e.attempts + 1 >= MAX_ATTEMPTS then
          Ok(WithRow(s, id, r.(state := Failed, attempts := e.attempts + 1, nextAttemptAt := None)))
        else
          Ok(WithRow(s, id, Bumped(r, e.attempts + 1, clock.now).(state := PendingForeign)))
      case Accepted(foreignTx) =>
        Ok(WithRow(s, id, r.(state := Confirmed, foreignTx := Known(foreignTx, e.foreignTx))))
      case Pending(foreignTx) =>
        Ok(WithRow(s, id,
          Bumped(r, e.attempts + 1, clock.now).(state := PendingForeign, foreignTx := Known(foreignTx, e.foreignTx))))
      case Declined => DeclineResult(s, id, e, clock)
      case OtherReply => Ok(s)
  }

  const TICK_LIMIT := 20

  predicate IsDue(r: Row, now: int) {
    (r.state == ForeignInstructing || r.state == PendingForeign)
      && (r.nextAttemptAt.None? || r.nextAttemptAt.value <= now)
  }

  /** What `pickPendingForeign` may return. */
  ghost predicate Picked(rows: seq<Row>, now: int, due: seq<nat>) {
    && |due| <= TICK_LIMIT
    && (forall k :: 0 <= k < |due| ==> due[k] < |rows| && IsDue(rows[due[k]], now))
    && (forall j, k :: 0 <= j < k < |due| ==> due[j] != due[k])
  }

  /** One handling of a tick: the row, whether its rail is registered, and the foreign reply. */
  datatype Contact = Contact(id: nat, railKnown: bool, reply: Reply)

  function IdsOf(contacts: seq<Contact>): (ids: seq<nat>)
    ensures |ids| == |contacts|
  {
    seq(|contacts|, i requires 0 <= i < |contacts| => contacts[i].id)
  }

  predicate InTable(contacts: seq<Contact>, size: nat) {
    forall i :: 0 <= i < |contacts| ==> contacts[i].id < size
  }

  /** One contact, from the row picked; an error leaves everything as it was. */
  function Handled(s: Store, picked: seq<Row>, c: Contact, clock: Clock): Store
    requires c.id < |s.rows| == |picked|
  {
    Committed(s, HandleResult(s, c.id, picked[c.id], c.railKnown, c.reply, clock)).0
  }

  /** The contacts of a tick from the k-th on. */
  function TickFrom(s: Store, picked: seq<Row>, contacts: seq<Contact>, k: nat, clock: Clock): Store
    requires k <= |contacts| && InTable(contacts, |s.rows|) && |picked| == |s.rows|
    decreases |contacts| - k
  {
    if k == |contacts| then s else TickFrom(Handled(s, picked, contacts[k], clock), picked, contacts, k + 1, clock)
  }

  /** `tick` with no other step between the pick and the handling. */
  function TickResult(s: Store, contacts: seq<Contact>, clock: Clock): Store {
    if InTable(contacts, |s.rows|) then TickFrom(s, s.rows, contacts, 0, clock) else s
  }

  // ----- everything that can happen

  datatype Op =
    | OpenQuote(netPay: int, netReceive: int, expiresAt: int)
    | Lock(id: nat, now: int)
    | ExpirePastDue(ids: set<nat>, now: int)
    | Coordinate(order: Order, clock: Clock)
    | Tick(contacts: seq<Contact>, clock: Clock)
    | OtherJournal(input: JournalInput)

  /** A journal that other parts of the rail post. */
  predicate Foreign(input: JournalInput) {
    && !input.reason.XbLeg1? && !input.reason.XbLeg2? && !input.reason.XbCompensate?
    && forall i :: 0 <= i < |input.entries| ==>
      !input.entries[i].account.kind.RailFxNostro? && !input.entries[i].account.kind.RailForeignRailNostro?
  }

  ghost predicate Possible(s: Store, op: Op) {
    match op
    case Tick(contacts, clock) => Picked(s.rows, clock.now, IdsOf(contacts))
    case OtherJournal(input) => Foreign(input)
    case _ => true
  }

  function Committed(s: Store, r: Result<Store, XbError>): (Store, Option<XbError>) {
    match r
    case Ok(s') => (s', None)
    case Err(e) => (s, Some(e))
  }

  function JournalResult(s: Store, input: JournalInput): Result<Store, XbError> {
    match Posted(s.books, input)
    case Ok(b) => Ok(s.(books := b))
    case Err(e) => Err(LedgerFailed(e))
  }

  function Step(s: Store, op: Op): (Store, Option<XbError>) {
    match op
    case OpenQuote(netPay, netReceive, expiresAt) => Committed(s, QuoteResult(s, netPay, netReceive, expiresAt))
    case Lock(id, now) => LockStep(s, id, now)
    case ExpirePastDue(ids, now) => (s.(quotes := ExpiredQuotes(s.quotes, ids, now)), None)
    case Coordinate(order, clock) => Committed(s, CoordinateResult(s, order, clock))
    case Tick(contacts, clock) => (TickResult(s, contacts, clock), None)
    case OtherJournal(input) => Committed(s, JournalResult(s, input))
  }

  function Run(s: Store, ops: seq<Op>): Store {
    if ops == [] then s else Step(Run(s, ops[..|ops| - 1]), ops[|ops| - 1]).0
  }

  ghost predicate PossibleRun(s: Store, ops: seq<Op>) {
    ops == [] || (PossibleRun(s, ops[..|ops| - 1]) && Possible(Run(s, ops[..|ops| - 1]), ops[|ops| - 1]))
  }
}
