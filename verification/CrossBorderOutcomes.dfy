/** What becomes of a cross-border payment, from the outside: which reply takes a row to which state, what is
    left of its quote, and that every account stands where the rows say. */
module CrossBorderOutcomes {
  import opened Text
  import opened Ledger
  import opened Transfers
  import opened CrossBorder
  import opened CrossBorderCustody
  import opened Sums

  // ----- replies

  /** The seconds to wait before the next attempt after so many. */
  function WaitAfter(attempts: nat): int {
    if attempts == 0 then 5 else if attempts == 1 then 30 else if attempts == 2 then 120
    else if attempts == 3 then 600 else 1800
  }

  /** The ledger takes both legs back. */
  predicate CanCompensate(b: Books, e: Row, clock: Clock) {
    && clock.today != "" && b.dates.read(clock.today).Some? && e.pay > 0 && e.receive > 0
    && Usable(b, AccountKey(RailFxNostro, "", e.payCurrency))
    && Usable(b, AccountKey(ParticipantSettlement, e.originator, e.payCurrency))
    && Usable(b, AccountKey(RailForeignRailNostro, e.rail, e.receiveCurrency))
    && Usable(b, AccountKey(RailFxNostro, "", e.receiveCurrency))
  }

  /** One attempt more, due again after its wait. */
  function Waiting(e: Row, foreignTx: Option<string>, now: int): Row {
    e.(state := PendingForeign, attempts := e.attempts + 1,
       nextAttemptAt := Some(now + WaitAfter(e.attempts + 1) * 1000),
       foreignTx := if foreignTx.Some? then foreignTx else e.foreignTx)
  }

  /** What a contact makes of a row: an acceptance confirms it, a refusal compensates and rejects it if the
      ledger lets it, no answer yet leaves it waiting, a fifth timeout fails it, and so does a rail that is not
      registered. */
  predicate Becomes(e: Row, c: Contact, clock: Clock, taken: bool, after: Row) {
    if !c.railKnown then after == e.(state := Failed)
    else match c.reply
      case Accepted(foreignTx) =>
        after == e.(state := Confirmed, foreignTx := if foreignTx.Some? then foreignTx else e.foreignTx)
      case Declined =>
        if taken then after == e.(state := Rejected, compensation := after.compensation) && after.compensation.Some?
        else after == e
      case Pending(foreignTx) => after == Waiting(e, foreignTx, clock.now)
      case TimedOut =>
        if e.attempts >= 4 then after == e.(state := Failed, attempts := e.attempts + 1, nextAttemptAt := None)
        else after == Waiting(e, None, clock.now)
      case _ => after == e
  }

  lemma CompensationExactly(b: Books, e: Row, clock: Clock)
    ensures CompensationPosted(b, e, clock).Ok? <==> CanCompensate(b, e, clock)
  {
    var x, y, z, w := FxNostroOf(e.payCurrency), SettlementOf(e.originator, e.payCurrency),
      ForeignNostroOf(e.rail, e.receiveCurrency), FxNostroOf(e.receiveCurrency);
    SwapAccepted(b, XbCompensate, TransactionReference(e.transactionId), clock.today, clock.now, x, y, e.pay, z, w,
      e.receive);
    assert CompensationLines(e) == Swap(x, y, e.pay, z, w, e.receive);
  }

  lemma ContactOutcome(s: Store, picked: seq<Row>, c: Contact, clock: Clock, after: Store)
    requires c.id < |s.rows| == |picked| && picked[c.id] == s.rows[c.id] && after == Handled(s, picked, c, clock)
    ensures |after.rows| == |s.rows| && after.quotes == s.quotes
    ensures after.books.accounts == s.books.accounts && after.books.dates == s.books.dates
    ensures Becomes(s.rows[c.id], c, clock, CanCompensate(s.books, s.rows[c.id], clock), after.rows[c.id])
  {
    CompensationExactly(s.books, s.rows[c.id], clock);
  }

  ghost predicate AsPicked(s: Store, picked: seq<Row>, contacts: seq<Contact>, k: nat) {
    && |picked| == |s.rows|
    && (forall i :: k <= i < |contacts| ==>
      contacts[i].id < |s.rows| && s.rows[contacts[i].id] == picked[contacts[i].id])
    && (forall i, j :: k <= i < j < |contacts| ==> contacts[i].id != contacts[j].id)
  }

  /** Within a tick, the k-th contact leaves the rows of the later ones alone. */
  lemma LaterStay(s: Store, picked: seq<Row>, contacts: seq<Contact>, k: nat, clock: Clock)
    requires k < |contacts| && InTable(contacts, |s.rows|) && AsPicked(s, picked, contacts, k)
    ensures AsPicked(Handled(s, picked, contacts[k], clock), picked, contacts, k + 1)
  {
    var next := Handled(s, picked, contacts[k], clock);
    ContactOutcome(s, picked, contacts[k], clock, next);
    forall i | k < i < |contacts|
      ensures contacts[i].id < |next.rows| && next.rows[contacts[i].id] == picked[contacts[i].id]
    {
      HandledLeaves(s, picked, contacts[k], clock, contacts[i].id);
    }
  }

  lemma {:induction false} TickOutcome(s: Store, picked: seq<Row>, contacts: seq<Contact>, k: nat, clock: Clock, j: nat)
    requires k <= j < |contacts| && InTable(contacts, |s.rows|) && AsPicked(s, picked, contacts, k)
    ensures var e, after := s.rows[contacts[j].id], TickFrom(s, picked, contacts, k, clock);
      contacts[j].id < |after.rows|
      && Becomes(e, contacts[j], clock, CanCompensate(s.books, e, clock), after.rows[contacts[j].id])
    decreases |contacts| - k
  {
    var next := Handled(s, picked, contacts[k], clock);
    ContactOutcome(s, picked, contacts[k], clock, next);
    LaterStay(s, picked, contacts, k, clock);
    if k == j {
      TickLeaves(next, picked, contacts, k + 1, clock, contacts[j].id);
    } else {
      HandledLeaves(s, picked, contacts[k], clock, contacts[j].id);
      TickOutcome(next, picked, contacts, k + 1, clock, j);
    }
  }

  /** A row that a tick contacts becomes what the contact says. */
  lemma ContactedRow(s: Store, op: Op, j: nat)
    requires op.Tick? && Possible(s, op) && j < |op.contacts|
    ensures var c, after := op.contacts[j], Step(s, op).0;
      && c.id < |s.rows| && c.id < |after.rows| && IsDue(s.rows[c.id], op.clock.now)
      && Becomes(s.rows[c.id], c, op.clock, CanCompensate(s.books, s.rows[c.id], op.clock), after.rows[c.id])
  {
    PickedContacts(s.rows, op.clock.now, op.contacts);
    TickOutcome(s, s.rows, op.contacts, 0, op.clock, j);
  }

  /** And a row that no contact of the operation is with stays as it is. */
  lemma UncontactedRow(s: Store, op: Op, id: nat)
    requires Possible(s, op) && id < |s.rows|
    requires op.Tick? ==> forall k :: 0 <= k < |op.contacts| ==> op.contacts[k].id != id
    ensures id < |Step(s, op).0.rows| && Step(s, op).0.rows[id] == s.rows[id]
  {
    if op.Tick? {
      PickedContacts(s.rows, op.clock.now, op.contacts);
      TickLeaves(s, s.rows, op.contacts, 0, op.clock, id);
    } else {
      OthersKeepRow(s, op, id);
    }
  }

  /** A tick contacts at most twenty rows, each once, that are not settled yet and whose next attempt is due. */
  lemma ContactsExactly(s: Store, contacts: seq<Contact>, clock: Clock)
    ensures Possible(s, Tick(contacts, clock)) <==>
      && |contacts| <= 20
      && (forall i :: 0 <= i < |contacts| ==>
        contacts[i].id < |s.rows| && MayContact(s.rows[contacts[i].id], clock.now))
      && (forall i, j :: 0 <= i < j < |contacts| ==> contacts[i].id != contacts[j].id)
  {
    var ids := IdsOf(contacts);
    assert forall i :: 0 <= i < |contacts| ==> ids[i] == contacts[i].id;
    forall i | 0 <= i < |contacts| && contacts[i].id < |s.rows|
      ensures IsDue(s.rows[ids[i]], clock.now) <==> MayContact(s.rows[contacts[i].id], clock.now)
    {
    }
  }

  predicate MayContact(r: Row, now: int) {
    && (r.state == ForeignInstructing || r.state == PendingForeign)
    && (r.nextAttemptAt.None? || now >= r.nextAttemptAt.value)
  }

  // ----- confirmation and attempts, over runs

  predicate Accepts(c: Contact, id: nat) {
    c.id == id && c.railKnown && c.reply.Accepted?
  }

  predicate Waits(c: Contact, id: nat) {
    c.id == id && c.railKnown && (c.reply.Pending? || c.reply.TimedOut?)
  }

  /** The tick contacts the row with a registered rail, which accepts. */
  predicate AcceptedIn(op: Op, id: nat) {
    op.Tick? && exists k :: 0 <= k < |op.contacts| && Accepts(op.contacts[k], id)
  }

  /** The tick contacts the row and gets no answer for now: pending, or a timeout. */
  predicate WaitsIn(op: Op, id: nat) {
    op.Tick? && exists k :: 0 <= k < |op.contacts| && Waits(op.contacts[k], id)
  }

  predicate ContactedIn(op: Op, id: nat) {
    op.Tick? && exists k :: 0 <= k < |op.contacts| && op.contacts[k].id == id
  }

  /** A tick contacts a row once. */
  lemma OnlyContact(s: Store, op: Op, j: nat)
    requires op.Tick? && Possible(s, op) && j < |op.contacts|
    ensures AcceptedIn(op, op.contacts[j].id) <==> Accepts(op.contacts[j], op.contacts[j].id)
    ensures WaitsIn(op, op.contacts[j].id) <==> Waits(op.contacts[j], op.contacts[j].id)
  {
    PickedContacts(s.rows, op.clock.now, op.contacts);
  }

  lemma Progress(e: Row, c: Contact, clock: Clock, taken: bool, r: Row)
    requires Becomes(e, c, clock, taken, r) && !IsTerminal(e.state)
    ensures r.state == Confirmed <==> Accepts(c, c.id)
    ensures r.attempts == e.attempts + (if Waits(c, c.id) then 1 else 0)
    ensures r == e.(state := r.state, attempts := r.attempts, nextAttemptAt := r.nextAttemptAt,
                    foreignTx := r.foreignTx, compensation := r.compensation)
  {
  }

  /** A row becomes confirmed exactly when its rail accepts, and each wait is one attempt more. */
  lemma ConfirmedExactly(s: Store, op: Op, id: nat)
    requires Possible(s, op) && id < |s.rows|
    ensures id < |Step(s, op).0.rows|
    ensures var e, r := s.rows[id], Step(s, op).0.rows[id];
      && (r.state == Confirmed != e.state <==> AcceptedIn(op, id))
      && r.attempts == e.attempts + (if WaitsIn(op, id) then 1 else 0)
      && r == e.(state := r.state, attempts := r.attempts, nextAttemptAt := r.nextAttemptAt,
                 foreignTx := r.foreignTx, compensation := r.compensation)
  {
    if ContactedIn(op, id) {
      var j :| 0 <= j < |op.contacts| && op.contacts[j].id == id;
      ContactedRow(s, op, j);
      OnlyContact(s, op, j);
      Progress(s.rows[id], op.contacts[j], op.clock, CanCompensate(s.books, s.rows[id], op.clock),
        Step(s, op).0.rows[id]);
    } else {
      UncontactedRow(s, op, id);
    }
  }

  /** How often the row was left waiting in a run. */
  function WaitCount(ops: seq<Op>, id: nat): nat {
    if ops == [] then 0 else WaitCount(ops[..|ops| - 1], id) + if WaitsIn(ops[|ops| - 1], id) then 1 else 0
  }

  predicate AcceptedEver(ops: seq<Op>, id: nat) {
    exists i :: 0 <= i < |ops| && AcceptedIn(ops[i], id)
  }

  lemma AcceptedSnoc(ops: seq<Op>, id: nat)
    requires ops != []
    ensures AcceptedEver(ops, id) <==> AcceptedEver(ops[..|ops| - 1], id) || AcceptedIn(ops[|ops| - 1], id)
  {
    var front := ops[..|ops| - 1];
    assert forall i :: 0 <= i < |front| ==> front[i] == ops[i];
  }

  lemma NotYetContacted(s: Store, op: Op, id: nat)
    requires Possible(s, op) && id >= |s.rows|
    ensures !AcceptedIn(op, id) && !WaitsIn(op, id)
    ensures id < |Step(s, op).0.rows| ==>
      Step(s, op).0.rows[id].state == ForeignInstructing && Step(s, op).0.rows[id].attempts == 0
  {
    if op.Tick? {
      PickedContacts(s.rows, op.clock.now, op.contacts);
      TickKeepsSize(s, s.rows, op.contacts, 0, op.clock);
    } else if op.Coordinate? && CoordinateResult(s, op.order, op.clock).Ok? {
      var _ := CoordinateParts(s, op.order, op.clock, Step(s, op).0);
    }
  }

  lemma {:induction false} TickKeepsSize(s: Store, picked: seq<Row>, contacts: seq<Contact>, k: nat, clock: Clock)
    requires k <= |contacts| && InTable(contacts, |s.rows|) && |picked| == |s.rows|
    ensures |TickFrom(s, picked, contacts, k, clock).rows| == |s.rows|
    decreases |contacts| - k
  {
    if k < |contacts| {
      TickKeepsSize(Handled(s, picked, contacts[k], clock), picked, contacts, k + 1, clock);
    }
  }

  /** In any run from an empty table, a payment is confirmed if and only if its rail accepted it in one of the
      ticks, and it has made as many attempts as it was left waiting. */
  lemma {:induction false} RunConfirmed(s: Store, ops: seq<Op>, id: nat)
    requires s.rows == [] && PossibleRun(s, ops)
    ensures var t := Run(s, ops);
      if id < |t.rows|
      then (t.rows[id].state == Confirmed <==> AcceptedEver(ops, id)) && t.rows[id].attempts == WaitCount(ops, id)
      else !AcceptedEver(ops, id) && WaitCount(ops, id) == 0
  {
    if ops != [] {
      var front, op := ops[..|ops| - 1], ops[|ops| - 1];
      var t := Run(s, front);
      RunConfirmed(s, front, id);
      AcceptedSnoc(ops, id);
      if id < |t.rows| {
        ConfirmedExactly(t, op, id);
        if t.rows[id].state == Confirmed {
          TerminalStays(t, op, id);
        }
      } else {
        NotYetContacted(t, op, id);
      }
    }
  }

  // ----- every account, by the rows

  /** What a payment that is not compensated has moved: the originator paid, the exchange account of each
      currency stands in between, the foreign rail is credited. */
  function Stake(a: AccountKey): Row -> int {
    (r: Row) =>
      if r.compensation.Some? then 0
      else
        (if a == AccountKey(RailFxNostro, "", r.payCurrency) then r.pay else 0)
        - (if a == AccountKey(ParticipantSettlement, r.originator, r.payCurrency) then r.pay else 0)
        + (if a == AccountKey(RailForeignRailNostro, r.rail, r.receiveCurrency) then r.receive else 0)
        - (if a == AccountKey(RailFxNostro, "", r.receiveCurrency) then r.receive else 0)
  }

  function Rest(s: Store, a: AccountKey): int {
    Balance(s.books, a) - SumOf(s.rows, Stake(a))
  }

  lemma LegsStake(r: Row, a: AccountKey)
    requires r.compensation.None?
    ensures LinesNet(Leg1Lines(r), a) + LinesNet(Leg2Lines(r), a) == Stake(a)(r)
    ensures LinesNet(CompensationLines(r), a) == -Stake(a)(r)
  {
    PairNet(SettlementOf(r.originator, r.payCurrency), FxNostroOf(r.payCurrency), r.pay, a);
    PairNet(FxNostroOf(r.receiveCurrency), ForeignNostroOf(r.rail, r.receiveCurrency), r.receive, a);
    LegsAndCompensationCancel(r, a);
  }

  lemma OrderRest(s: Store, o: Order, clock: Clock, after: Store, a: AccountKey)
    requires CoordinateResult(s, o, clock) == Ok(after)
    ensures Rest(after, a) == Rest(s, a)
  {
    var _ := CoordinateParts(s, o, clock, after);
    OrderMoves(s, o, clock, after, a);
    SumAppend(s.rows, RowFor(o), Stake(a));
  }

  lemma RejectionRest(s: Store, id: nat, clock: Clock, after: Store, a: AccountKey)
    requires id < |s.rows| && s.rows[id].compensation.None?
    requires HandleResult(s, id, s.rows[id], true, Declined, clock) == Ok(after)
    ensures Rest(after, a) == Rest(s, a)
  {
    var e := s.rows[id];
    RejectionParts(s, id, e, clock, after);
    JournalledEffect(s.books, XbCompensate, e.transactionId, clock, CompensationLines(e), after.books);
    LegsStake(e, a);
    SumUpdate(s.rows, id, after.rows[id], Stake(a));
  }

  lemma HandledRest(s: Store, picked: seq<Row>, c: Contact, clock: Clock, after: Store, a: AccountKey)
    requires c.id < |s.rows| == |picked| && picked[c.id] == s.rows[c.id] && s.rows[c.id].compensation.None?
    requires after == Handled(s, picked, c, clock)
    ensures Rest(after, a) == Rest(s, a)
  {
    var r := HandleResult(s, c.id, s.rows[c.id], c.railKnown, c.reply, clock);
    if r.Ok? {
      if c.railKnown && c.reply.Declined? {
        RejectionRest(s, c.id, clock, after, a);
      } else {
        RelabelParts(s, c.id, c.railKnown, c.reply, clock, after);
        SumUpdate(s.rows, c.id, after.rows[c.id], Stake(a));
      }
    }
  }

  lemma {:induction false} TickRest(s: Store, picked: seq<Row>, contacts: seq<Contact>, k: nat, clock: Clock,
      a: AccountKey)
    requires k <= |contacts| && InTable(contacts, |s.rows|) && AsPicked(s, picked, contacts, k)
    requires forall i :: k <= i < |contacts| ==> s.rows[contacts[i].id].compensation.None?
    ensures Rest(TickFrom(s, picked, contacts, k, clock), a) == Rest(s, a)
    decreases |contacts| - k
  {
    if k < |contacts| {
      var next := Handled(s, picked, contacts[k], clock);
      HandledRest(s, picked, contacts[k], clock, next, a);
      LaterStay(s, picked, contacts, k, clock);
      TickRest(next, picked, contacts, k + 1, clock, a);
    }
  }

  /** No cross-border operation moves an account except as the rows say. */
  lemma StepRest(s: Store, op: Op, a: AccountKey)
    requires Sound(s) && Possible(s, op) && !op.OtherJournal?
    ensures Rest(Step(s, op).0, a) == Rest(s, a)
  {
    match op {
      case Tick(contacts, clock) =>
        PickedContacts(s.rows, clock.now, contacts);
        assert forall i :: 0 <= i < |contacts| ==> RowShape(s.rows[contacts[i].id]);
        TickRest(s, s.rows, contacts, 0, clock, a);
      case Coordinate(order, clock) =>
        if CoordinateResult(s, order, clock).Ok? {
          OrderRest(s, order, clock, Step(s, op).0, a);
        }
      case _ =>
    }
  }

  /** No other part's journal names this account. */
  ghost predicate Unnamed(ops: seq<Op>, a: AccountKey) {
    forall i, k :: 0 <= i < |ops| && ops[i].OtherJournal? && 0 <= k < |ops[i].input.entries| ==>
      ops[i].input.entries[k].account != a
  }

  lemma OtherRest(s: Store, input: JournalInput, a: AccountKey)
    requires forall k :: 0 <= k < |input.entries| ==> input.entries[k].account != a
    ensures Rest(Step(s, OtherJournal(input)).0, a) == Rest(s, a)
  {
    var r := Posted(s.books, input);
    if r.Ok? {
      UntouchedBalance(s.books, input, a);
      assert Step(s, OtherJournal(input)).0 == s.(books := r.value);
    }
  }

  /** Over any run, an account that no other part touches has moved by what the rows say and by nothing else. */
  lemma {:induction false} RunByRows(s: Store, ops: seq<Op>, a: AccountKey)
    requires Sound(s) && PossibleRun(s, ops) && Unnamed(ops, a)
    ensures Balance(Run(s, ops).books, a) - SumOf(Run(s, ops).rows, Stake(a))
      == Balance(s.books, a) - SumOf(s.rows, Stake(a))
  {
    if ops != [] {
      var front, op := ops[..|ops| - 1], ops[|ops| - 1];
      RunByRows(s, front, a);
      RunSound(s, front);
      if op.OtherJournal? {
        OtherRest(Run(s, front), op.input, a);
      } else {
        StepRest(Run(s, front), op, a);
      }
    }
  }

  // ----- quotes and orders

  /** A quote that an order may take: not expired, its drift allowed; or consumed for this transaction before. */
  predicate CanConsume(q: Quote, transactionId: nat, drift: Drift, now: int) {
    || (q.state == Consumed && q.consumedBy == Some(transactionId))
    || ((q.state == Open || q.state == Locked) && q.expiresAt > now
        && (drift.bps.None? || drift.bps.value <= drift.cap))
  }

  /** The ledger takes both legs of an order. */
  predicate CanPostLegs(b: Books, o: Order, clock: Clock) {
    && clock.today != "" && b.dates.read(clock.today).Some? && o.pay > 0 && o.receive > 0
    && Available(b, AccountKey(ParticipantSettlement, o.originator, o.payCurrency))
    && Available(b, AccountKey(RailFxNostro, "", o.payCurrency))
    && Available(b, AccountKey(RailFxNostro, "", o.receiveCurrency))
    && Available(b, AccountKey(RailForeignRailNostro, o.rail, o.receiveCurrency))
  }

  predicate CanCoordinate(s: Store, o: Order, clock: Clock) {
    && o.railActive == Some(true) && o.quoteId < |s.quotes|
    && CanConsume(s.quotes[o.quoteId], o.transactionId, o.drift, clock.now) && o.travelRulePasses
    && CanPostLegs(s.books, o, clock)
    && forall i :: 0 <= i < |s.rows| ==> s.rows[i].transactionId != o.transactionId
  }

  /** The accounts of a leg opened, as its ledger finds them. */
  lemma PairOpened(b: Books, x: AccountKey, y: AccountKey, b1: Books, b2: Books, a: AccountKey)
    requires Opened(b, x) == Ok(b1) && Opened(b1, y) == Ok(b2)
    ensures b2.dates == b.dates && (Available(b2, a) <==> Available(b, a))
    ensures a == x || a == y ==> (Usable(b2, a) <==> Available(b, a))
    ensures b2.accounts.Keys == b.accounts.Keys + {x, y}
  {
    OpenedAccount(b, x, b1, a);
    OpenedAccount(b1, y, b2, a);
  }

  lemma Leg1Exactly(b: Books, r: Row, clock: Clock)
    ensures Leg1Posted(b, r, clock).Ok? <==>
      && clock.today != "" && b.dates.read(clock.today).Some? && r.pay > 0
      && Available(b, SettlementOf(r.originator, r.payCurrency)) && Available(b, FxNostroOf(r.payCurrency))
    ensures Leg1Posted(b, r, clock).Ok? ==> var after := Leg1Posted(b, r, clock).value;
      after.dates == b.dates && forall a: AccountKey :: Available(after, a) <==> Available(b, a)
  {
    var x, y := SettlementOf(r.originator, r.payCurrency), FxNostroOf(r.payCurrency);
    if Opened(b, x).Ok? {
      var b1 := Opened(b, x).value;
      var b2 := Opened(b1, y).value;
      PairAccepted(b2, XbLeg1, TransactionReference(r.transactionId), clock.today, clock.now, x, y, r.pay);
      PairOpened(b, x, y, b1, b2, x);
      forall a: AccountKey
        ensures Available(b2, a) <==> Available(b, a)
      {
        PairOpened(b, x, y, b1, b2, a);
      }
      PairOpened(b, x, y, b1, b2, y);
    }
  }

  lemma Leg2Exactly(b: Books, r: Row, clock: Clock)
    ensures Leg2Posted(b, r, clock).Ok? <==>
      && clock.today != "" && b.dates.read(clock.today).Some? && r.receive > 0
      && Available(b, FxNostroOf(r.receiveCurrency)) && Available(b, ForeignNostroOf(r.rail, r.receiveCurrency))
  {
    var x, y := FxNostroOf(r.receiveCurrency), ForeignNostroOf(r.rail, r.receiveCurrency);
    var b1 := Opened(b, x).value;
    if Opened(b1, y).Ok? {
      var b2 := Opened(b1, y).value;
      PairAccepted(b2, XbLeg2, TransactionReference(r.transactionId), clock.today, clock.now, x, y, r.receive);
      PairOpened(b, x, y, b1, b2, x);
      PairOpened(b, x, y, b1, b2, y);
    }
  }

  lemma LegsExactly(b: Books, o: Order, clock: Clock)
    ensures LegsPosted(b, RowFor(o), clock).Ok? <==> CanPostLegs(b, o, clock)
  {
    Leg1Exactly(b, RowFor(o), clock);
    if Leg1Posted(b, RowFor(o), clock).Ok? {
      Leg2Exactly(Leg1Posted(b, RowFor(o), clock).value, RowFor(o), clock);
    }
  }

  lemma ConsumeExactly(s: Store, id: nat, transactionId: nat, drift: Drift, now: int)
    ensures var r := Consume(s, id, transactionId, drift, now);
      && (r.Ok? <==> id < |s.quotes| && CanConsume(s.quotes[id], transactionId, drift, now))
      && (r.Ok? ==> r.value == s.(quotes := s.quotes[id :=
            s.quotes[id].(state := Consumed, consumedBy := Some(transactionId))]))
  {
    if id < |s.quotes| && s.quotes[id].state == Consumed && s.quotes[id].consumedBy == Some(transactionId) {
      assert s.quotes[id := s.quotes[id]] == s.quotes;
    }
  }

  /** An order consumes its quote and adds one row that waits to be instructed, or does nothing at all. */
  lemma CoordinateExactly(s: Store, o: Order, clock: Clock)
    ensures var after := Step(s, Coordinate(o, clock)).0;
      if CanCoordinate(s, o, clock) then
        && after.rows == s.rows + [Row(o.transactionId, o.rail, o.quoteId, o.payCurrency, o.receiveCurrency, o.pay,
             o.receive, o.originator, ForeignInstructing, 0, None, None, None)]
        && after.quotes == s.quotes[o.quoteId :=
             s.quotes[o.quoteId].(state := Consumed, consumedBy := Some(o.transactionId))]
      else after == s
  {
    var r, legs := Consume(s, o.quoteId, o.transactionId, o.drift, clock.now), LegsPosted(s.books, RowFor(o), clock);
    ConsumeExactly(s, o.quoteId, o.transactionId, o.drift, clock.now);
    LegsExactly(s.books, o, clock);
    CoordinateIs(s, o, clock, r, legs);
    if r.Ok? {
      RecordedExactly(r.value, o, legs);
    }
  }

  lemma CoordinateIs(s: Store, o: Order, clock: Clock, r: Result<Store, XbError>, legs: Result<Books, XbError>)
    requires r == Consume(s, o.quoteId, o.transactionId, o.drift, clock.now)
    requires legs == LegsPosted(s.books, RowFor(o), clock) && (r.Ok? ==> r.value.books == s.books)
    ensures Step(s, Coordinate(o, clock)).0 ==
      if o.railActive == Some(true) && r.Ok? && o.travelRulePasses && Recorded(r.value, o, legs).Ok?
      then Recorded(r.value, o, legs).value else s
  {
    CoordinateCommits(s, o, clock, CoordinateResult(s, o, clock));
    if r.Ok? {
      ConsumedOrder(s, o, clock, r.value, legs);
    } else {
      UnconsumedOrder(s, o, clock, r);
    }
  }

  lemma CoordinateCommits(s: Store, o: Order, clock: Clock, r: Result<Store, XbError>)
    requires r == CoordinateResult(s, o, clock)
    ensures Step(s, Coordinate(o, clock)).0 == if r.Ok? then r.value else s
  {
  }

  lemma UnconsumedOrder(s: Store, o: Order, clock: Clock, r: Result<Store, XbError>)
    requires r == Consume(s, o.quoteId, o.transactionId, o.drift, clock.now) && r.Err?
    ensures CoordinateResult(s, o, clock).Err?
  {
  }

  lemma ConsumedOrder(s: Store, o: Order, clock: Clock, s1: Store, legs: Result<Books, XbError>)
    requires Consume(s, o.quoteId, o.transactionId, o.drift, clock.now) == Ok(s1)
    requires LegsPosted(s1.books, RowFor(o), clock) == legs
    ensures CoordinateResult(s, o, clock) ==
      if o.railActive.None? then Err(NotFound) else if !o.railActive.value then Err(Conflict)
      else if !o.travelRulePasses then Err(TravelRule) else Recorded(s1, o, legs)
  {
  }

  lemma RecordedExactly(s: Store, o: Order, legs: Result<Books, XbError>)
    ensures Recorded(s, o, legs) ==
      if legs.Err? then Err(legs.error)
      else if forall i :: 0 <= i < |s.rows| ==> s.rows[i].transactionId != o.transactionId
      then Ok(Store(s.quotes, s.rows + [RowFor(o)], legs.value))
      else Err(Conflict)
  {
  }

  /** A quote is opened when something is left of both amounts after the fees. */
  lemma OpenQuoteExactly(s: Store, netPay: int, netReceive: int, expiresAt: int)
    ensures Step(s, OpenQuote(netPay, netReceive, expiresAt)).0.quotes
      == s.quotes + if netPay > 0 && netReceive > 0 then [Quote(Open, expiresAt, None)] else []
  {
  }

  /** What the other operations make of a quote. */
  function QuoteAfter(q: Quote, op: Op, id: nat): Quote {
    match op
    case Lock(i, now) =>
      if i != id then q else if q.expiresAt <= now then q.(state := Expired)
      else if q.state == Open then q.(state := Locked) else q
    case ExpirePastDue(ids, now) =>
      if id in ids && (q.state == Open || q.state == Locked) && q.expiresAt <= now then q.(state := Expired) else q
    case _ => q
  }

  lemma TickQuotes(s: Store, contacts: seq<Contact>, clock: Clock)
    ensures TickResult(s, contacts, clock).quotes == s.quotes
  {
    if InTable(contacts, |s.rows|) {
      TickFromQuotes(s, s.rows, contacts, 0, clock);
    }
  }

  lemma {:induction false} TickFromQuotes(s: Store, picked: seq<Row>, contacts: seq<Contact>, k: nat, clock: Clock)
    requires k <= |contacts| && InTable(contacts, |s.rows|) && |picked| == |s.rows|
    ensures TickFrom(s, picked, contacts, k, clock).quotes == s.quotes
    decreases |contacts| - k
  {
    if k < |contacts| {
      TickFromQuotes(Handled(s, picked, contacts[k], clock), picked, contacts, k + 1, clock);
    }
  }

  /** A tick in which no rail refuses leaves the books and the quotes as they were. */
  lemma OnlyRefusalsPost(s: Store, contacts: seq<Contact>, clock: Clock)
    requires forall k :: 0 <= k < |contacts| ==> !(contacts[k].railKnown && contacts[k].reply.Declined?)
    ensures var after := Step(s, Tick(contacts, clock)).0;
      after.books == s.books && after.quotes == s.quotes
  {
    TickQuotes(s, contacts, clock);
    if InTable(contacts, |s.rows|) {
      TickFromBooks(s, s.rows, contacts, 0, clock);
    }
  }

  lemma {:induction false} TickFromBooks(s: Store, picked: seq<Row>, contacts: seq<Contact>, k: nat, clock: Clock)
    requires k <= |contacts| && InTable(contacts, |s.rows|) && |picked| == |s.rows|
    requires forall j :: k <= j < |contacts| ==> !(contacts[j].railKnown && contacts[j].reply.Declined?)
    ensures TickFrom(s, picked, contacts, k, clock).books == s.books
    decreases |contacts| - k
  {
    if k < |contacts| {
      var next := Handled(s, picked, contacts[k], clock);
      assert next.books == s.books;
      TickFromBooks(next, picked, contacts, k + 1, clock);
    }
  }

  /** A quote is locked, expired or consumed exactly as the operation and its own time say, and only then. */
  lemma QuotesExactly(s: Store, op: Op, id: nat)
    requires id < |s.quotes|
    ensures id < |Step(s, op).0.quotes|
    ensures Step(s, op).0.quotes[id] ==
      if op.Coordinate? && op.order.quoteId == id && CanCoordinate(s, op.order, op.clock)
      then s.quotes[id].(state := Consumed, consumedBy := Some(op.order.transactionId))
      else QuoteAfter(s.quotes[id], op, id)
  {
    match op {
      case Coordinate(o, clock) => CoordinateExactly(s, o, clock);
      case Tick(contacts, clock) => TickQuotes(s, contacts, clock);
      case _ =>
    }
  }
}
