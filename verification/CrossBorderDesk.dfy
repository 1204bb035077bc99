/** The cross-border services as they update their tables (coordinator.js, leg-runner.js and
    recovery-worker.js of modules/crossborder-tx, quote-service.js of modules/crossborder-fx). */
module CrossBorderDesk {
  import opened Text
  import opened Ledger
  import opened Transfers
  import opened CrossBorder

  class Desk {
    var quotes: seq<Quote>
    var rows: seq<Row>
    var books: Books

    constructor (books: Books)
      ensures Contents() == Store([], [], books)
    {
      this.books := books;
      quotes, rows := [], [];
    }

    function Contents(): Store
      reads this
    {
      Store(quotes, rows, books)
    }

    method Rollback(saved: Store)
      modifies this
      ensures Contents() == saved
    {
      quotes, rows, books := saved.quotes, saved.rows, saved.books;
    }

    method SetQuote(id: nat, q: Quote)
      requires id < |quotes|
      modifies this`quotes
      ensures quotes == old(quotes)[id := q]
    {
      quotes := quotes[id := q];
    }

    method SetRow(id: nat, r: Row)
      requires id < |rows|
      modifies this`rows
      ensures rows == old(rows)[id := r]
    {
      rows := rows[id := r];
    }

    method InsertQuote(netPay: int, netReceive: int, expiresAt: int) returns (error: Option<XbError>)
      modifies this`quotes
      ensures (Contents(), error)
        == Committed(old(Contents()), QuoteResult(old(Contents()), netPay, netReceive, expiresAt))
    {
      if netPay <= 0 || netReceive <= 0 {
        return Some(ValidationFailed);
      }
      quotes := quotes + [Quote(Open, expiresAt, None)];
      return None;
    }

    /** `lock`: the expiry is committed although the caller sees an error. */
    method Lock(id: nat, now: int) returns (error: Option<XbError>)
      modifies this`quotes
      ensures (Contents(), error) == LockStep(old(Contents()), id, now)
    {
      if id >= |quotes| {
        return Some(NotFound);
      }
      var q := quotes[id];
      if q.expiresAt <= now {
        SetQuote(id, q.(state := Expired));
        return Some(Conflict);
      }
      if q.state != Open {
        return Some(Conflict);
      }
      SetQuote(id, q.(state := Locked));
      return None;
    }

    method ExpirePastDue(ids: set<nat>, now: int)
      modifies this`quotes
      ensures quotes == ExpiredQuotes(old(quotes), ids, now)
    {
      ghost var before := quotes;
      var i := 0;
      while i < |quotes|
        invariant 0 <= i <= |quotes| == |before|
        invariant forall k :: 0 <= k < |quotes| ==>
          quotes[k] == if k < i then ExpiredQuotes(before, ids, now)[k] else before[k]
      {
        if i in ids && (quotes[i].state == Open || quotes[i].state == Locked) && quotes[i].expiresAt <= now {
          quotes := quotes[i := quotes[i].(state := Expired)];
        }
        i := i + 1;
      }
    }

    /** `verifyAndConsumeOnClient`. The states written before an error are for the caller to roll back. */
    method VerifyAndConsume(id: nat, transactionId: nat, drift: Drift, now: int) returns (error: Option<XbError>)
      modifies this`quotes
      ensures match Consume(old(Contents()), id, transactionId, drift, now)
        case Ok(s) => error == None && Contents() == s
        case Err(e) => error == Some(e)
    {
      if id >= |quotes| {
        return Some(NotFound);
      }
      var q := quotes[id];
      if q.state == Consumed {
        return if q.consumedBy == Some(transactionId) then None else Some(Conflict);
      }
      if q.state != Open && q.state != Locked {
        return Some(Conflict);
      }
      if q.expiresAt <= now {
        SetQuote(id, q.(state := Expired));
        return Some(QuoteExpired);
      }
      if drift.bps.Some? && drift.bps.value > drift.cap {
        SetQuote(id, q.(state := RejectedSlippage));
        return Some(SlippageExceeded);
      }
      SetQuote(id, q.(state := Consumed, consumedBy := Some(transactionId)));
      return None;
    }

    method EnsureAccount(key: AccountKey) returns (error: Option<XbError>)
      modifies this`books
      ensures match Opened(old(books), key)
        case Ok(b) => error == None && books == b
        case Err(e) => error == Some(e)
    {
      var account := Opened(books, key);
      if account.Err? {
        return Some(account.error);
      }
      books := account.value;
      return None;
    }

    method PostJournal(reason: Reason, transactionId: nat, clock: Clock, lines: seq<Line>)
        returns (error: Option<XbError>)
      modifies this`books
      ensures match Journalled(old(books), reason, transactionId, clock, lines)
        case Ok(b) => error == None && books == b
        case Err(e) => error == Some(e) && books == old(books)
    {
      var posted := Journalled(books, reason, transactionId, clock, lines);
      if posted.Err? {
        return Some(posted.error);
      }
      books := posted.value;
      return None;
    }

    method PostLeg1(r: Row, clock: Clock) returns (error: Option<XbError>)
      modifies this`books
      ensures match Leg1Posted(old(books), r, clock)
        case Ok(b) => error == None && books == b
        case Err(e) => error == Some(e)
    {
      error := EnsureAccount(SettlementOf(r.originator, r.payCurrency));
      if error.None? {
        error := EnsureAccount(FxNostroOf(r.payCurrency));
        if error.None? {
          error := PostJournal(XbLeg1, r.transactionId, clock, Leg1Lines(r));
        }
      }
    }

    method PostLeg2(r: Row, clock: Clock) returns (error: Option<XbError>)
      modifies this`books
      ensures match Leg2Posted(old(books), r, clock)
        case Ok(b) => error == None && books == b
        case Err(e) => error == Some(e)
    {
      error := EnsureAccount(FxNostroOf(r.receiveCurrency));
      if error.None? {
        error := EnsureAccount(ForeignNostroOf(r.rail, r.receiveCurrency));
        if error.None? {
          error := PostJournal(XbLeg2, r.transactionId, clock, Leg2Lines(r));
        }
      }
    }

    method PostLegs(r: Row, clock: Clock) returns (error: Option<XbError>)
      modifies this`books
      ensures match LegsPosted(old(books), r, clock)
        case Ok(b) => error == None && books == b
        case Err(e) => error == Some(e)
    {
      error := PostLeg1(r, clock);
      if error.None? {
        error := PostLeg2(r, clock);
      }
    }

    /** The legs and the row, once the quote is consumed. */
    method RecordOrder(o: Order, clock: Clock) returns (error: Option<XbError>)
      modifies this`books, this`rows
      ensures match Recorded(old(Contents()), o, LegsPosted(old(books), RowFor(o), clock))
        case Ok(s) => error == None && Contents() == s
        case Err(e) => error == Some(e)
    {
      error := PostLegs(RowFor(o), clock);
      if error.None? {
        if HasTransaction(rows, o.transactionId) {
          return Some(Conflict);
        }
        rows := rows + [RowFor(o)];
      }
    }

    method Coordinate(o: Order, clock: Clock) returns (error: Option<XbError>)
      modifies this
      ensures (Contents(), error) == Committed(old(Contents()), CoordinateResult(old(Contents()), o, clock))
    {
      if o.railActive.None? {
        return Some(NotFound);
      }
      if !o.railActive.value {
        return Some(Conflict);
      }
      var saved := Contents();
      error := VerifyAndConsume(o.quoteId, o.transactionId, o.drift, clock.now);
      if error.None? {
        if !o.travelRulePasses {
          error := Some(TravelRule);
        } else {
          error := RecordOrder(o, clock);
        }
      }
      if error.Some? {
        Rollback(saved);
      }
    }

    /** Both legs are compensated and the row is rejected. */
    method Decline(id: nat, e: Row, clock: Clock) returns (error: Option<XbError>)
      requires id < |rows|
      modifies this
      ensures (Contents(), error) == Committed(old(Contents()), DeclineResult(old(Contents()), id, e, clock))
    {
      var journalId := books.nextSeq;
      error := PostJournal(XbCompensate, e.transactionId, clock, CompensationLines(e));
      if error.None? {
        SetRow(id, rows[id].(state := Rejected, compensation := Some(journalId)));
      }
    }

    /** `bumpAttempt`, and the row waits for the foreign rail. */
    method Wait(id: nat, attempts: nat, now: int, foreignTx: Option<string>)
      requires id < |rows|
      modifies this`rows
      ensures rows
        == old(rows)[id := Bumped(old(rows)[id], attempts, now).(state := PendingForeign, foreignTx := foreignTx)]
    {
      SetRow(id, Bumped(rows[id], attempts, now));
      SetRow(id, rows[id].(state := PendingForeign, foreignTx := foreignTx));
    }

    /** `handleOne` on a row as it was picked. */
    method HandleOne(id: nat, e: Row, railKnown: bool, reply: Reply, clock: Clock) returns (error: Option<XbError>)
      requires id < |rows|
      modifies this
      ensures (Contents(), error)
        == Committed(old(Contents()), HandleResult(old(Contents()), id, e, railKnown, reply, clock))
    {
      if !railKnown {
        SetRow(id, rows[id].(state := Failed));
        return None;
      }
      match reply {
        case Unreachable =>
          return Some(Conflict);
        case TimedOut =>
          var nextAttempts := e.attempts + 1;
          if nextAttempts >= MAX_ATTEMPTS {
            SetRow(id, rows[id].(state := Failed, attempts := nextAttempts, nextAttemptAt := None));
            return None;
          }
          Wait(id, nextAttempts, clock.now, rows[id].foreignTx);
          return None;
        case Accepted(foreignTx) =>
          SetRow(id, rows[id].(state := Confirmed, foreignTx := Known(foreignTx, e.foreignTx)));
          return None;
        case Pending(foreignTx) =>
          Wait(id, e.attempts + 1, clock.now, Known(foreignTx, e.foreignTx));
          return None;
        case Declined =>
          error := Decline(id, e, clock);
        case OtherReply =>
          return None;
      }
    }

    method Tick(contacts: seq<Contact>, clock: Clock) returns (failures: nat)
      requires InTable(contacts, |rows|) && Picked(rows, clock.now, IdsOf(contacts))
      modifies this
      ensures Contents() == TickResult(old(Contents()), contacts, clock)
      ensures failures <= |contacts|
    {
      ghost var before := Contents();
      var picked := rows;
      failures := 0;
      var k := 0;
      while k < |contacts|
        invariant 0 <= k <= |contacts| && failures <= k && |rows| == |picked| == |before.rows|
        invariant TickFrom(before, picked, contacts, 0, clock) == TickFrom(Contents(), picked, contacts, k, clock)
      {
        var c := contacts[k];
        var error := HandleOne(c.id, picked[c.id], c.railKnown, c.reply, clock);
        if error.Some? {
          failures := failures + 1;
        }
        k := k + 1;
      }
    }
  }
}
