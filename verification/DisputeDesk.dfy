/** The dispute services as they update their tables, one write after the other inside a transaction
    (service.js, reserve-holder.js, evidence-service.js, decision-service.js, settlement-service.js of
    modules/disputes). A transaction that fails restores what it found. */
module DisputeDesk {
  import opened Text
  import opened Ledger
  import opened Transfers
  import opened Disputes

  class Desk {
    var cases: seq<Case>
    var history: seq<Row>
    var decisions: map<nat, Decision>
    var evidence: seq<Evidence>
    var books: Books

    constructor (books: Books)
      ensures Contents() == Store([], [], map[], [], books)
    {
      this.books := books;
      cases, history, decisions, evidence := [], [], map[], [];
    }

    function Contents(): Store
      reads this
    {
      Store(cases, history, decisions, evidence, books)
    }

    method Rollback(saved: Store)
      modifies this
      ensures Contents() == saved
    {
      cases, history, decisions, evidence, books :=
        saved.cases, saved.history, saved.decisions, saved.evidence, saved.books;
    }

    method SetState(id: nat, c: Case)
      requires id < |cases|
      modifies this`cases
      ensures cases == old(cases)[id := c]
    {
      cases := cases[id := c];
    }

    method InsertHistory(caseId: nat, from: Option<State>, to: State)
      modifies this`history
      ensures history == old(history) + [Row(caseId, from, to)]
    {
      history := history + [Row(caseId, from, to)];
    }

    method InsertCase(c: Case)
      modifies this`cases, this`history
      ensures Contents() == Inserted(old(Contents()), c, Origin(c))
    {
      var id := |cases|;
      cases := cases + [c];
      InsertHistory(id, if c.state == Filed then None else Some(Filed), c.state);
    }

    method InsertDecision(id: nat, d: Decision) returns (inserted: bool)
      modifies this`decisions
      ensures inserted == (id !in old(decisions))
      ensures Contents() == Decided(old(Contents()), id, d)
    {
      inserted := id !in decisions;
      if inserted {
        decisions := decisions[id := d];
      }
    }

    method Transition(id: nat, c: Case) returns (error: Option<DisputeError>)
      modifies this`cases, this`history
      ensures match Advance(old(Contents()), id, c)
        case Ok(s) => error == None && Contents() == s
        case Err(e) => error == Some(e) && Contents() == old(Contents())
    {
      if id >= |cases| {
        return Some(NotFound);
      }
      var current := cases[id].state;
      if current == c.state {
        return None;
      }
      if IsTerminal(current) {
        return Some(Conflict);
      }
      if !CanTransition(current, c.state) {
        return Some(Conflict);
      }
      SetState(id, c);
      InsertHistory(id, Some(current), c.state);
      return None;
    }

    /** The insert of a new case and its history row; the row's foreign keys must exist. */
    method TryInsertCase(f: Filing, c: Case) returns (error: Option<DisputeError>)
      modifies this`cases, this`history
      ensures error == if Insertable(f) then None else Some(ForeignKey)
      ensures Contents() == if Insertable(f) then Inserted(old(Contents()), c, Origin(c)) else old(Contents())
    {
      if !f.knownParticipant || f.transaction.None? {
        return Some(ForeignKey);
      }
      InsertCase(c);
      return None;
    }

    method File(f: Filing) returns (error: Option<DisputeError>)
      modifies this
      ensures (Contents(), error) == FileStep(old(Contents()), f)
    {
      if !f.knownReason {
        return Some(ValidationFailed);
      }
      if f.recentFilings >= MAX_PER_CUSTOMER {
        error := TryInsertCase(f, NewCase(Rejected, 0, "XXX", ""));
        return if error.Some? then error else Some(RateLimited);
      }
      if f.transaction.None? {
        return Some(NotFound);
      }
      var tx := f.transaction.value;
      if tx.state.TxOther? {
        return Some(Conflict);
      }
      if f.fileWithinDays.Some? && f.ageDays > f.fileWithinDays.value {
        error := TryInsertCase(f, NewCase(Rejected, tx.amount, tx.currency, ""));
        return if error.Some? then error else Some(WindowExpired);
      }
      var amount := if f.amountOverride.Some? then f.amountOverride.value else tx.amount;
      error := TryInsertCase(f, NewCase(Filed, amount, tx.currency, tx.beneficiary));
    }

    method EnsureAccount(key: AccountKey) returns (error: Option<DisputeError>)
      modifies this`books
      ensures match Opened(old(books), key)
        case Ok(b) => error == None && books == b
        case Err(e) => error == Some(e) && books == old(books)
    {
      var account := Opened(books, key);
      if account.Err? {
        return Some(account.error);
      }
      books := account.value;
      return None;
    }

    method PostJournal(reason: Reason, id: nat, date: string, now: int, lines: seq<Line>)
        returns (r: Result<nat, DisputeError>)
      modifies this`books
      ensures match Journalled(old(books), reason, id, date, now, lines)
        case Ok(b) => r == Ok(old(books).nextSeq) && books == b
        case Err(e) => r == Err(e) && books == old(books)
    {
      var posted := Journalled(books, reason, id, date, now, lines);
      if posted.Err? {
        return Err(posted.error);
      }
      r := Ok(books.nextSeq);
      books := posted.value;
    }

    /** `holdAmount`; when it fails the surrounding transaction is rolled back. */
    method HoldAmount(id: nat, amount: int, currency: string, beneficiary: string, date: string, now: int)
      returns (r: Result<nat, DisputeError>)
      modifies this`books
      ensures match HoldResult(old(Contents()), id, amount, currency, beneficiary, date, now)
        case Ok(held) => r == Ok(held.0) && books == held.1
        case Err(e) => r == Err(e)
    {
      if id >= |cases| {
        return Err(NotFound);
      }
      var c := cases[id];
      if c.state != Accepted {
        return Err(Conflict);
      }
      if c.reserve.Some? {
        return Ok(c.reserve.value);
      }
      var error := EnsureAccount(SettlementOf(beneficiary, currency));
      if error.Some? {
        return Err(error.value);
      }
      error := EnsureAccount(ReserveOf(currency));
      if error.Some? {
        return Err(error.value);
      }
      r := PostJournal(DisputeReserveHold, id, date, now,
        Pair(SettlementOf(beneficiary, currency), ReserveOf(currency), amount));
    }

    method Accept(id: nat, p: Processing) returns (error: Option<DisputeError>)
      requires id < |cases|
      modifies this
      ensures match AcceptedAndHeld(old(Contents()), id, p)
        case Ok(s) => error == None && Contents() == s
        case Err(e) => error == Some(e)
    {
      var accepted := cases[id].(state := Accepted);
      InsertHistory(id, Some(cases[id].state), Accepted);
      SetState(id, accepted);
      var hold :=
        HoldAmount(id, accepted.amount, accepted.currency, Beneficiary(p.transaction, accepted), p.transaction.date,
          p.now);
      if hold.Err? {
        return Some(hold.error);
      }
      SetState(id, accepted.(reserve := Some(hold.value)));
      return None;
    }

    method Resolve(id: nat, p: Processing)
      requires id < |cases|
      modifies this
      ensures Contents() == Resolved(old(Contents()), id, p)
    {
      var c := cases[id];
      if p.resolution.Some? {
        var r := p.resolution.value;
        var inserted := InsertDecision(id, Decision(r.outcome, r.amount, None));
        SetState(id, c.(state := AutoResolved, outcome := Some(r.outcome), outcomeAmount := r.amount));
        InsertHistory(id, Some(c.state), AutoResolved);
      } else {
        SetState(id, c.(state := EvidencePending, deadline := Some(p.deadline)));
        InsertHistory(id, Some(c.state), EvidencePending);
      }
    }

    method Process(id: nat, p: Processing) returns (error: Option<DisputeError>)
      modifies this
      ensures (Contents(), error) == Committed(old(Contents()), ProcessResult(old(Contents()), id, p))
    {
      if id >= |cases| {
        return Some(NotFound);
      }
      if cases[id].state != Filed {
        return None;
      }
      if !p.valid {
        var c := cases[id];
        SetState(id, c.(state := Rejected));
        InsertHistory(id, Some(c.state), Rejected);
        return None;
      }
      var saved := Contents();
      error := Accept(id, p);
      if error.Some? {
        Rollback(saved);
        return;
      }
      Resolve(id, p);
    }

    method OperatorKill(id: nat) returns (error: Option<DisputeError>)
      modifies this
      ensures (Contents(), error) == Committed(old(Contents()), KillResult(old(Contents()), id))
    {
      if id >= |cases| {
        return Some(NotFound);
      }
      var current := cases[id];
      if IsTerminal(current.state) {
        return Some(Conflict);
      }
      SetState(id, current.(state := Denied));
      InsertHistory(id, Some(current.state), Denied);
      return None;
    }

    method UploadEvidence(id: nat, side: Party) returns (error: Option<DisputeError>)
      modifies this
      ensures (Contents(), error) == Committed(old(Contents()), UploadResult(old(Contents()), id, side))
    {
      if id >= |cases| {
        return Some(NotFound);
      }
      var c := cases[id];
      if c.state != EvidencePending && c.state != Adjudicating {
        return Some(Conflict);
      }
      var saved := Contents();
      evidence := evidence + [Evidence(id, side)];
      if c.state == EvidencePending && HasSide(evidence, id, Filer) && HasSide(evidence, id, Responder) {
        error := Transition(id, c.(state := Adjudicating));
        if error.Some? {
          Rollback(saved);
        }
        return;
      }
      return None;
    }

    method ExpireWindow(id: nat, now: int) returns (error: Option<DisputeError>)
      modifies this
      ensures (Contents(), error) == Committed(old(Contents()), ExpireResult(old(Contents()), id, now))
    {
      if id >= |cases| {
        return Some(NotFound);
      }
      var c := cases[id];
      if c.state != EvidencePending {
        return None;
      }
      if c.deadline.Some? && now < c.deadline.value {
        return None;
      }
      error := Transition(id, c.(state := Adjudicating));
    }

    method DecideManually(id: nat, r: Ruling) returns (error: Option<DisputeError>)
      modifies this
      ensures (Contents(), error) == Committed(old(Contents()), DecideResult(old(Contents()), id, r))
    {
      if id >= |cases| {
        return Some(NotFound);
      }
      var c := cases[id];
      if c.state != Adjudicating {
        return Some(Conflict);
      }
      if !ValidRuling(r, c.amount) {
        return Some(ValidationFailed);
      }
      var saved := Contents();
      var inserted := InsertDecision(id, Decision(r.outcome, r.amount, r.decidedBy));
      if !inserted {
        return Some(Conflict);
      }
      error := Transition(id, c.(state := StateFor(r.outcome), outcome := Some(r.outcome), outcomeAmount := r.amount));
      if error.Some? {
        Rollback(saved);
      }
    }

    method EnsureReleaseAccounts(c: Case, tx: Transaction) returns (error: Option<DisputeError>)
      modifies this`books
      ensures match ReleaseAccounts(old(books), c, tx)
        case Ok(b) => error == None && books == b && b.nextSeq == old(books).nextSeq
        case Err(e) => error == Some(e)
    {
      error := EnsureAccount(ReserveOf(c.currency));
      if error.Some? {
        return;
      }
      error := EnsureAccount(SettlementOf(tx.originator, c.currency));
      if error.Some? {
        return;
      }
      error := EnsureAccount(SettlementOf(tx.beneficiary, c.currency));
    }

    /** `postReleaseJournal` */
    method PostRelease(id: nat, tx: Transaction, outcome: Verdict, now: int) returns (r: Result<nat, DisputeError>)
      requires id < |cases|
      modifies this`books
      ensures match Released(old(books), id, cases[id], tx, outcome, now)
        case Ok(b) => r == Ok(old(books).nextSeq) && books == b
        case Err(e) => r == Err(e)
    {
      var c := cases[id];
      var error := EnsureReleaseAccounts(c, tx);
      if error.Some? {
        return Err(error.value);
      }
      var lines := ReleaseLines(c, tx, outcome, c.outcomeAmount);
      if lines.Err? {
        return Err(lines.error);
      }
      r := PostJournal(DisputeReserveRelease, id, tx.date, now, lines.value);
    }

    method Settle(id: nat, tx: Transaction, outcome: Verdict, now: int) returns (error: Option<DisputeError>)
      requires id < |cases|
      modifies this
      ensures (Contents(), error) == Committed(old(Contents()), SettledWith(old(Contents()), id, tx, outcome, now))
    {
      var saved := Contents();
      var release := PostRelease(id, tx, outcome, now);
      if release.Err? {
        Rollback(saved);
        return Some(release.error);
      }
      error := Transition(id, cases[id].(state := Settled, release := Some(release.value)));
      if error.Some? {
        Rollback(saved);
      }
    }

    method SettleAutoResolved(id: nat, tx: Option<Transaction>, now: int) returns (error: Option<DisputeError>)
      modifies this
      ensures (Contents(), error) == Committed(old(Contents()), SettleAutoResult(old(Contents()), id, tx, now))
    {
      if id >= |cases| {
        return Some(NotFound);
      }
      var c := cases[id];
      if c.state == Settled {
        return None;
      }
      if c.state != AutoResolved {
        return Some(Conflict);
      }
      if tx.None? {
        return Some(NotFound);
      }
      error := Settle(id, tx.value, if c.outcome.Some? then c.outcome.value else UnknownVerdict, now);
    }

    method ConfirmSettlement(id: nat, user: Option<string>, tx: Option<Transaction>, now: int)
        returns (error: Option<DisputeError>)
      modifies this
      ensures (Contents(), error) == Committed(old(Contents()), ConfirmResult(old(Contents()), id, user, tx, now))
    {
      if id >= |cases| {
        return Some(NotFound);
      }
      var c := cases[id];
      if c.state == Settled {
        return None;
      }
      if c.state != Upheld && c.state != PartialUpheld && c.state != Denied {
        return Some(Conflict);
      }
      if c.release.Some? {
        return None;
      }
      if id !in decisions {
        return Some(NoDecision);
      }
      if decisions[id].decidedBy.Some? && decisions[id].decidedBy == user {
        return Some(MakerChecker);
      }
      if tx.None? {
        return Some(NotFound);
      }
      error := Settle(id, tx.value, OutcomeOf(c.state), now);
    }
  }
}
