/** The escrow service as it updates its tables (modules/overlays-escrow/service.js), one transaction a
    method. A transaction that fails restores what it found. */
module EscrowDesk {
  import opened Text
  import opened Ledger
  import opened Escrow

  lemma LastRow(holds: seq<Hold>, row: Hold, e: Hold)
    ensures (holds + [row])[|holds| := e] == holds + [e]
  {
  }

  class Desk {
    var holds: seq<Hold>
    var books: Books

    constructor (books: Books)
      ensures Contents() == Store([], books)
    {
      this.books := books;
      holds := [];
    }

    function Contents(): Store
      reads this
    {
      Store(holds, books)
    }

    method Rollback(saved: Store)
      modifies this
      ensures Contents() == saved
    {
      holds, books := saved.holds, saved.books;
    }

    method SetRow(id: nat, e: Hold)
      requires id < |holds|
      modifies this`holds
      ensures holds == old(holds)[id := e]
    {
      holds := holds[id := e];
    }

    method EnsureAccount(key: AccountKey) returns (error: Option<EscrowError>)
      modifies this`books
      ensures match Opened(old(books), key)
        case Ok(b) => error == None && books == b
        case Err(e) => error == Some(e) && books == old(books)
    {
      var account := Opened(books, key);
      if account.Err? {
        return Some(account.error);
      }
      books := account.value;
      return None;
    }

    method EnsureAccounts(payer: string, payee: string, currency: string) returns (error: Option<EscrowError>)
      modifies this`books
      ensures match AccountsOpened(old(books), payer, payee, currency)
        case Ok(b) => error == None && books == b
        case Err(e) => error == Some(e)
    {
      error := EnsureAccount(SettlementOf(payer, currency));
      if error.None? {
        error := EnsureAccount(SettlementOf(payee, currency));
        if error.None? {
          error := EnsureAccount(EscrowOf(currency));
        }
      }
    }

    method PostJournal(reason: Reason, id: nat, e: Hold, from: AccountKey, to: AccountKey, clock: Clock)
        returns (error: Option<EscrowError>)
      modifies this`books
      ensures match Journalled(old(books), reason, id, e, from, to, clock)
        case Ok(b) => error == None && books == b
        case Err(err) => error == Some(err) && books == old(books)
    {
      var posted := Journalled(books, reason, id, e, from, to, clock);
      if posted.Err? {
        return Some(posted.error);
      }
      books := posted.value;
      return None;
    }

    /** The accounts and the hold journal of a new row. */
    method PostHold(id: nat, row: Hold, t: Terms, clock: Clock) returns (error: Option<EscrowError>)
      modifies this`books
      ensures match AccountsOpened(old(books), t.payer, t.payee, t.currency)
        case Err(e) => error == Some(e)
        case Ok(b) =>
          match Journalled(b, EscrowHold, id, row, SettlementOf(t.payer, t.currency), EscrowOf(t.currency), clock)
          case Err(e) => error == Some(e)
          case Ok(b') => error == None && books == b'
    {
      error := EnsureAccounts(t.payer, t.payee, t.currency);
      if error.None? {
        error := PostJournal(EscrowHold, id, row, SettlementOf(t.payer, t.currency), EscrowOf(t.currency), clock);
      }
    }

    method Create(t: Terms, clock: Clock) returns (error: Option<EscrowError>)
      modifies this
      ensures (Contents(), error) == Committed(old(Contents()), CreateResult(old(Contents()), t, clock))
    {
      if !t.payerKnown || !t.payeeKnown {
        return Some(NotFound);
      }
      if t.condition.TimeElapsed? && t.releaseAt.None? {
        return Some(ValidationFailed);
      }
      if t.condition.ArbiterRelease? && t.arbiter.None? {
        return Some(ValidationFailed);
      }
      var saved := Contents();
      var id, row := |holds|, NewHold(t);
      holds := holds + [row];
      error := PostHold(id, row, t, clock);
      if error.Some? {
        Rollback(saved);
        return;
      }
      SetRow(id, row.(state := Held));
      LastRow(saved.holds, row, row.(state := Held));
    }

    /** `releaseInternal` from a row that was read before. */
    method ReleaseInternal(id: nat, e: Hold, clock: Clock) returns (error: Option<EscrowError>)
      requires id < |holds|
      modifies this
      ensures (Contents(), error) == Committed(old(Contents()), ReleaseResult(old(Contents()), id, e, clock))
    {
      if !CanTransition(e.state, Released) {
        return Some(Conflict);
      }
      error := PostJournal(EscrowRelease, id, e, EscrowOf(e.currency), SettlementOf(e.payee, e.currency), clock);
      if error.None? {
        SetRow(id, holds[id].(state := Released, releasedAt := Some(clock.now)));
      }
    }

    method RefundInternal(id: nat, clock: Clock) returns (error: Option<EscrowError>)
      requires id < |holds|
      modifies this
      ensures (Contents(), error) == Committed(old(Contents()), RefundResult(old(Contents()), id, clock))
    {
      var e := holds[id];
      if !CanTransition(e.state, Refunded) {
        return Some(Conflict);
      }
      error := PostJournal(EscrowRelease, id, e, EscrowOf(e.currency), SettlementOf(e.payer, e.currency), clock);
      if error.None? {
        SetRow(id, e.(state := Refunded));
      }
    }

    method Sign(id: nat, signer: Signer, clock: Clock) returns (error: Option<EscrowError>)
      modifies this
      ensures (Contents(), error) == Committed(old(Contents()), SignResult(old(Contents()), id, signer, clock))
    {
      if id >= |holds| {
        return Some(NotFound);
      }
      if holds[id].state != Held {
        return Some(Conflict);
      }
      if !holds[id].condition.BothSignatures? {
        return Some(Conflict);
      }
      if signer.OtherSigner? {
        return Some(ValidationFailed);
      }
      var saved := Contents();
      var updated := Signed(holds[id], signer);
      SetRow(id, updated);
      if updated.payerSigned && updated.payeeSigned {
        error := ReleaseInternal(id, updated, clock);
        if error.Some? {
          Rollback(saved);
        }
        return;
      }
      return None;
    }

    method PayerRelease(id: nat, clock: Clock) returns (error: Option<EscrowError>)
      modifies this
      ensures (Contents(), error) == Committed(old(Contents()), PayerReleaseResult(old(Contents()), id, clock))
    {
      if id >= |holds| {
        return Some(NotFound);
      }
      if !holds[id].condition.PayerRelease? {
        return Some(Conflict);
      }
      error := ReleaseInternal(id, holds[id], clock);
    }

    method ArbiterRelease(id: nat, user: Option<string>, clock: Clock) returns (error: Option<EscrowError>)
      modifies this
      ensures (Contents(), error) == Committed(old(Contents()), ArbiterReleaseResult(old(Contents()), id, user, clock))
    {
      if id >= |holds| {
        return Some(NotFound);
      }
      if !holds[id].condition.ArbiterRelease? {
        return Some(Conflict);
      }
      if holds[id].arbiter != user {
        return Some(NotArbiter);
      }
      error := ReleaseInternal(id, holds[id], clock);
    }

    method Refund(id: nat, clock: Clock) returns (error: Option<EscrowError>)
      modifies this
      ensures (Contents(), error) == Committed(old(Contents()), RefundByPayer(old(Contents()), id, clock))
    {
      if id >= |holds| {
        return Some(NotFound);
      }
      error := RefundInternal(id, clock);
    }

    method Cancel(id: nat, clock: Clock) returns (error: Option<EscrowError>)
      modifies this
      ensures (Contents(), error) == Committed(old(Contents()), CancelResult(old(Contents()), id, clock))
    {
      if id >= |holds| {
        return Some(NotFound);
      }
      if IsTerminal(holds[id].state) {
        return Some(Conflict);
      }
      if holds[id].state == Initiated {
        SetRow(id, holds[id].(state := Cancelled));
        return None;
      }
      error := RefundInternal(id, clock);
    }

    /** The loop of `tick` over the rows picked. */
    method ReleaseEach(due: seq<nat>, rows: seq<Hold>, clock: Clock) returns (failures: nat)
      requires |rows| == |due| && InTable(due, |holds|)
      modifies this
      ensures Contents() == TickFrom(old(Contents()), rows, due, 0, clock)
      ensures failures <= |due|
    {
      ghost var before := Contents();
      failures := 0;
      var k := 0;
      while k < |due|
        invariant 0 <= k <= |due| && failures <= k && |holds| == |before.holds|
        invariant TickFrom(before, rows, due, 0, clock) == TickFrom(Contents(), rows, due, k, clock)
      {
        var error := ReleaseInternal(due[k], rows[k], clock);
        if error.Some? {
          failures := failures + 1;
        }
        k := k + 1;
      }
    }

    /** The worker releases the rows it picked, each in its own transaction; a failure does not stop it. */
    method Tick(due: seq<nat>, clock: Clock) returns (failures: nat)
      requires Picked(holds, clock.now, due)
      modifies this
      ensures Contents() == TickResult(old(Contents()), due, clock)
      ensures failures <= |due|
    {
      failures := ReleaseEach(due, RowsOf(Contents(), due), clock);
    }
  }
}
