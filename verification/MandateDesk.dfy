/** The mandates service as it updates its tables (modules/overlays-mandates/service.js). */
module MandateDesk {
  import opened Text
  import opened Sums
  import opened Mandates

  class Desk {
    const month: int -> int
    var mandates: seq<Mandate>
    var debits: seq<Debit>
    var payments: seq<Payment>
    var clock: int

    constructor (month: int -> int, clock: int)
      ensures Contents() == Store(month, [], [], [], clock)
    {
      this.month, this.clock := month, clock;
      mandates, debits, payments := [], [], [];
    }

    function Contents(): Store
      reads this
    {
      Store(month, mandates, debits, payments, clock)
    }

    method SumSuccessfulDebitsSince(id: nat, since: int) returns (sum: int)
      ensures sum == SumSince(debits, id, since)
    {
      sum := 0;
      var i := 0;
      while i < |debits|
        invariant 0 <= i <= |debits| && sum == SumSince(debits[..i], id, since)
      {
        assert debits[..i + 1] == debits[..i] + [debits[i]];
        SumAppend(debits[..i], debits[i], SuccessSince(id, since));
        if debits[i].mandateId == id && debits[i].result == Success && debits[i].at >= since {
          sum := sum + debits[i].amount;
        }
        i := i + 1;
      }
      assert debits[..i] == debits;
    }

    method CheckCaps(id: nat, presented: nat, now: int) returns (ok: bool)
      requires id < |mandates|
      ensures ok == WithinCaps(Contents(), id, presented, now)
    {
      var m := mandates[id];
      if presented > m.perDebitCap {
        return false;
      }
      if m.dailyCap.Some? {
        var sum := SumSuccessfulDebitsSince(id, DayStart(now));
        if sum + presented > m.dailyCap.value {
          return false;
        }
      }
      if m.monthlyCap.Some? {
        var sum := SumSuccessfulDebitsSince(id, month(now));
        if sum + presented > m.monthlyCap.value {
          return false;
        }
      }
      if m.totalCap.Some? {
        if m.totalDebited + presented > m.totalCap.value {
          return false;
        }
      }
      return true;
    }

    method InsertDebit(d: Debit)
      modifies this`debits, this`clock
      ensures debits == old(debits) + [d] && clock == d.at
    {
      debits := debits + [d];
      clock := d.at;
    }

    /** `presentDebit` up to the payment. */
    method BeginDebit(id: nat, presented: nat, now: int) returns (error: Option<MandateError>)
      modifies this
      ensures (Contents(), error) == Committed(old(Contents()), BeginResult(old(Contents()), id, presented, now))
    {
      if id >= |mandates| {
        return Some(NotFound);
      }
      if IsTerminal(mandates[id].state) {
        InsertDebit(Debit(id, presented, Other, now));
        return None;
      }
      if mandates[id].state == Paused {
        InsertDebit(Debit(id, presented, PausedResult, now));
        return None;
      }
      var ok := CheckCaps(id, presented, now);
      if !ok {
        InsertDebit(Debit(id, presented, CapBreach, now));
        return None;
      }
      payments := payments + [Payment(id, presented, UnderWay)];
      clock := now;
      return None;
    }

    method EndPayment(p: nat, state: PaymentState)
      requires p < |payments|
      modifies this`payments
      ensures Contents() == Ended(old(Contents()), p, state)
    {
      payments := payments[p := payments[p].(state := state)];
    }

    /** `presentDebit` after the p-th payment. */
    method FinishDebit(p: nat, confirmed: bool, now: int) returns (error: Option<MandateError>)
      modifies this
      ensures (Contents(), error) == Committed(old(Contents()), FinishResult(old(Contents()), p, confirmed, now))
    {
      if !InProgress(Contents(), p) {
        return Some(NotFound);
      }
      var id, amount := payments[p].mandateId, payments[p].amount;
      EndPayment(p, if confirmed then Paid else NotPaid);
      InsertDebit(Debit(id, amount, if confirmed then Success else Other, now));
      if confirmed {
        var m := mandates[id];
        m := m.(totalDebited := m.totalDebited + amount, debitCount := m.debitCount + 1);
        if m.totalCap.Some? && m.totalDebited >= m.totalCap.value {
          m := m.(state := Exhausted);
        }
        mandates := mandates[id := m];
      }
      return None;
    }

    method Abandon(p: nat) returns (error: Option<MandateError>)
      modifies this`payments
      ensures (Contents(), error) == Committed(old(Contents()), AbandonResult(old(Contents()), p))
    {
      if !InProgress(Contents(), p) {
        return Some(NotFound);
      }
      EndPayment(p, NotPaid);
      return None;
    }

    method Create(caps: Caps)
      modifies this`mandates
      ensures Contents() == Created(old(Contents()), caps)
    {
      mandates := mandates + [Mandate(Active, caps.perDebit, caps.daily, caps.monthly, caps.total, 0, 0)];
    }

    method SetState(id: nat, state: State)
      requires id < |mandates|
      modifies this`mandates
      ensures Contents() == WithState(old(Contents()), id, state)
    {
      mandates := mandates[id := mandates[id].(state := state)];
    }

    method Revoke(id: nat) returns (error: Option<MandateError>)
      modifies this`mandates
      ensures (Contents(), error) == Committed(old(Contents()), RevokeResult(old(Contents()), id))
    {
      if id >= |mandates| {
        return Some(NotFound);
      }
      if IsTerminal(mandates[id].state) {
        return Some(Conflict);
      }
      SetState(id, Revoked);
      return None;
    }

    method Pause(id: nat) returns (error: Option<MandateError>)
      modifies this`mandates
      ensures (Contents(), error) == Committed(old(Contents()), PauseResult(old(Contents()), id))
    {
      if id >= |mandates| {
        return Some(NotFound);
      }
      if mandates[id].state != Active {
        return Some(Conflict);
      }
      SetState(id, Paused);
      return None;
    }

    method Resume(id: nat) returns (error: Option<MandateError>)
      modifies this`mandates
      ensures (Contents(), error) == Committed(old(Contents()), ResumeResult(old(Contents()), id))
    {
      if id >= |mandates| {
        return Some(NotFound);
      }
      if mandates[id].state != Paused {
        return Some(Conflict);
      }
      SetState(id, Active);
      return None;
    }
  }
}
