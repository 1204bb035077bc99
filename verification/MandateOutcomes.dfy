/** What becomes of a mandate, from the outside: which debit is paid and why another is refused, what a
    payment's end records, and which operation takes a mandate to which state. */
module MandateOutcomes {
  import opened Text
  import opened Sums
  import opened Mandates
  import opened MandateCaps

  /** Two times are in one UTC day exactly when they have as many whole days of milliseconds behind them. */
  lemma SameDay(t: int, u: int)
    ensures DayStart(t) == DayStart(u) <==> t / 86_400_000 == u / 86_400_000
  {
    DayStartOf(t);
    DayStartOf(u);
    if t / 86_400_000 != u / 86_400_000 {
      ProductsDiffer(t / 86_400_000, u / 86_400_000);
    }
  }

  lemma ProductsDiffer(x: int, y: int)
    requires x != y
    ensures 86_400_000 * x != 86_400_000 * y
  {
  }

  // ----- the check

  /** What the debit leaves of its day, of its month and of the mandate's lifetime: nothing is exceeded. */
  predicate StaysWithin(s: Store, id: nat, amount: nat, now: int)
    requires id < |s.mandates|
  {
    var m := s.mandates[id];
    && amount <= m.perDebitCap
    && (m.dailyCap.None? || SumIn(s.debits, DayStart, id, DayStart(now)) + amount <= m.dailyCap.value)
    && (m.monthlyCap.None? || SumIn(s.debits, s.month, id, s.month(now)) + amount <= m.monthlyCap.value)
    && (m.totalCap.None? || SumSucceeded(s.debits, id) + amount <= m.totalCap.value)
  }

  lemma WithinExactly(s: Store, id: nat, amount: nat, now: int)
    requires IsCalendar(s.month) && RowsSound(s) && id < |s.mandates| && s.clock <= now
    ensures WithinCaps(s, id, amount, now) <==> StaysWithin(s, id, amount, now)
  {
    DaysAreCalendar();
    PeriodIsSumSince(s.debits, DayStart, id, now);
    PeriodIsSumSince(s.debits, s.month, id, now);
    assert TotalRight(s, id);
  }

  /** Why a debit is refused: the mandate is over, paused, or a cap would be exceeded. */
  function WhyRefused(s: Store, id: nat, amount: nat, now: int): Option<DebitResult>
    requires id < |s.mandates|
  {
    match s.mandates[id].state
    case Revoked => Some(Other)
    case Exhausted => Some(Other)
    case Paused => Some(PausedResult)
    case Active => if StaysWithin(s, id, amount, now) then None else Some(CapBreach)
  }

  /** Presenting a debit starts its payment, or leaves one row that says why not. */
  lemma BeginExactly(s: Store, id: nat, amount: nat, now: int)
    requires IsCalendar(s.month) && RowsSound(s) && s.clock <= now
    ensures var (after, error) := Step(s, Begin(id, amount, now));
      if id >= |s.mandates| then after == s && error == Some(NotFound)
      else
        && error == None && after.mandates == s.mandates
        && match WhyRefused(s, id, amount, now)
          case None => after.debits == s.debits && after.payments == s.payments + [Payment(id, amount, UnderWay)]
          case Some(why) => after.debits == s.debits + [Debit(id, amount, why, now)] && after.payments == s.payments
  {
    if id < |s.mandates| {
      WithinExactly(s, id, amount, now);
    }
  }

  /** A payment that ends well is one success more, for its amount, in the row, the total and the count; one that
      ends otherwise is a row of its own kind, and one that is given up leaves no row. */
  lemma FinishExactly(s: Store, p: nat, confirmed: bool, now: int)
    requires p < |s.payments| && s.payments[p].state == UnderWay && s.payments[p].mandateId < |s.mandates|
    ensures var after, id, amount :=
        Step(s, Finish(p, confirmed, now)).0, s.payments[p].mandateId, s.payments[p].amount;
      && after.debits == s.debits + [Debit(id, amount, if confirmed then Success else Other, now)]
      && after.payments == s.payments[p := Payment(id, amount, if confirmed then Paid else NotPaid)]
      && |after.mandates| == |s.mandates|
      && (forall k :: 0 <= k < |s.mandates| && k != id ==> after.mandates[k] == s.mandates[k])
      && var m := s.mandates[id];
         after.mandates[id] ==
           if !confirmed then m
           else m.(totalDebited := m.totalDebited + amount, debitCount := m.debitCount + 1,
                   state := if m.totalCap.Some? && m.totalCap.value <= m.totalDebited + amount then Exhausted
                            else m.state)
  {
  }

  lemma AbandonExactly(s: Store, p: nat)
    requires p < |s.payments| && s.payments[p].state == UnderWay && s.payments[p].mandateId < |s.mandates|
    ensures Step(s, Abandon(p)).0
      == s.(payments := s.payments[p := Payment(s.payments[p].mandateId, s.payments[p].amount, NotPaid)])
  {
  }

  // ----- states

  /** The operation takes the mandate to this state, from another. */
  predicate Moves(s: Store, op: Op, id: nat, to: State)
    requires id < |s.mandates|
  {
    var m := s.mandates[id];
    match to
    case Active => op.Resume? && op.id == id && m.state == Paused
    case Paused => op.Pause? && op.id == id && m.state == Active
    case Revoked => op.Revoke? && op.id == id && (m.state == Active || m.state == Paused)
    case Exhausted =>
      op.Finish? && op.confirmed && op.payment < |s.payments| && s.payments[op.payment].state == UnderWay
      && s.payments[op.payment].mandateId == id && m.state != Exhausted
      && m.totalCap.Some? && m.totalCap.value <= m.totalDebited + s.payments[op.payment].amount
  }

  /** A mandate goes to another state exactly when one of the operations that lead there finds its conditions
      met: paused and resumed by hand, revoked before it is over, exhausted by the debit that reaches the total. */
  lemma StateChanges(s: Store, op: Op, id: nat, to: State)
    requires id < |s.mandates|
    ensures id < |Step(s, op).0.mandates|
    ensures Step(s, op).0.mandates[id].state == to && s.mandates[id].state != to <==> Moves(s, op, id, to)
  {
  }

  /** A new mandate is active, with the caps asked for and nothing debited. */
  lemma CreateExactly(s: Store, caps: Caps)
    ensures Step(s, Create(caps)).0 == s.(mandates := s.mandates + [
      Mandate(Active, caps.perDebit, caps.daily, caps.monthly, caps.total, 0, 0)])
  {
  }

  // ----- counts

  function OneSuccess(id: nat): Debit -> int {
    (d: Debit) => if d.mandateId == id && d.result == Success then 1 else 0
  }

  ghost predicate CountRight(s: Store, id: nat) {
    id < |s.mandates| ==> s.mandates[id].debitCount == SumOf(s.debits, OneSuccess(id))
  }

  lemma CountStep(s: Store, op: Op, id: nat)
    requires RowsSound(s) && Possible(s, op) && CountRight(s, id)
    ensures CountRight(Step(s, op).0, id)
  {
    var after := Step(s, op).0;
    StepRow(s, op);
    if id < |s.mandates| {
      StepCount(s, op, id);
      if |after.debits| > |s.debits| {
        SumAppend(s.debits, after.debits[|s.debits|], OneSuccess(id));
      }
    } else if id < |after.mandates| {
      SumZero(s.debits, OneSuccess(id));
    }
  }

  lemma StepCount(s: Store, op: Op, id: nat)
    requires id < |s.mandates|
    ensures id < |Step(s, op).0.mandates|
    ensures Step(s, op).0.mandates[id].debitCount == s.mandates[id].debitCount +
      if Pays(s, op) && s.payments[op.payment].mandateId == id then 1 else 0
  {
  }

  /** In every run from an empty table the count of a mandate is the number of its successes, and its total
      their sum. */
  lemma {:induction false} RunCounts(s: Store, ops: seq<Op>, id: nat)
    requires s.mandates == [] && RowsSound(s) && PossibleRun(s, ops)
    ensures var t := Run(s, ops);
      id < |t.mandates| ==>
        && t.mandates[id].debitCount == SumOf(t.debits, OneSuccess(id))
        && t.mandates[id].totalDebited == SumSucceeded(t.debits, id)
  {
    CountsInRun(s, ops, id);
    RunRows(s, ops);
    var t := Run(s, ops);
    assert id < |t.mandates| ==> TotalRight(t, id);
  }

  lemma {:induction false} CountsInRun(s: Store, ops: seq<Op>, id: nat)
    requires s.mandates == [] && RowsSound(s) && PossibleRun(s, ops)
    ensures CountRight(Run(s, ops), id)
  {
    if ops != [] {
      CountsInRun(s, ops[..|ops| - 1], id);
      RunRows(s, ops[..|ops| - 1]);
      CountStep(Run(s, ops[..|ops| - 1]), ops[|ops| - 1], id);
    }
  }
}
