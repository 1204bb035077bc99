/** Mandate caps over whole runs, with any number of debits of a mandate under way at once: when no day,
    no month and no mandate's lifetime sees more successful debits than its cap allows, and exactly when
    that can be relied on. */
module MandateCaps {
  import opened Text
  import opened Sums
  import opened Mandates

  // ----- what one step does to one mandate

  predicate CountsFor(d: Debit, id: nat) {
    d.mandateId == id && d.result == Success
  }

  /** Every sum of the mandate's successes is the same in both tables. */
  ghost predicate SameSums(a: seq<Debit>, b: seq<Debit>, id: nat) {
    && (forall start: int -> int, period: int :: SumIn(b, start, id, period) == SumIn(a, start, id, period))
    && SumSucceeded(b, id) == SumSucceeded(a, id)
  }

  /** A row that is no success of this mandate changes none of its sums. */
  lemma UncountedDebit(debits: seq<Debit>, d: Debit, id: nat)
    requires !CountsFor(d, id)
    ensures SameSums(debits, debits + [d], id)
  {
    forall start: int -> int, period: int
      ensures SumIn(debits + [d], start, id, period) == SumIn(debits, start, id, period)
    {
      SumAppend(debits, d, SuccessIn(start, id, period));
    }
    SumAppend(debits, d, Succeeded(id));
  }

  /** Time passes, payments end without a success of the mandate, and its sums stay. */
  lemma QuietKeeps(s: Store, after: Store, id: nat)
    requires IsCalendar(s.month) && RowsSound(s) && id < |s.mandates| && CapsHold(s, id) && HasRoom(s, id)
    requires after.month == s.month && s.clock <= after.clock && id < |after.mandates|
    requires after.mandates[id] == s.mandates[id].(state := after.mandates[id].state)
    requires SameSums(s.debits, after.debits, id) && OpenSum(after.payments, id) <= OpenSum(s.payments, id)
    ensures CapsHold(after, id) && HasRoom(after, id)
  {
    var m, open := s.mandates[id], OpenSum(s.payments, id);
    DaysAreCalendar();
    RoomLater(s.debits, DayStart, id, m.dailyCap, s.clock, after.clock, open);
    RoomLater(s.debits, s.month, id, m.monthlyCap, s.clock, after.clock, open);
  }

  lemma OpenAfterEnd(payments: seq<Payment>, p: nat, state: PaymentState, id: nat)
    requires p < |payments| && payments[p].state == UnderWay && state != UnderWay
    ensures OpenSum(payments[p := payments[p].(state := state)], id)
      == OpenSum(payments, id) - if payments[p].mandateId == id then payments[p].amount else 0
  {
    SumUpdate(payments, p, payments[p].(state := state), OpenAmount(id));
  }

  lemma OpenAfterStart(payments: seq<Payment>, mandate: nat, amount: nat, id: nat)
    ensures OpenSum(payments + [Payment(mandate, amount, UnderWay)], id)
      == OpenSum(payments, id) + if mandate == id then amount else 0
  {
    SumAppend(payments, Payment(mandate, amount, UnderWay), OpenAmount(id));
  }

  lemma OpenNonNegative(payments: seq<Payment>, id: nat)
    ensures OpenSum(payments, id) >= 0
  {
    forall i | 0 <= i < |payments|
      ensures OpenAmount(id)(payments[i]) >= 0
    {
      var amount: nat := payments[i].amount;
    }
    SumNonNegative(payments, OpenAmount(id));
  }

  /** One payment under way is part of what is under way. */
  lemma OpenAtLeast(payments: seq<Payment>, p: nat, id: nat)
    requires p < |payments| && payments[p].state == UnderWay && payments[p].mandateId == id
    ensures payments[p].amount <= OpenSum(payments, id)
  {
    OpenAfterEnd(payments, p, Paid, id);
    OpenNonNegative(payments[p := payments[p].(state := Paid)], id);
  }

  /** The check passes and the payment of a debit of this mandate starts. */
  predicate Starts(s: Store, op: Op, id: nat) {
    op.Begin? && op.id == id && id < |s.mandates| && Refusal(s, id, op.presented, op.now) == None
  }

  /** A payment that starts leaves room for everything under way exactly when its debit fits together with
      what was already under way. */
  lemma StartExact(s: Store, op: Op, id: nat)
    requires IsCalendar(s.month) && RowsSound(s) && Possible(s, op) && Starts(s, op, id)
    ensures HasRoom(Step(s, op).0, id) <==> FitsWithOpen(s, id, op.presented, op.now)
  {
    DaysAreCalendar();
    OpenAfterStart(s.payments, id, op.presented, id);
    PeriodIsSumSince(s.debits, DayStart, id, op.now);
    PeriodIsSumSince(s.debits, s.month, id, op.now);
  }

  /** The success of a payment of this mandate. */
  lemma SuccessKeeps(s: Store, p: nat, now: int, id: nat)
    requires IsCalendar(s.month) && RowsSound(s) && id < |s.mandates| && CapsHold(s, id) && HasRoom(s, id)
    requires InProgress(s, p) && s.payments[p].mandateId == id && s.clock <= now
    ensures var after := FinishResult(s, p, true, now).value;
      CapsHold(after, id) && HasRoom(after, id)
  {
    var m, amount, open := s.mandates[id], s.payments[p].amount, OpenSum(s.payments, id);
    DaysAreCalendar();
    OpenAtLeast(s.payments, p, id);
    OpenAfterEnd(s.payments, p, Paid, id);
    RecordKeepsCap(s.debits, DayStart, id, m.dailyCap, s.clock, now, amount, open);
    RecordKeepsCap(s.debits, s.month, id, m.monthlyCap, s.clock, now, amount, open);
  }

  lemma FinishKeeps(s: Store, p: nat, confirmed: bool, now: int, id: nat)
    requires IsCalendar(s.month) && RowsSound(s) && id < |s.mandates| && CapsHold(s, id) && HasRoom(s, id)
    requires InProgress(s, p) && s.clock <= now
    ensures var after := FinishResult(s, p, confirmed, now).value;
      CapsHold(after, id) && HasRoom(after, id)
  {
    var after := FinishResult(s, p, confirmed, now).value;
    if confirmed && s.payments[p].mandateId == id {
      SuccessKeeps(s, p, now, id);
    } else {
      var amount: nat := s.payments[p].amount;
      UncountedDebit(s.debits, after.debits[|s.debits|], id);
      OpenAfterEnd(s.payments, p, if confirmed then Paid else NotPaid, id);
      QuietKeeps(s, after, id);
    }
  }

  lemma BeginKeeps(s: Store, op: Op, id: nat)
    requires IsCalendar(s.month) && RowsSound(s) && id < |s.mandates| && CapsHold(s, id) && HasRoom(s, id)
    requires op.Begin? && Possible(s, op) && op.id < |s.mandates|
    requires Starts(s, op, id) ==> FitsWithOpen(s, id, op.presented, op.now)
    ensures CapsHold(Step(s, op).0, id) && HasRoom(Step(s, op).0, id)
  {
    var after := Step(s, op).0;
    var refusal := Refusal(s, op.id, op.presented, op.now);
    if Starts(s, op, id) {
      StartExact(s, op, id);
    } else if refusal.Some? {
      UncountedDebit(s.debits, Debit(op.id, op.presented, refusal.value, op.now), id);
      QuietKeeps(s, after, id);
    } else {
      OpenAfterStart(s.payments, op.id, op.presented, id);
      QuietKeeps(s, after, id);
    }
  }

  /** Whatever the operation is, the caps of a mandate hold after it, and have room for what is under way,
      as long as a payment of its own that starts fits together with what was under way. */
  lemma StepKeeps(s: Store, op: Op, id: nat)
    requires IsCalendar(s.month) && RowsSound(s) && id < |s.mandates| && CapsHold(s, id) && HasRoom(s, id)
    requires Possible(s, op) && (Starts(s, op, id) ==> FitsWithOpen(s, id, op.presented, op.now))
    ensures var after := Step(s, op).0;
      id < |after.mandates| && CapsHold(after, id) && HasRoom(after, id)
  {
    var after := Step(s, op).0;
    if op.Begin? && op.id < |s.mandates| {
      BeginKeeps(s, op, id);
    } else if op.Finish? && InProgress(s, op.payment) {
      FinishKeeps(s, op.payment, op.confirmed, op.now, id);
    } else if op.Abandon? && InProgress(s, op.payment) {
      var amount: nat := s.payments[op.payment].amount;
      OpenAfterEnd(s.payments, op.payment, NotPaid, id);
      QuietKeeps(s, after, id);
    } else {
      QuietKeeps(s, after, id);
    }
  }

  /** A step adds at most one row, and a success only for a payment that ends well. */
  lemma StepRow(s: Store, op: Op)
    ensures var before, after := s.debits, Step(s, op).0.debits;
      if Pays(s, op) then
        after == before + [Debit(s.payments[op.payment].mandateId, s.payments[op.payment].amount, Success, op.now)]
      else
        after == before
        || (|after| > |before| && after == before + [after[|before|]] && after[|before|].result != Success)
  {
  }

  /** The operation records the success of a payment. */
  predicate Pays(s: Store, op: Op) {
    op.Finish? && op.confirmed && InProgress(s, op.payment)
  }

  /** Mandates stay, with their caps. */
  lemma StepMandates(s: Store, op: Op)
    ensures var before, after := s.mandates, Step(s, op).0.mandates;
      |before| <= |after| && forall i :: 0 <= i < |before| ==> after[i].perDebitCap == before[i].perDebitCap
  {
  }

  lemma StepPayments(s: Store, op: Op)
    requires PaymentsKnown(s)
    ensures PaymentsKnown(Step(s, op).0)
  {
    StepMandates(s, op);
  }

  lemma StepRowKnown(s: Store, op: Op)
    requires PaymentsKnown(s)
    ensures var after := Step(s, op).0;
      |after.debits| > |s.debits| ==>
        var d := after.debits[|s.debits|];
        && d.mandateId < |s.mandates| && d.at == after.clock
        && (d.result == Success ==> d.amount <= s.mandates[d.mandateId].perDebitCap)
  {
  }

  lemma StepDebits(s: Store, op: Op)
    requires PaymentsKnown(s) && DebitsKnown(s) && s.clock <= Step(s, op).0.clock
    ensures DebitsKnown(Step(s, op).0)
  {
    StepRow(s, op);
    StepMandates(s, op);
    StepRowKnown(s, op);
  }

  lemma StepClock(s: Store, op: Op)
    requires Possible(s, op)
    ensures s.clock <= Step(s, op).0.clock && Step(s, op).0.month == s.month
  {
  }

  /** What the step pays on this mandate. */
  function PaidBy(s: Store, op: Op, id: nat): nat {
    if Pays(s, op) && s.payments[op.payment].mandateId == id then s.payments[op.payment].amount else 0
  }

  lemma StepDebited(s: Store, op: Op, id: nat)
    requires id < |s.mandates|
    ensures id < |Step(s, op).0.mandates|
    ensures Step(s, op).0.mandates[id].totalDebited == s.mandates[id].totalDebited + PaidBy(s, op, id)
  {
  }

  lemma StepSucceeded(s: Store, op: Op, id: nat)
    ensures SumSucceeded(Step(s, op).0.debits, id) == SumSucceeded(s.debits, id) + PaidBy(s, op, id)
  {
    var after := Step(s, op).0.debits;
    StepRow(s, op);
    if |after| > |s.debits| {
      SumAppend(s.debits, after[|s.debits|], Succeeded(id));
    }
  }

  lemma StepTotal(s: Store, op: Op, id: nat)
    requires id < |s.mandates| && TotalRight(s, id)
    ensures id < |Step(s, op).0.mandates| && TotalRight(Step(s, op).0, id)
  {
    StepDebited(s, op, id);
    StepSucceeded(s, op, id);
  }

  /** The totals, and the rows' own mandates, times and amounts, stay right. */
  lemma StepRows(s: Store, op: Op)
    requires RowsSound(s) && Possible(s, op)
    ensures var after := Step(s, op).0;
      && RowsSound(after) && after.month == s.month && s.clock <= after.clock && |s.mandates| <= |after.mandates|
  {
    var after := Step(s, op).0;
    StepClock(s, op);
    StepMandates(s, op);
    StepPayments(s, op);
    StepDebits(s, op);
    forall id: nat | id < |after.mandates|
      ensures TotalRight(after, id)
    {
      if id == |s.mandates| {
        NoneOfIt(s, id);
      } else {
        assert TotalRight(s, id);
        StepTotal(s, op, id);
      }
    }
  }

  /** A mandate that is not there yet has no rows. */
  lemma NoneOfIt(s: Store, id: nat)
    requires RowsSound(s) && id >= |s.mandates|
    ensures SumSucceeded(s.debits, id) == 0 && OpenSum(s.payments, id) == 0
    ensures forall start: int -> int, period: int :: SumIn(s.debits, start, id, period) == 0
  {
    forall start: int -> int, period: int
      ensures SumIn(s.debits, start, id, period) == 0
    {
      SumZero(s.debits, SuccessIn(start, id, period));
    }
    SumZero(s.debits, Succeeded(id));
    SumZero(s.payments, OpenAmount(id));
  }

  // ----- runs

  /** A payment that the operation starts fits together with those under way. */
  predicate Fitting(s: Store, op: Op, id: nat) {
    Starts(s, op, id) ==> FitsWithOpen(s, id, op.presented, op.now)
  }

  /** Throughout the run the payments of this mandate that start fit together with those under way. */
  ghost predicate FittingRun(s: Store, ops: seq<Op>, id: nat) {
    ops == [] || (FittingRun(s, ops[..|ops| - 1], id) && Fitting(Run(s, ops[..|ops| - 1]), ops[|ops| - 1], id))
  }

  lemma {:induction false} RunRows(s: Store, ops: seq<Op>)
    requires RowsSound(s) && PossibleRun(s, ops)
    ensures var t := Run(s, ops);
      RowsSound(t) && t.month == s.month && s.clock <= t.clock && |s.mandates| <= |t.mandates|
  {
    if ops != [] {
      RunRows(s, ops[..|ops| - 1]);
      StepRows(Run(s, ops[..|ops| - 1]), ops[|ops| - 1]);
    }
  }

  /** The caps of one mandate hold after every possible run in which its own payments fit. */
  lemma {:induction false} RunKeeps(s: Store, ops: seq<Op>, id: nat)
    requires IsCalendar(s.month) && RowsSound(s) && id < |s.mandates| && CapsHold(s, id) && HasRoom(s, id)
    requires PossibleRun(s, ops) && FittingRun(s, ops, id)
    ensures var t := Run(s, ops);
      id < |t.mandates| && CapsHold(t, id) && HasRoom(t, id)
  {
    if ops != [] {
      RunKeeps(s, ops[..|ops| - 1], id);
      RunRows(s, ops[..|ops| - 1]);
      StepKeeps(Run(s, ops[..|ops| - 1]), ops[|ops| - 1], id);
    }
  }

  ghost predicate AllFit(s: Store, op: Op) {
    forall id: nat :: Fitting(s, op, id)
  }

  ghost predicate AllFittingRun(s: Store, ops: seq<Op>) {
    forall id: nat :: FittingRun(s, ops, id)
  }

  lemma FittingSplits(s: Store, ops: seq<Op>, front: seq<Op>, op: Op)
    requires ops != [] && front == ops[..|ops| - 1] && op == ops[|ops| - 1] && AllFittingRun(s, ops)
    ensures AllFittingRun(s, front) && AllFit(Run(s, front), op)
  {
    forall id: nat
      ensures FittingRun(s, front, id) && Fitting(Run(s, front), op, id)
    {
      assert FittingRun(s, ops, id);
    }
  }

  lemma StepSound(s: Store, op: Op)
    requires IsCalendar(s.month) && Sound(s) && Possible(s, op)
    requires AllFit(s, op)
    ensures Sound(Step(s, op).0) && Step(s, op).0.month == s.month
  {
    var after := Step(s, op).0;
    StepRows(s, op);
    forall id: nat | id < |after.mandates|
      ensures CapsHold(after, id) && HasRoom(after, id)
    {
      if id == |s.mandates| {
        NoneOfIt(s, id);
      } else {
        assert Fitting(s, op, id);
        StepKeeps(s, op, id);
      }
    }
  }

  /** Whatever is presented, paid, revoked or paused, in whatever order, every cap holds in every state as
      long as each payment that starts fits together with those of its mandate under way. */
  lemma {:induction false} RunSound(s: Store, ops: seq<Op>)
    requires IsCalendar(s.month) && Sound(s) && PossibleRun(s, ops)
    requires AllFittingRun(s, ops)
    ensures Sound(Run(s, ops)) && Run(s, ops).month == s.month
  {
    if ops != [] {
      FittingSplits(s, ops, ops[..|ops| - 1], ops[|ops| - 1]);
      RunSound(s, ops[..|ops| - 1]);
      StepSound(Run(s, ops[..|ops| - 1]), ops[|ops| - 1]);
    }
  }

  lemma StartSound(month: int -> int, clock: int)
    ensures Sound(Store(month, [], [], [], clock))
  {
  }

  predicate NoneOpen(s: Store, id: nat) {
    forall i :: 0 <= i < |s.payments| && s.payments[i].mandateId == id ==> s.payments[i].state != UnderWay
  }

  /** With nothing under way the service's own check is enough. */
  lemma OneAtATimeFits(s: Store, op: Op, id: nat)
    requires NoneOpen(s, id)
    ensures Fitting(s, op, id)
  {
    SumZero(s.payments, OpenAmount(id));
  }

  ghost predicate OneAtATime(s: Store, ops: seq<Op>, id: nat) {
    ops == [] || (OneAtATime(s, ops[..|ops| - 1], id)
      && (Starts(Run(s, ops[..|ops| - 1]), ops[|ops| - 1], id) ==> NoneOpen(Run(s, ops[..|ops| - 1]), id)))
  }

  lemma {:induction false} OneAtATimeRunFits(s: Store, ops: seq<Op>, id: nat)
    requires OneAtATime(s, ops, id)
    ensures FittingRun(s, ops, id)
  {
    if ops != [] {
      OneAtATimeRunFits(s, ops[..|ops| - 1], id);
      if NoneOpen(Run(s, ops[..|ops| - 1]), id) {
        OneAtATimeFits(Run(s, ops[..|ops| - 1]), ops[|ops| - 1], id);
      }
    }
  }

  /** A mandate whose debits never overlap keeps its caps, whatever the other mandates do. */
  lemma OneAtATimeKeeps(s: Store, ops: seq<Op>, id: nat)
    requires IsCalendar(s.month) && RowsSound(s) && id < |s.mandates| && CapsHold(s, id) && NoneOpen(s, id)
    requires PossibleRun(s, ops) && OneAtATime(s, ops, id)
    ensures id < |Run(s, ops).mandates| && CapsHold(Run(s, ops), id)
  {
    SumZero(s.payments, OpenAmount(id));
    OneAtATimeRunFits(s, ops, id);
    RunKeeps(s, ops, id);
  }

  // ----- exactly when the caps can be relied on

  /** The caps of the mandate hold after every possible run in which the payments that start fit. */
  ghost predicate Reliable(s: Store, id: nat) {
    forall ops :: PossibleRun(s, ops) && FittingRun(s, ops, id) ==>
      id < |Run(s, ops).mandates| && CapsHold(Run(s, ops), id)
  }

  lemma {:induction false} RunCons(s: Store, op: Op, ops: seq<Op>, id: nat)
    ensures Run(s, [op] + ops) == Run(Step(s, op).0, ops)
    ensures PossibleRun(s, [op] + ops) <==> Possible(s, op) && PossibleRun(Step(s, op).0, ops)
    ensures FittingRun(s, [op] + ops, id) <==> Fitting(s, op, id) && FittingRun(Step(s, op).0, ops, id)
  {
    var all := [op] + ops;
    if ops == [] {
      RunOne(s, op, id);
      assert all == [op];
    } else {
      RunCons(s, op, ops[..|ops| - 1], id);
      assert all[..|all| - 1] == [op] + ops[..|ops| - 1] && all[|all| - 1] == ops[|ops| - 1];
    }
  }

  lemma RunOne(s: Store, op: Op, id: nat)
    ensures Run(s, [op]) == Step(s, op).0
    ensures PossibleRun(s, [op]) <==> Possible(s, op)
    ensures FittingRun(s, [op], id) <==> Fitting(s, op, id)
  {
    assert [op][..0] == [];
  }

  /** When a payment ends well, what is under way and what the current period has seen move together. */
  lemma PayKeepsLack(s: Store, p: nat, id: nat)
    requires RowsSound(s) && id < |s.mandates| && InProgress(s, p) && s.payments[p].mandateId == id
    ensures HasRoom(Step(s, Finish(p, true, s.clock)).0, id) <==> HasRoom(s, id)
  {
    var d := Debit(id, s.payments[p].amount, Success, s.clock);
    OpenAfterEnd(s.payments, p, Paid, id);
    SumAppend(s.debits, d, SuccessIn(DayStart, id, DayStart(s.clock)));
    SumAppend(s.debits, d, SuccessIn(s.month, id, s.month(s.clock)));
  }

  /** With no room for everything under way, paying all of it breaks a cap: the run that does. */
  lemma {:induction false} PayAll(s: Store, id: nat, n: nat) returns (ops: seq<Op>)
    requires RowsSound(s) && id < |s.mandates| && !HasRoom(s, id) && n <= |s.payments|
    requires forall i :: 0 <= i < n && s.payments[i].mandateId == id ==> s.payments[i].state != UnderWay
    ensures PossibleRun(s, ops) && FittingRun(s, ops, id)
    ensures id < |Run(s, ops).mandates| && !CapsHold(Run(s, ops), id)
    decreases |s.payments| - n
  {
    if n == |s.payments| {
      SumZero(s.payments, OpenAmount(id));
      ops := [];
    } else if s.payments[n].mandateId == id && s.payments[n].state == UnderWay {
      var op := Finish(n, true, s.clock);
      PayKeepsLack(s, n, id);
      StepRows(s, op);
      var rest := PayAll(Step(s, op).0, id, n + 1);
      RunCons(s, op, rest, id);
      ops := [op] + rest;
    } else {
      ops := PayAll(s, id, n + 1);
    }
  }

  /** The caps can be relied on exactly when they hold now with room for everything under way. */
  lemma ReliableExactly(s: Store, id: nat)
    requires IsCalendar(s.month) && RowsSound(s) && id < |s.mandates|
    ensures Reliable(s, id) <==> CapsHold(s, id) && HasRoom(s, id)
  {
    if CapsHold(s, id) && HasRoom(s, id) {
      forall ops | PossibleRun(s, ops) && FittingRun(s, ops, id)
        ensures id < |Run(s, ops).mandates| && CapsHold(Run(s, ops), id)
      {
        RunKeeps(s, ops, id);
      }
    } else if !HasRoom(s, id) {
      var ops := PayAll(s, id, 0);
    } else {
      assert Run(s, []) == s && PossibleRun(s, []) && FittingRun(s, [], id);
    }
  }

  /** The flaw of the check and its exact condition: a debit that passes leaves the caps reliable exactly
      when it fits together with the payments of its mandate that are under way. */
  lemma CheckExact(s: Store, op: Op, id: nat)
    requires IsCalendar(s.month) && RowsSound(s) && id < |s.mandates| && Reliable(s, id)
    requires Possible(s, op) && Starts(s, op, id)
    ensures Reliable(Step(s, op).0, id) <==> FitsWithOpen(s, id, op.presented, op.now)
  {
    var after := Step(s, op).0;
    ReliableExactly(s, id);
    StepRows(s, op);
    StartExact(s, op, id);
    ReliableExactly(after, id);
  }

  // ----- two debits under way at once

  /** Two debits of a mandate, both checked before either is recorded, and both paid; the two payments end in
      either order. */
  function Overlapping(s: Store, id: nat, a: nat, b: nat, t1: int, t2: int, t3: int, t4: int, inOrder: bool): seq<Op> {
    var n := |s.payments|;
    [Begin(id, a, t1), Begin(id, b, t2), Finish(if inOrder then n else n + 1, true, t3),
     Finish(if inOrder then n + 1 else n, true, t4)]
  }

  lemma RunSnoc(s: Store, ops: seq<Op>, op: Op)
    ensures Run(s, ops + [op]) == Step(Run(s, ops), op).0
    ensures PossibleRun(s, ops + [op]) <==> PossibleRun(s, ops) && Possible(Run(s, ops), op)
  {
    var all := ops + [op];
    assert all[..|all| - 1] == ops && all[|all| - 1] == op;
  }

  lemma RunFour(s: Store, a: Op, b: Op, c: Op, d: Op)
    ensures var s1 := Step(s, a).0;
      var s2 := Step(s1, b).0;
      var s3 := Step(s2, c).0;
      && Run(s, [a, b, c, d]) == Step(s3, d).0
      && (PossibleRun(s, [a, b, c, d]) <==> Possible(s, a) && Possible(s1, b) && Possible(s2, c) && Possible(s3, d))
  {
    RunSnoc(s, [], a);
    RunSnoc(s, [a], b);
    RunSnoc(s, [a, b], c);
    RunSnoc(s, [a, b, c], d);
    assert [] + [a] == [a] && [a] + [b] == [a, b] && [a, b] + [c] == [a, b, c] && [a, b, c] + [d] == [a, b, c, d];
  }

  /** The two checks leave two payments under way. */
  lemma BothBegun(s: Store, id: nat, a: nat, b: nat, t1: int, t2: int)
    requires id < |s.mandates|
    requires Refusal(s, id, a, t1) == None && Refusal(s, id, b, t2) == None
    ensures Step(Step(s, Begin(id, a, t1)).0, Begin(id, b, t2)).0
      == s.(payments := s.payments + [Payment(id, a, UnderWay), Payment(id, b, UnderWay)], clock := t2)
  {
    assert s.payments + [Payment(id, a, UnderWay)] + [Payment(id, b, UnderWay)]
      == s.payments + [Payment(id, a, UnderWay), Payment(id, b, UnderWay)];
  }

  /** One of them succeeds. */
  lemma OnePaid(s: Store, p: nat, now: int)
    requires InProgress(s, p)
    ensures var id, t := s.payments[p].mandateId, Step(s, Finish(p, true, now)).0;
      && t.debits == s.debits + [Debit(id, s.payments[p].amount, Success, now)] && t.month == s.month
      && |t.mandates| == |s.mandates| && t.payments == s.payments[p := s.payments[p].(state := Paid)]
      && t.mandates[id].totalDebited == s.mandates[id].totalDebited + s.payments[p].amount
  {
  }

  /** What the four operations leave: the two successes, recorded at their own times. */
  lemma OverlappingRun(s: Store, id: nat, a: nat, b: nat, t1: int, t2: int, t3: int, t4: int, inOrder: bool)
    requires id < |s.mandates|
    requires Refusal(s, id, a, t1) == None && Refusal(s, id, b, t2) == None
    ensures var first, second := if inOrder then a else b, if inOrder then b else a;
      var t := Run(s, Overlapping(s, id, a, b, t1, t2, t3, t4, inOrder));
      && t.month == s.month && id < |t.mandates|
      && t.debits == s.debits + [Debit(id, first, Success, t3)] + [Debit(id, second, Success, t4)]
      && t.mandates[id].totalDebited == s.mandates[id].totalDebited + a + b
  {
    var n := |s.payments|;
    var first, second := if inOrder then n else n + 1, if inOrder then n + 1 else n;
    RunFour(s, Begin(id, a, t1), Begin(id, b, t2), Finish(first, true, t3), Finish(second, true, t4));
    BothBegun(s, id, a, b, t1, t2);
    var s2 := s.(payments := s.payments + [Payment(id, a, UnderWay), Payment(id, b, UnderWay)], clock := t2);
    OnePaid(s2, first, t3);
    OnePaid(Step(s2, Finish(first, true, t3)).0, second, t4);
  }

  /** The two successes and one cap: it holds afterwards exactly when they fall in different periods or fit
      under it together. */
  lemma OverlapOneCap(debits: seq<Debit>, start: int -> int, id: nat, cap: Option<nat>, clock: int,
      first: nat, second: nat, t3: int, t4: int)
    requires IsCalendar(start) && Earlier(debits, clock) && clock <= t3 <= t4 && CapHolds(debits, start, id, cap)
    requires Room(debits, start, id, cap, clock, first) && Room(debits, start, id, cap, clock, second)
    ensures CapHolds(debits + [Debit(id, first, Success, t3)] + [Debit(id, second, Success, t4)], start, id, cap)
      <==> start(t3) != start(t4) || Room(debits, start, id, cap, t3, first + second)
  {
    RoomLater(debits, start, id, cap, clock, t3, first);
    RoomLater(debits, start, id, cap, clock, t4, second);
    forall period: int
      ensures SumIn(debits + [Debit(id, first, Success, t3)] + [Debit(id, second, Success, t4)], start, id, period)
        == SumIn(debits, start, id, period) + (if period == start(t3) then first else 0)
          + if period == start(t4) then second else 0
    {
      SumAppend(debits, Debit(id, first, Success, t3), SuccessIn(start, id, period));
      SumAppend(debits + [Debit(id, first, Success, t3)], Debit(id, second, Success, t4), SuccessIn(start, id, period));
    }
  }

  /** A debit that passes the check has room of its own. */
  lemma CheckedHasRoom(s: Store, id: nat, amount: nat, now: int)
    requires IsCalendar(s.month) && RowsSound(s) && id < |s.mandates| && s.clock <= now
    requires Refusal(s, id, amount, now) == None
    ensures Room(s.debits, DayStart, id, s.mandates[id].dailyCap, now, amount)
    ensures Room(s.debits, s.month, id, s.mandates[id].monthlyCap, now, amount)
  {
    DaysAreCalendar();
    PeriodIsSumSince(s.debits, DayStart, id, now);
    PeriodIsSumSince(s.debits, s.month, id, now);
  }

  /** The mandate's lifetime has not seen more than this cap. */
  predicate TotalHolds(s: Store, id: nat, cap: Option<nat>) {
    id < |s.mandates| && (cap.Some? ==> s.mandates[id].totalDebited <= cap.value)
  }

  /** Two overlapping debits, each of which passed its own check, and when each cap survives them. */
  lemma OverlappingDebits(s: Store, id: nat, a: nat, b: nat, t1: int, t2: int, t3: int, t4: int, inOrder: bool)
    requires IsCalendar(s.month) && RowsSound(s) && id < |s.mandates| && CapsHold(s, id)
    requires s.clock <= t1 <= t2 <= t3 <= t4
    requires Refusal(s, id, a, t1) == None && Refusal(s, id, b, t2) == None
    ensures var m := s.mandates[id];
      var t := Run(s, Overlapping(s, id, a, b, t1, t2, t3, t4, inOrder));
      && (CapHolds(t.debits, DayStart, id, m.dailyCap) <==>
        DayStart(t3) != DayStart(t4) || Room(s.debits, DayStart, id, m.dailyCap, t3, a + b))
      && (CapHolds(t.debits, s.month, id, m.monthlyCap) <==>
        s.month(t3) != s.month(t4) || Room(s.debits, s.month, id, m.monthlyCap, t3, a + b))
      && (TotalHolds(t, id, m.totalCap) <==> (m.totalCap.Some? ==> m.totalDebited + a + b <= m.totalCap.value))
  {
    var m := s.mandates[id];
    var first, second := if inOrder then a else b, if inOrder then b else a;
    OverlappingRun(s, id, a, b, t1, t2, t3, t4, inOrder);
    DaysAreCalendar();
    CheckedHasRoom(s, id, a, t1);
    CheckedHasRoom(s, id, b, t2);
    RoomLater(s.debits, DayStart, id, m.dailyCap, t1, t2, a);
    RoomLater(s.debits, s.month, id, m.monthlyCap, t1, t2, a);
    OverlapOneCap(s.debits, DayStart, id, m.dailyCap, t2, first, second, t3, t4);
    OverlapOneCap(s.debits, s.month, id, m.monthlyCap, t2, first, second, t3, t4);
  }

  lemma OverlappingPossible(s: Store, id: nat, a: nat, b: nat, t1: int, t2: int, t3: int, t4: int, inOrder: bool)
    requires id < |s.mandates| && s.clock <= t1 <= t2 <= t3 <= t4
    requires Refusal(s, id, a, t1) == None && Refusal(s, id, b, t2) == None
    ensures PossibleRun(s, Overlapping(s, id, a, b, t1, t2, t3, t4, inOrder))
  {
    var ops := Overlapping(s, id, a, b, t1, t2, t3, t4, inOrder);
    RunFour(s, ops[0], ops[1], ops[2], ops[3]);
    assert ops == [ops[0], ops[1], ops[2], ops[3]];
  }

  /** Two debits of 6 under a daily cap of 10, from an empty table on: both pass, and the day sees 12. */
  lemma OverlapExceeds(month: int -> int, at: int)
    requires IsCalendar(month)
    ensures var empty := Store(month, [], [], [], at);
      var s := Step(empty, Create(Caps(10, Some(10), None, None))).0;
      var t := Run(s, [Begin(0, 6, at), Begin(0, 6, at), Finish(0, true, at), Finish(1, true, at)]);
      && Sound(s) && PossibleRun(s, [Begin(0, 6, at), Begin(0, 6, at), Finish(0, true, at), Finish(1, true, at)])
      && SumIn(t.debits, DayStart, 0, DayStart(at)) == 12 && !CapHolds(t.debits, DayStart, 0, s.mandates[0].dailyCap)
  {
    var empty, caps := Store(month, [], [], [], at), Caps(10, Some(10), None, None);
    var s := Step(empty, Create(caps)).0;
    StepSound(empty, Create(caps));
    OverlappingPossible(s, 0, 6, 6, at, at, at, at, true);
    OverlappingRun(s, 0, 6, 6, at, at, at, at, true);
    TwoSixes(at);
  }

  lemma TwoSixes(at: int)
    ensures SumIn([] + [Debit(0, 6, Success, at)] + [Debit(0, 6, Success, at)], DayStart, 0, DayStart(at)) == 12
  {
    var d := Debit(0, 6, Success, at);
    SumAppend([], d, SuccessIn(DayStart, 0, DayStart(at)));
    SumAppend([] + [d], d, SuccessIn(DayStart, 0, DayStart(at)));
  }

  // ----- every success is one payment

  function OneIf(counts: bool): nat {
    if counts then 1 else 0
  }

  /** How many successful debits of the mandate are of this amount. */
  function Successes(debits: seq<Debit>, id: nat, amount: nat): nat {
    if debits == [] then 0
    else
      var d := debits[|debits| - 1];
      Successes(debits[..|debits| - 1], id, amount) + OneIf(CountsFor(d, id) && d.amount == amount)
  }

  predicate IsPaid(payments: seq<Payment>, i: nat, id: nat, amount: nat) {
    i < |payments| && payments[i] == Payment(id, amount, Paid)
  }

  /** How many of the first n payments are of the mandate and of this amount and were paid since an earlier
      time. */
  function NewlyPaid(before: seq<Payment>, payments: seq<Payment>, id: nat, amount: nat, n: nat): nat
    requires n <= |payments|
  {
    if n == 0 then 0
    else
      NewlyPaid(before, payments, id, amount, n - 1)
      + OneIf(IsPaid(payments, n - 1, id, amount) && !IsPaid(before, n - 1, id, amount))
  }

  lemma {:induction false} SamePaid(before: seq<Payment>, a: seq<Payment>, b: seq<Payment>, id: nat, amount: nat,
      n: nat)
    requires n <= |a| && n <= |b|
    requires forall i :: 0 <= i < n ==> a[i] == b[i] || (a[i].state != Paid && b[i].state != Paid)
    ensures NewlyPaid(before, a, id, amount, n) == NewlyPaid(before, b, id, amount, n)
  {
    if n > 0 {
      SamePaid(before, a, b, id, amount, n - 1);
    }
  }

  lemma {:induction false} OneMorePaid(before: seq<Payment>, a: seq<Payment>, p: nat, b: seq<Payment>, id: nat,
      amount: nat, n: nat)
    requires p < n <= |a| && a[p].state == UnderWay && b == a[p := a[p].(state := Paid)]
    requires !IsPaid(before, p, id, amount)
    ensures NewlyPaid(before, b, id, amount, n)
      == NewlyPaid(before, a, id, amount, n) + OneIf(a[p].mandateId == id && a[p].amount == amount)
  {
    if p == n - 1 {
      SamePaid(before, a, b, id, amount, p);
    } else {
      OneMorePaid(before, a, p, b, id, amount, n - 1);
    }
  }

  /** Payments keep their place, mandate and amount, and change only while under way. */
  predicate PaymentsGrow(a: seq<Payment>, b: seq<Payment>) {
    && |a| <= |b|
    && (forall i :: 0 <= i < |a| ==> b[i] == a[i].(state := b[i].state))
    && (forall i :: 0 <= i < |a| && a[i].state != UnderWay ==> b[i] == a[i])
  }

  lemma StepGrows(s: Store, op: Op)
    ensures PaymentsGrow(s.payments, Step(s, op).0.payments)
  {
  }

  lemma AppendSuccess(debits: seq<Debit>, d: Debit, id: nat, amount: nat)
    ensures Successes(debits + [d], id, amount)
      == Successes(debits, id, amount) + OneIf(CountsFor(d, id) && d.amount == amount)
  {
    assert (debits + [d])[..|debits|] == debits;
  }

  /** What the step adds to the mandate's successes of this amount. */
  function Added(s: Store, op: Op, id: nat, amount: nat): nat {
    OneIf(Pays(s, op) && s.payments[op.payment].mandateId == id && s.payments[op.payment].amount == amount)
  }

  lemma StepSuccesses(s: Store, op: Op, id: nat, amount: nat)
    ensures Successes(Step(s, op).0.debits, id, amount) == Successes(s.debits, id, amount) + Added(s, op, id, amount)
  {
    var after := Step(s, op).0;
    StepRow(s, op);
    if |after.debits| > |s.debits| {
      AppendSuccess(s.debits, after.debits[|s.debits|], id, amount);
    }
  }

  lemma StepPaid(s: Store, op: Op, id: nat, amount: nat, before: seq<Payment>)
    requires PaymentsGrow(before, s.payments)
    ensures var after := Step(s, op).0.payments;
      NewlyPaid(before, after, id, amount, |after|)
        == NewlyPaid(before, s.payments, id, amount, |s.payments|) + Added(s, op, id, amount)
  {
    var after := Step(s, op).0.payments;
    if Pays(s, op) {
      PaysAfter(s, op);
      OneMorePaid(before, s.payments, op.payment, after, id, amount, |s.payments|);
    } else {
      StepUnpaid(s, op);
      SamePaid(before, s.payments, after, id, amount, |s.payments|);
    }
  }

  lemma PaysAfter(s: Store, op: Op)
    requires Pays(s, op)
    ensures Step(s, op).0.payments == s.payments[op.payment := s.payments[op.payment].(state := Paid)]
  {
  }

  lemma StepUnpaid(s: Store, op: Op)
    requires !Pays(s, op)
    ensures var before, after := s.payments, Step(s, op).0.payments;
      && (|after| == |before| || (|after| == |before| + 1 && after[|before|].state == UnderWay))
      && forall i :: 0 <= i < |before| ==> after[i] == before[i] || (before[i].state != Paid && after[i].state != Paid)
  {
  }

  /** Over any run, the successes recorded are the payments that ended well: each once, none besides. */
  lemma {:induction false} RunAccounts(s: Store, ops: seq<Op>, id: nat, amount: nat)
    ensures var t := Run(s, ops);
      && PaymentsGrow(s.payments, t.payments)
      && Successes(t.debits, id, amount)
        == Successes(s.debits, id, amount) + NewlyPaid(s.payments, t.payments, id, amount, |t.payments|)
  {
    if ops == [] {
      NothingNew(s.payments, id, amount, |s.payments|);
    } else {
      var front, op := ops[..|ops| - 1], ops[|ops| - 1];
      var t := Run(s, front);
      RunAccounts(s, front, id, amount);
      StepGrows(t, op);
      StepSuccesses(t, op, id, amount);
      StepPaid(t, op, id, amount, s.payments);
    }
  }

  lemma {:induction false} NothingNew(payments: seq<Payment>, id: nat, amount: nat, n: nat)
    requires n <= |payments|
    ensures NewlyPaid(payments, payments, id, amount, n) == 0
  {
    if n > 0 {
      NothingNew(payments, id, amount, n - 1);
    }
  }

  /** The k-th operation started the p-th payment: the mandate was active and the debit within its caps. */
  predicate StartedBy(s: Store, ops: seq<Op>, k: nat, p: nat, id: nat, amount: nat) {
    && k < |ops| && ops[k].Begin? && ops[k].id == id && ops[k].presented == amount
    && |Run(s, ops[..k]).payments| == p && Passed(Run(s, ops[..k]), ops[k])
  }

  predicate Passed(t: Store, op: Op)
    requires op.Begin?
  {
    op.id < |t.mandates| && t.mandates[op.id].state == Active && WithinCaps(t, op.id, op.presented, op.now)
  }

  /** Every payment of a run was started by an operation of its own, which found the mandate active and the
      amount within all four caps. With `RunAccounts`, so was every success. */
  lemma {:induction false} PaymentStarted(s: Store, ops: seq<Op>, p: nat) returns (k: nat)
    requires |s.payments| <= p < |Run(s, ops).payments|
    ensures StartedBy(s, ops, k, p, Run(s, ops).payments[p].mandateId, Run(s, ops).payments[p].amount)
  {
    var front, op := ops[..|ops| - 1], ops[|ops| - 1];
    var t := Run(s, front);
    if p < |t.payments| {
      StepGrows(t, op);
      k := PaymentStarted(s, front, p);
      assert front[..k] == ops[..k];
    } else {
      k := |ops| - 1;
    }
  }

  /** Every success of a run is a payment that ended well, checked by an operation of the run. */
  lemma {:induction false} OnlyPermittedSucceed(s: Store, ops: seq<Op>, i: nat) returns (p: nat, k: nat)
    requires s.payments == [] && |s.debits| <= i < |Run(s, ops).debits| && Run(s, ops).debits[i].result == Success
    ensures var t := Run(s, ops);
      && IsPaid(t.payments, p, t.debits[i].mandateId, t.debits[i].amount)
      && StartedBy(s, ops, k, p, t.debits[i].mandateId, t.debits[i].amount)
  {
    var front, op := ops[..|ops| - 1], ops[|ops| - 1];
    var t := Run(s, front);
    StepRow(t, op);
    if i < |t.debits| {
      StepGrows(t, op);
      p, k := OnlyPermittedSucceed(s, front, i);
      assert front[..k] == ops[..k];
    } else {
      p := op.payment;
      k := PaymentStarted(s, ops, p);
    }
  }

  // ----- terminal mandates

  /** On a terminal mandate no payment starts, and it stays terminal. */
  lemma {:induction false} TerminalStays(s: Store, ops: seq<Op>, id: nat)
    requires id < |s.mandates| && IsTerminal(s.mandates[id].state)
    ensures var t := Run(s, ops);
      && id < |t.mandates| && IsTerminal(t.mandates[id].state) && |s.payments| <= |t.payments|
      && forall i :: |s.payments| <= i < |t.payments| ==> t.payments[i].mandateId != id
  {
    if ops != [] {
      var t := Run(s, ops[..|ops| - 1]);
      TerminalStays(s, ops[..|ops| - 1], id);
      StepGrows(t, ops[|ops| - 1]);
      TerminalStep(t, ops[|ops| - 1], id);
    }
  }

  lemma TerminalStep(s: Store, op: Op, id: nat)
    requires id < |s.mandates| && IsTerminal(s.mandates[id].state)
    ensures var after := Step(s, op).0;
      && id < |after.mandates| && IsTerminal(after.mandates[id].state)
      && forall i :: |s.payments| <= i < |after.payments| ==> after.payments[i].mandateId != id
  {
  }

  /** How many of the first n payments are of the mandate and of this amount and under way. */
  function OpenOf(payments: seq<Payment>, id: nat, amount: nat, n: nat): nat
    requires n <= |payments|
  {
    if n == 0 then 0
    else OpenOf(payments, id, amount, n - 1) + OneIf(payments[n - 1] == Payment(id, amount, UnderWay))
  }

  lemma {:induction false} PaidWereOpen(a: seq<Payment>, b: seq<Payment>, id: nat, amount: nat, n: nat)
    requires PaymentsGrow(a, b) && n <= |a|
    ensures NewlyPaid(a, b, id, amount, n) <= OpenOf(a, id, amount, n)
  {
    if n > 0 {
      PaidWereOpen(a, b, id, amount, n - 1);
      assert b[n - 1].amount == a[n - 1].amount && b[n - 1].mandateId == a[n - 1].mandateId;
    }
  }

  lemma {:induction false} NoneOfItPaid(a: seq<Payment>, b: seq<Payment>, id: nat, amount: nat, n: nat)
    requires |a| <= n <= |b| && forall i :: |a| <= i < |b| ==> b[i].mandateId != id
    ensures NewlyPaid(a, b, id, amount, n) == NewlyPaid(a, b, id, amount, |a|)
  {
    if n > |a| {
      NoneOfItPaid(a, b, id, amount, n - 1);
    }
  }

  /** After a mandate is revoked or exhausted it stays terminal, and the only further successes are payments
      that were under way then, each at most once: of every amount no more than there were. */
  lemma TerminalOnlyOpen(s: Store, ops: seq<Op>, id: nat, amount: nat)
    requires id < |s.mandates| && IsTerminal(s.mandates[id].state)
    ensures var t := Run(s, ops);
      && id < |t.mandates| && IsTerminal(t.mandates[id].state)
      && Successes(s.debits, id, amount) <= Successes(t.debits, id, amount)
      && Successes(t.debits, id, amount) - Successes(s.debits, id, amount)
        <= OpenOf(s.payments, id, amount, |s.payments|)
  {
    var t := Run(s, ops);
    TerminalStays(s, ops, id);
    RunAccounts(s, ops, id, amount);
    NoneOfItPaid(s.payments, t.payments, id, amount, |t.payments|);
    PaidWereOpen(s.payments, t.payments, id, amount, |s.payments|);
  }

  lemma {:induction false} NothingOpen(payments: seq<Payment>, id: nat, amount: nat, n: nat)
    requires n <= |payments|
    requires forall i :: 0 <= i < n && payments[i].mandateId == id ==> payments[i].state != UnderWay
    ensures OpenOf(payments, id, amount, n) == 0
  {
    if n > 0 {
      NothingOpen(payments, id, amount, n - 1);
    }
  }

  /** Nothing ever succeeds on a terminal mandate with nothing under way. */
  lemma ClosedForever(s: Store, ops: seq<Op>, id: nat, amount: nat)
    requires id < |s.mandates| && IsTerminal(s.mandates[id].state) && NoneOpen(s, id)
    ensures Successes(Run(s, ops).debits, id, amount) == Successes(s.debits, id, amount)
  {
    TerminalOnlyOpen(s, ops, id, amount);
    NothingOpen(s.payments, id, amount, |s.payments|);
  }

  /** A mandate revoked while a debit is under way still sees that debit succeed. */
  lemma RevokedUnderWay(s: Store, id: nat, presented: nat, now: int)
    requires id < |s.mandates| && Refusal(s, id, presented, now) == None
    ensures var s1 := Step(s, Begin(id, presented, now)).0;
      var s2 := Step(s1, Revoke(id)).0;
      var s3 := Step(s2, Finish(|s.payments|, true, now)).0;
      && s2.mandates[id].state == Revoked
      && s3.debits == s.debits + [Debit(id, presented, Success, now)] && IsTerminal(s3.mandates[id].state)
  {
  }
}
