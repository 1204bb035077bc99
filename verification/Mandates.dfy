/** Direct-debit mandates and their caps (modules/overlays-mandates/service.js). Presenting a debit is two
    transactions with the payment between them: the caps are checked, then the result is recorded, and
    other operations may fall in between. Times are UTC milliseconds. */
module Mandates {
  import opened Text
  import opened Sums

  datatype State = Active | Paused | Revoked | Exhausted

  predicate IsTerminal(s: State) {
    s == Revoked || s == Exhausted
  }

  datatype Mandate = Mandate(
    state: State, perDebitCap: nat, dailyCap: Option<nat>, monthlyCap: Option<nat>, totalCap: Option<nat>,
    totalDebited: nat, debitCount: nat)

  datatype DebitResult = Success | CapBreach | PausedResult | Other

  datatype Debit = Debit(mandateId: nat, amount: nat, result: DebitResult, at: int)

  datatype PaymentState = UnderWay | Paid | NotPaid

  /** The payment of a debit that passed the check. */
  datatype Payment = Payment(mandateId: nat, amount: nat, state: PaymentState)

  /** `month` maps a time to the start of its UTC month; `payments` has one row for each call that passed the
      check, in the order of their checks. */
  datatype Store = Store(month: int -> int, mandates: seq<Mandate>, debits: seq<Debit>, payments: seq<Payment>,
    clock: int)

  datatype MandateError = NotFound | Conflict

  const DAY_MS := 86_400_000

  /** `startOfDayUtcMs` */
  function DayStart(t: int): int {
    t - t % DAY_MS
  }

  /** The amount of a successful debit of a mandate from a time on. */
  function SuccessSince(id: nat, since: int): Debit -> int {
    (d: Debit) => if d.mandateId == id && d.result == Success && d.at >= since then d.amount else 0
  }

  /** `sumSuccessfulDebitsSince` */
  function SumSince(debits: seq<Debit>, id: nat, since: int): int {
    SumOf(debits, SuccessSince(id, since))
  }

  /** The daily, monthly and total caps have room for this much at the time of the check. */
  predicate CapsFit(s: Store, id: nat, more: int, now: int)
    requires id < |s.mandates|
  {
    var m := s.mandates[id];
    && (m.dailyCap.Some? ==> SumSince(s.debits, id, DayStart(now)) + more <= m.dailyCap.value)
    && (m.monthlyCap.Some? ==> SumSince(s.debits, id, s.month(now)) + more <= m.monthlyCap.value)
    && (m.totalCap.Some? ==> m.totalDebited + more <= m.totalCap.value)
  }

  /** `checkCaps`, at the time of the check. */
  predicate WithinCaps(s: Store, id: nat, presented: nat, now: int)
    requires id < |s.mandates|
  {
    presented <= s.mandates[id].perDebitCap && CapsFit(s, id, presented, now)
  }

  /** The result that is recorded when the check refuses a debit. */
  function Refusal(s: Store, id: nat, presented: nat, now: int): Option<DebitResult>
    requires id < |s.mandates|
  {
    if IsTerminal(s.mandates[id].state) then Some(Other)
    else if s.mandates[id].state == Paused then Some(PausedResult)
    else if !WithinCaps(s, id, presented, now) then Some(CapBreach)
    else None
  }

  function Recorded(s: Store, d: Debit): Store {
    s.(debits := s.debits + [d], clock := d.at)
  }

  /** The first half of `presentDebit`: a refusal is recorded, otherwise the payment starts. */
  function BeginResult(s: Store, id: nat, presented: nat, now: int): Result<Store, MandateError> {
    if id >= |s.mandates| then Err(NotFound)
    else match Refusal(s, id, presented, now)
      case Some(result) => Ok(Recorded(s, Debit(id, presented, result, now)))
      case None => Ok(s.(payments := s.payments + [Payment(id, presented, UnderWay)], clock := now))
  }

  /** `applyDebitTotals`, and exhaustion when the total reaches its cap. */
  function Debited(m: Mandate, amount: nat): Mandate {
    var m1 := m.(totalDebited := m.totalDebited + amount, debitCount := m.debitCount + 1);
    if m1.totalCap.Some? && m1.totalDebited >= m1.totalCap.value then m1.(state := Exhausted) else m1
  }

  /** The p-th payment is under way. */
  predicate InProgress(s: Store, p: nat) {
    p < |s.payments| && s.payments[p].state == UnderWay && s.payments[p].mandateId < |s.mandates|
  }

  function Ended(s: Store, p: nat, state: PaymentState): Store
    requires p < |s.payments|
  {
    s.(payments := s.payments[p := s.payments[p].(state := state)])
  }

  /** The second half: the payment's outcome is recorded, whatever has happened to the mandate since. */
  function FinishResult(s: Store, p: nat, confirmed: bool, now: int): Result<Store, MandateError> {
    if !InProgress(s, p) then Err(NotFound)
    else
      var Payment(id, amount, _) := s.payments[p];
      if confirmed then
        var s1 := Recorded(Ended(s, p, Paid), Debit(id, amount, Success, now));
        Ok(s1.(mandates := s1.mandates[id := Debited(s1.mandates[id], amount)]))
      else Ok(Recorded(Ended(s, p, NotPaid), Debit(id, amount, Other, now)))
  }

  /** An account is missing, or the payment throws: nothing is recorded. */
  function AbandonResult(s: Store, p: nat): Result<Store, MandateError> {
    if !InProgress(s, p) then Err(NotFound) else Ok(Ended(s, p, NotPaid))
  }

  function WithState(s: Store, id: nat, state: State): Store
    requires id < |s.mandates|
  {
    s.(mandates := s.mandates[id := s.mandates[id].(state := state)])
  }

  /** `revoke` */
  function RevokeResult(s: Store, id: nat): Result<Store, MandateError> {
    if id >= |s.mandates| then Err(NotFound)
    else if IsTerminal(s.mandates[id].state) then Err(Conflict)
    else Ok(WithState(s, id, Revoked))
  }

  /** `pause` */
  function PauseResult(s: Store, id: nat): Result<Store, MandateError> {
    if id >= |s.mandates| then Err(NotFound)
    else if s.mandates[id].state != Active then Err(Conflict)
    else Ok(WithState(s, id, Paused))
  }

  /** `resume` */
  function ResumeResult(s: Store, id: nat): Result<Store, MandateError> {
    if id >= |s.mandates| then Err(NotFound)
    else if s.mandates[id].state != Paused then Err(Conflict)
    else Ok(WithState(s, id, Active))
  }

  datatype Caps = Caps(perDebit: nat, daily: Option<nat>, monthly: Option<nat>, total: Option<nat>)

  /** `create` */
  function Created(s: Store, caps: Caps): Store {
    s.(mandates := s.mandates + [Mandate(Active, caps.perDebit, caps.daily, caps.monthly, caps.total, 0, 0)])
  }

  datatype Op =
    | Create(caps: Caps)
    | Begin(id: nat, presented: nat, now: int)
    | Finish(payment: nat, confirmed: bool, now: int)
    | Abandon(payment: nat)
    | Revoke(id: nat)
    | Pause(id: nat)
    | Resume(id: nat)

  /** The clock does not run backwards. */
  predicate Possible(s: Store, op: Op) {
    match op
    case Begin(_, _, now) => s.clock <= now
    case Finish(_, _, now) => s.clock <= now
    case _ => true
  }

  function Committed(s: Store, r: Result<Store, MandateError>): (Store, Option<MandateError>) {
    match r
    case Ok(s') => (s', None)
    case Err(e) => (s, Some(e))
  }

  function Step(s: Store, op: Op): (Store, Option<MandateError>) {
    match op
    case Create(caps) => (Created(s, caps), None)
    case Begin(id, presented, now) => Committed(s, BeginResult(s, id, presented, now))
    case Finish(p, confirmed, now) => Committed(s, FinishResult(s, p, confirmed, now))
    case Abandon(p) => Committed(s, AbandonResult(s, p))
    case Revoke(id) => Committed(s, RevokeResult(s, id))
    case Pause(id) => Committed(s, PauseResult(s, id))
    case Resume(id) => Committed(s, ResumeResult(s, id))
  }

  function Run(s: Store, ops: seq<Op>): Store {
    if ops == [] then s else Step(Run(s, ops[..|ops| - 1]), ops[|ops| - 1]).0
  }

  ghost predicate PossibleRun(s: Store, ops: seq<Op>) {
    ops == [] || (PossibleRun(s, ops[..|ops| - 1]) && Possible(Run(s, ops[..|ops| - 1]), ops[|ops| - 1]))
  }

  // ----- the caps

  /** A map of times to the starts of their periods: days, months, or any other division of time. */
  ghost predicate IsCalendar(start: int -> int) {
    && (forall t :: start(t) <= t && start(start(t)) == start(t))
    && (forall t, u :: t <= u ==> start(t) <= start(u))
  }

  lemma DayStartOf(t: int)
    ensures DayStart(t) == DAY_MS * (t / DAY_MS)
  {
  }

  lemma DayStartStays(t: int)
    ensures DayStart(DayStart(t)) == DayStart(t)
  {
    DayStartOf(t);
    WholeDays(t / DAY_MS);
  }

  lemma WholeDays(days: int)
    ensures DayStart(DAY_MS * days) == DAY_MS * days
  {
  }

  lemma DaysAreCalendar()
    ensures IsCalendar(DayStart)
  {
    forall t: int
      ensures DayStart(t) <= t && DayStart(DayStart(t)) == DayStart(t)
    {
      DayStartStays(t);
    }
    forall t: int, u: int | t <= u
      ensures DayStart(t) <= DayStart(u)
    {
      DayStartOf(t);
      DayStartOf(u);
    }
  }

  /** The amount of a successful debit of a mandate within one period. */
  function SuccessIn(start: int -> int, id: nat, period: int): Debit -> int {
    (d: Debit) => if d.mandateId == id && d.result == Success && start(d.at) == period then d.amount else 0
  }

  function SumIn(debits: seq<Debit>, start: int -> int, id: nat, period: int): int {
    SumOf(debits, SuccessIn(start, id, period))
  }

  function Succeeded(id: nat): Debit -> int {
    (d: Debit) => if d.mandateId == id && d.result == Success then d.amount else 0
  }

  function SumSucceeded(debits: seq<Debit>, id: nat): int {
    SumOf(debits, Succeeded(id))
  }

  /** In no period do the successful debits exceed the cap. */
  ghost predicate CapHolds(debits: seq<Debit>, start: int -> int, id: nat, cap: Option<nat>) {
    cap.Some? ==> forall period: int :: SumIn(debits, start, id, period) <= cap.value
  }

  function OpenAmount(id: nat): Payment -> int {
    (p: Payment) => if p.mandateId == id && p.state == UnderWay then p.amount else 0
  }

  /** What the payments of a mandate that are under way come to. */
  function OpenSum(payments: seq<Payment>, id: nat): int {
    SumOf(payments, OpenAmount(id))
  }

  /** The period that a time falls in has room under the cap for this much more. */
  ghost predicate Room(debits: seq<Debit>, start: int -> int, id: nat, cap: Option<nat>, time: int, more: int) {
    cap.Some? ==> SumIn(debits, start, id, start(time)) + more <= cap.value
  }

  /** The caps hold as things are. */
  ghost predicate CapsHold(s: Store, id: nat)
    requires id < |s.mandates|
  {
    var m := s.mandates[id];
    && CapHolds(s.debits, DayStart, id, m.dailyCap)
    && CapHolds(s.debits, s.month, id, m.monthlyCap)
    && (m.totalCap.Some? ==> m.totalDebited <= m.totalCap.value)
  }

  /** They have room for every payment under way, should all of them succeed. */
  ghost predicate HasRoom(s: Store, id: nat)
    requires id < |s.mandates|
  {
    var m, open := s.mandates[id], OpenSum(s.payments, id);
    && Room(s.debits, DayStart, id, m.dailyCap, s.clock, open)
    && Room(s.debits, s.month, id, m.monthlyCap, s.clock, open)
    && (m.totalCap.Some? ==> m.totalDebited + open <= m.totalCap.value)
  }

  /** No row is later than the clock, every row is of a mandate, and no success exceeds the cap of one debit. */
  ghost predicate DebitsKnown(s: Store) {
    && (forall i :: 0 <= i < |s.debits| ==> s.debits[i].mandateId < |s.mandates| && s.debits[i].at <= s.clock)
    && (forall i :: 0 <= i < |s.debits| && s.debits[i].result == Success ==>
      s.debits[i].amount <= s.mandates[s.debits[i].mandateId].perDebitCap)
  }

  ghost predicate PaymentsKnown(s: Store) {
    forall i :: 0 <= i < |s.payments| ==>
      s.payments[i].mandateId < |s.mandates| && s.payments[i].amount <= s.mandates[s.payments[i].mandateId].perDebitCap
  }

  /** `total_debited` is the sum of the successes. */
  ghost predicate TotalRight(s: Store, id: nat)
    requires id < |s.mandates|
  {
    s.mandates[id].totalDebited == SumSucceeded(s.debits, id)
  }

  ghost predicate RowsSound(s: Store) {
    DebitsKnown(s) && PaymentsKnown(s) && forall id: nat :: id < |s.mandates| ==> TotalRight(s, id)
  }

  ghost predicate Sound(s: Store) {
    RowsSound(s) && forall id: nat :: id < |s.mandates| ==> CapsHold(s, id) && HasRoom(s, id)
  }

  /** The check with every payment under way counted as if it had succeeded. */
  predicate FitsWithOpen(s: Store, id: nat, presented: nat, now: int)
    requires id < |s.mandates|
  {
    CapsFit(s, id, OpenSum(s.payments, id) + presented, now)
  }

  // ----- one period

  /** No row is later than this. */
  ghost predicate Earlier(debits: seq<Debit>, time: int) {
    forall i :: 0 <= i < |debits| ==> debits[i].at <= time
  }

  /** With no row later than the check, the sum since the start of its period is the sum of its period. */
  lemma {:induction false} PeriodIsSumSince(debits: seq<Debit>, start: int -> int, id: nat, time: int)
    requires IsCalendar(start) && Earlier(debits, time)
    ensures SumSince(debits, id, start(time)) == SumIn(debits, start, id, start(time))
  {
    if debits != [] {
      var d := debits[|debits| - 1];
      PeriodIsSumSince(debits[..|debits| - 1], start, id, time);
      assert d == debits[|debits| - 1] && d.at <= time;
      InPeriod(start, d.at, time);
    }
  }

  lemma InPeriod(start: int -> int, at: int, time: int)
    requires IsCalendar(start) && at <= time
    ensures at >= start(time) <==> start(at) == start(time)
  {
    if at >= start(time) {
      assert start(start(time)) <= start(at) <= start(time);
    }
  }

  lemma SumInNonNegative(debits: seq<Debit>, start: int -> int, id: nat, period: int)
    ensures SumIn(debits, start, id, period) >= 0
  {
    forall i | 0 <= i < |debits|
      ensures SuccessIn(start, id, period)(debits[i]) >= 0
    {
      var amount: nat := debits[i].amount;
    }
    SumNonNegative(debits, SuccessIn(start, id, period));
  }

  /** Nothing has succeeded in a period that began after the last row. */
  lemma NothingYet(debits: seq<Debit>, start: int -> int, id: nat, time: int, now: int)
    requires IsCalendar(start) && Earlier(debits, time) && start(time) < start(now)
    ensures SumIn(debits, start, id, start(now)) == 0
  {
    forall i | 0 <= i < |debits|
      ensures SuccessIn(start, id, start(now))(debits[i]) == 0
    {
      assert start(debits[i].at) <= start(time);
    }
    SumZero(debits, SuccessIn(start, id, start(now)));
  }

  /** Room once found stays as time passes, also into another period. */
  lemma RoomLater(debits: seq<Debit>, start: int -> int, id: nat, cap: Option<nat>, time: int, now: int, more: int)
    requires IsCalendar(start) && Earlier(debits, time) && time <= now
    requires Room(debits, start, id, cap, time, more)
    ensures Room(debits, start, id, cap, now, more)
  {
    SumInNonNegative(debits, start, id, start(time));
    if start(time) < start(now) {
      NothingYet(debits, start, id, time, now);
    }
  }

  /** A success recorded at `now` out of the room found at an earlier time keeps the cap of every period,
      also when a period ended between the two, and leaves the rest of the room. */
  lemma RecordKeepsCap(debits: seq<Debit>, start: int -> int, id: nat, cap: Option<nat>, time: int, now: int,
      amount: nat, room: int)
    requires IsCalendar(start) && Earlier(debits, time) && time <= now
    requires CapHolds(debits, start, id, cap) && Room(debits, start, id, cap, time, room) && amount <= room
    ensures var more := debits + [Debit(id, amount, Success, now)];
      CapHolds(more, start, id, cap) && Room(more, start, id, cap, now, room - amount)
  {
    var d := Debit(id, amount, Success, now);
    RoomLater(debits, start, id, cap, time, now, room);
    forall period: int
      ensures SumIn(debits + [d], start, id, period)
        == SumIn(debits, start, id, period) + if period == start(now) then amount else 0
    {
      SumAppend(debits, d, SuccessIn(start, id, period));
    }
  }
}
