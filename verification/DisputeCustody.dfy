/** What holds of disputes after any run of operations: the reserve holds exactly what has been held
    and not released, every case is held and released at most once, its history leads to its state, and
    rejected and settled cases never change. */
module DisputeCustody {
  import opened Text
  import opened Ledger
  import opened Transfers
  import opened Disputes
  import opened Sums

  // ----- the invariants

  /** What a case has in the reserve of a currency. */
  function HeldIn(currency: string): Case -> int {
    (c: Case) => if c.reserve.Some? && c.release.None? && c.currency == currency then c.amount else 0
  }

  function ReserveBalance(b: Books, currency: string): int {
    Balance(b, ReserveOf(currency))
  }

  /** The reserve of every currency is the sum of the amounts held and not yet released. */
  ghost predicate ReserveMatches(s: Store) {
    forall currency: string :: ReserveBalance(s.books, currency) == SumOf(s.cases, HeldIn(currency))
  }

  function HistoryOf(history: seq<Row>, id: nat): seq<Row> {
    if history == [] then []
    else
      var front, last := history[..|history| - 1], history[|history| - 1];
      if last.caseId == id then HistoryOf(front, id) + [last] else HistoryOf(front, id)
  }

  /** A step of the table of transitions, or an operator's kill. */
  predicate Allowed(from: State, to: State) {
    CanTransition(from, to) || (to == Denied && !IsTerminal(from))
  }

  predicate FirstRow(r: Row) {
    (r.from == None && r.to == Filed) || (r.from == Some(Filed) && r.to == Rejected)
  }

  /** The rows are a chain of allowed steps that ends in the state. */
  ghost predicate LeadsTo(rows: seq<Row>, state: State) {
    rows != [] &&
    (var front, last := rows[..|rows| - 1], rows[|rows| - 1];
    && last.to == state
    && (if front == [] then FirstRow(last)
      else last.from.Some? && LeadsTo(front, last.from.value) && Allowed(last.from.value, state)))
  }

  ghost predicate HistoriesLead(s: Store) {
    && (forall i :: 0 <= i < |s.history| ==> s.history[i].caseId < |s.cases|)
    && (forall id: nat :: id < |s.cases| ==> LeadsTo(HistoryOf(s.history, id), s.cases[id].state))
  }

  /** What the state of a case says about its reserve. */
  predicate CaseShape(c: Case) {
    && c.state != Accepted
    && (c.reserve.Some? ==> c.amount > 0)
    && (c.release.Some? <==> c.state == Settled)
    && (c.release.Some? ==> c.reserve.Some?)
    && (c.state == Filed || c.state == Rejected ==> c.reserve.None?)
    && (c.reserve.None? ==> c.state == Filed || c.state == Rejected || c.state == Denied)
  }

  ghost predicate ShapesHold(s: Store) {
    && (forall id: nat :: id < |s.cases| ==> CaseShape(s.cases[id]))
    && (forall id: nat :: id in s.decisions ==> id < |s.cases| && s.cases[id].reserve.Some?)
  }

  /** How many journals with this reason are for this case. */
  function Count(b: Books, reason: Reason, id: nat): int {
    JournalCount(b, reason, CaseReference(id))
  }

  function OneIf(b: bool): int {
    if b then 1 else 0
  }

  /** A case has one hold journal if it has a reserve, one release journal if it is released, and no
      other. */
  ghost predicate JournalsMatch(s: Store) {
    forall id: nat ::
      && Count(s.books, DisputeReserveHold, id) == OneIf(id < |s.cases| && s.cases[id].reserve.Some?)
      && Count(s.books, DisputeReserveRelease, id) == OneIf(id < |s.cases| && s.cases[id].release.Some?)
  }

  ghost predicate Sound(s: Store) {
    ReserveMatches(s) && HistoriesLead(s) && ShapesHold(s) && JournalsMatch(s)
  }

  // ----- the books

  lemma CaseReferenceInjective(id: nat, other: nat)
    requires CaseReference(id) == CaseReference(other)
    ensures id == other
  {
    PrintInjective(id, other);
  }

  lemma OpenedSame(b: Books, key: AccountKey)
    requires Opened(b, key).Ok?
    ensures Opened(b, key).value.journals == b.journals && Opened(b, key).value.nextSeq == b.nextSeq
  {
  }

  /** Posting for a case: the reserve moves by the lines, and one journal of that reason is added. */
  lemma JournalledEffect(b: Books, reason: Reason, id: nat, date: string, now: int, lines: seq<Line>)
    requires Journalled(b, reason, id, date, now, lines).Ok?
    ensures var b' := Journalled(b, reason, id, date, now, lines).value;
      && (forall a: AccountKey :: Balance(b', a) == Balance(b, a) + LinesNet(lines, a))
      && (forall r: Reason, k: nat :: Count(b', r, k) == Count(b, r, k) + OneIf(r == reason && k == id))
  {
    var b' := Journalled(b, reason, id, date, now, lines).value;
    forall a: AccountKey
      ensures Balance(b', a) == Balance(b, a) + LinesNet(lines, a)
    {
      MovedBalance(b, reason, CaseReference(id), date, now, lines, a);
    }
    forall r: Reason, k: nat
      ensures Count(b', r, k) == Count(b, r, k) + OneIf(r == reason && k == id)
    {
      var input := JournalInput(reason, CaseReference(id), date, EntriesOf(lines), now);
      PostedCount(b, input, r, CaseReference(k));
      if CaseReference(k) == CaseReference(id) {
        CaseReferenceInjective(k, id);
      }
    }
  }

  /** Holding moves exactly the amount into the reserve of the currency. */
  lemma HeldEffect(b: Books, id: nat, amount: int, currency: string, beneficiary: string, date: string, now: int)
    requires Held(b, id, amount, currency, beneficiary, date, now).Ok?
    ensures var b' := Held(b, id, amount, currency, beneficiary, date, now).value;
      && amount > 0
      && (forall c: string :: ReserveBalance(b', c) == ReserveBalance(b, c) + if c == currency then amount else 0)
      && Balance(b', SettlementOf(beneficiary, currency)) == Balance(b, SettlementOf(beneficiary, currency)) - amount
      && (forall r: Reason, k: nat :: Count(b', r, k) == Count(b, r, k) + OneIf(r == DisputeReserveHold && k == id))
  {
    var debit, credit := SettlementOf(beneficiary, currency), ReserveOf(currency);
    var b1 := Opened(b, debit).value;
    var b2 := Opened(b1, credit).value;
    OpenedSame(b, debit);
    OpenedSame(b1, credit);
    MovedPositive(b2, DisputeReserveHold, CaseReference(id), date, now, Pair(debit, credit, amount));
    JournalledEffect(b2, DisputeReserveHold, id, date, now, Pair(debit, credit, amount));
    forall c: string
      ensures LinesNet(Pair(debit, credit, amount), ReserveOf(c)) == if c == currency then amount else 0
    {
      PairNet(debit, credit, amount, ReserveOf(c));
    }
    PairNet(debit, credit, amount, debit);
    assert forall c: string :: ReserveBalance(b2, c) == ReserveBalance(b, c);
  }

  /** What each party gets of a release. */
  function OriginatorShare(c: Case, outcome: Verdict, share: Option<int>): int {
    if outcome.Uphold? then c.amount else if outcome.Partial? && share.Some? then share.value else 0
  }

  /** A release takes the whole amount out of the reserve and nothing more. */
  lemma ReleaseFromReserve(c: Case, tx: Transaction, outcome: Verdict, share: Option<int>, currency: string)
    requires ReleaseLines(c, tx, outcome, share).Ok?
    ensures LinesNet(ReleaseLines(c, tx, outcome, share).value, ReserveOf(currency)) ==
      if currency == c.currency then -c.amount else 0
  {
    var reserve, originator, beneficiary :=
      ReserveOf(c.currency), SettlementOf(tx.originator, c.currency), SettlementOf(tx.beneficiary, c.currency);
    match outcome {
      case Uphold => PairNet(reserve, originator, c.amount, ReserveOf(currency));
      case Reject => PairNet(reserve, beneficiary, c.amount, ReserveOf(currency));
      case Partial =>
        TripleNet(Line(reserve, DR, c.amount), Line(originator, CR, share.value),
          Line(beneficiary, CR, c.amount - share.value), ReserveOf(currency));
      case UnknownVerdict =>
    }
  }

  /** Upholding pays the originator, rejecting the beneficiary, and a partial verdict splits the amount:
      the credits always sum to it. */
  lemma ReleasePays(c: Case, tx: Transaction, outcome: Verdict, share: Option<int>)
    requires ReleaseLines(c, tx, outcome, share).Ok?
    ensures var lines := ReleaseLines(c, tx, outcome, share).value;
      var originator, beneficiary := SettlementOf(tx.originator, c.currency), SettlementOf(tx.beneficiary, c.currency);
      var up := OriginatorShare(c, outcome, share);
      && (originator != beneficiary ==>
        LinesNet(lines, originator) == up && LinesNet(lines, beneficiary) == c.amount - up)
      && (originator == beneficiary ==> LinesNet(lines, originator) == c.amount)
      && (outcome.Partial? ==> 0 < up < c.amount)
  {
    var reserve, originator, beneficiary :=
      ReserveOf(c.currency), SettlementOf(tx.originator, c.currency), SettlementOf(tx.beneficiary, c.currency);
    match outcome {
      case Uphold =>
        PairNet(reserve, originator, c.amount, originator);
        PairNet(reserve, originator, c.amount, beneficiary);
      case Reject =>
        PairNet(reserve, beneficiary, c.amount, originator);
        PairNet(reserve, beneficiary, c.amount, beneficiary);
      case Partial =>
        var x, y, z :=
          Line(reserve, DR, c.amount), Line(originator, CR, share.value), Line(beneficiary, CR, c.amount - share.value);
        TripleNet(x, y, z, originator);
        TripleNet(x, y, z, beneficiary);
      case UnknownVerdict =>
    }
  }

  lemma ReleasedEffect(b: Books, id: nat, c: Case, tx: Transaction, outcome: Verdict, now: int)
    requires Released(b, id, c, tx, outcome, now).Ok?
    ensures var b' := Released(b, id, c, tx, outcome, now).value;
      && (forall currency: string ::
        ReserveBalance(b', currency) == ReserveBalance(b, currency) - if currency == c.currency then c.amount else 0)
      && (forall r: Reason, k: nat :: Count(b', r, k) == Count(b, r, k) + OneIf(r == DisputeReserveRelease && k == id))
  {
    var b1 := Opened(b, ReserveOf(c.currency)).value;
    var b2 := Opened(b1, SettlementOf(tx.originator, c.currency)).value;
    var b3 := Opened(b2, SettlementOf(tx.beneficiary, c.currency)).value;
    OpenedSame(b, ReserveOf(c.currency));
    OpenedSame(b1, SettlementOf(tx.originator, c.currency));
    OpenedSame(b2, SettlementOf(tx.beneficiary, c.currency));
    var lines := ReleaseLines(c, tx, outcome, c.outcomeAmount).value;
    JournalledEffect(b3, DisputeReserveRelease, id, tx.date, now, lines);
    forall currency: string
      ensures LinesNet(lines, ReserveOf(currency)) == if currency == c.currency then -c.amount else 0
    {
      ReleaseFromReserve(c, tx, outcome, c.outcomeAmount, currency);
    }
    assert forall currency: string :: ReserveBalance(b3, currency) == ReserveBalance(b, currency);
  }

  // ----- one case changes

  /** `after` has the one case changed, and the reserve with it. */
  lemma ReserveFollows(s: Store, after: Store, id: nat, c: Case)
    requires ReserveMatches(s) && id < |s.cases| && after.cases == s.cases[id := c]
    requires forall currency: string ::
      ReserveBalance(after.books, currency)
        == ReserveBalance(s.books, currency) - HeldIn(currency)(s.cases[id]) + HeldIn(currency)(c)
    ensures ReserveMatches(after)
  {
    forall currency: string
      ensures ReserveBalance(after.books, currency) == SumOf(after.cases, HeldIn(currency))
    {
      SumUpdate(s.cases, id, c, HeldIn(currency));
      assert ReserveBalance(s.books, currency) == SumOf(s.cases, HeldIn(currency));
    }
  }

  lemma HistoryAppend(history: seq<Row>, r: Row, id: nat)
    ensures HistoryOf(history + [r], id) == HistoryOf(history, id) + if r.caseId == id then [r] else []
  {
    assert (history + [r])[..|history|] == history;
  }

  lemma LeadsFurther(rows: seq<Row>, r: Row, state: State)
    requires LeadsTo(rows, state) && r.from == Some(state) && Allowed(state, r.to)
    ensures LeadsTo(rows + [r], r.to)
  {
    assert (rows + [r])[..|rows|] == rows;
  }

  /** A change of state along an allowed step keeps every history. */
  lemma WithStateKeepsHistories(s: Store, id: nat, c: Case)
    requires HistoriesLead(s) && id < |s.cases| && Allowed(s.cases[id].state, c.state)
    ensures HistoriesLead(WithState(s, id, c))
  {
    var after := WithState(s, id, c);
    var r := Row(id, Some(s.cases[id].state), c.state);
    forall k: nat | k < |after.cases|
      ensures LeadsTo(HistoryOf(after.history, k), after.cases[k].state)
    {
      HistoryAppend(s.history, r, k);
      if k == id {
        LeadsFurther(HistoryOf(s.history, id), r, s.cases[id].state);
      } else {
        assert HistoryOf(after.history, k) == HistoryOf(s.history, k);
      }
    }
  }

  lemma {:induction false} NoHistoryYet(history: seq<Row>, id: nat)
    requires forall i :: 0 <= i < |history| ==> history[i].caseId < id
    ensures HistoryOf(history, id) == []
  {
    if history != [] {
      NoHistoryYet(history[..|history| - 1], id);
    }
  }

  lemma InsertedKeepsHistories(s: Store, c: Case, from: Option<State>)
    requires HistoriesLead(s) && FirstRow(Row(|s.cases|, from, c.state))
    ensures HistoriesLead(Inserted(s, c, from))
  {
    var after := Inserted(s, c, from);
    var r := Row(|s.cases|, from, c.state);
    NoHistoryYet(s.history, |s.cases|);
    forall k: nat | k < |after.cases|
      ensures LeadsTo(HistoryOf(after.history, k), after.cases[k].state)
    {
      HistoryAppend(s.history, r, k);
      if k < |s.cases| {
        assert HistoryOf(after.history, k) == HistoryOf(s.history, k);
      } else {
        assert HistoryOf(after.history, k) == [r];
      }
    }
  }

  /** The journal counts follow a change of one case. */
  lemma JournalsFollow(s: Store, after: Store, id: nat, c: Case)
    requires JournalsMatch(s) && id < |s.cases| && after.cases == s.cases[id := c]
    requires forall k: nat ::
      Count(after.books, DisputeReserveHold, k)
      == Count(s.books, DisputeReserveHold, k)
        + if k == id then OneIf(c.reserve.Some?) - OneIf(s.cases[id].reserve.Some?) else 0
    requires forall k: nat ::
      Count(after.books, DisputeReserveRelease, k)
      == Count(s.books, DisputeReserveRelease, k)
        + if k == id then OneIf(c.release.Some?) - OneIf(s.cases[id].release.Some?) else 0
    ensures JournalsMatch(after)
  {
    forall k: nat
      ensures Count(after.books, DisputeReserveHold, k) == OneIf(k < |after.cases| && after.cases[k].reserve.Some?)
      ensures Count(after.books, DisputeReserveRelease, k) == OneIf(k < |after.cases| && after.cases[k].release.Some?)
    {
      assert Count(s.books, DisputeReserveHold, k) == OneIf(k < |s.cases| && s.cases[k].reserve.Some?);
    }
  }

  /** A change of state that leaves reserve, release, amount, currency and books alone. */
  lemma StateOnly(s: Store, id: nat, c: Case)
    requires Sound(s) && id < |s.cases| && Allowed(s.cases[id].state, c.state)
    requires c.reserve == s.cases[id].reserve && c.release == s.cases[id].release
    requires c.amount == s.cases[id].amount && c.currency == s.cases[id].currency && CaseShape(c)
    ensures Sound(WithState(s, id, c))
  {
    var after := WithState(s, id, c);
    WithStateKeepsHistories(s, id, c);
    ReserveFollows(s, after, id, c);
    JournalsFollow(s, after, id, c);
  }

  lemma DecidedSound(s: Store, id: nat, d: Decision)
    requires Sound(s) && id < |s.cases| && s.cases[id].reserve.Some?
    ensures Sound(Decided(s, id, d))
  {
  }

  // ----- every operation keeps the invariants

  lemma InsertedSound(s: Store, c: Case, from: Option<State>)
    requires Sound(s) && FirstRow(Row(|s.cases|, from, c.state))
    requires CaseShape(c) && c.reserve.None? && c.release.None?
    ensures Sound(Inserted(s, c, from))
  {
    var after := Inserted(s, c, from);
    InsertedKeepsHistories(s, c, from);
    forall currency: string
      ensures ReserveBalance(after.books, currency) == SumOf(after.cases, HeldIn(currency))
    {
      SumAppend(s.cases, c, HeldIn(currency));
      assert ReserveBalance(s.books, currency) == SumOf(s.cases, HeldIn(currency));
    }
    forall k: nat
      ensures Count(after.books, DisputeReserveHold, k) == OneIf(k < |after.cases| && after.cases[k].reserve.Some?)
      ensures Count(after.books, DisputeReserveRelease, k) == OneIf(k < |after.cases| && after.cases[k].release.Some?)
    {
      assert Count(s.books, DisputeReserveHold, k) == OneIf(k < |s.cases| && s.cases[k].reserve.Some?);
    }
  }

  lemma FilingShape(f: Filing, c: Case)
    requires FilingOf(f).0 == Some(c)
    ensures CaseShape(c) && c.reserve.None? && c.release.None? && (c.state == Filed || c.state == Rejected)
  {
  }

  lemma FileSound(s: Store, f: Filing)
    requires Sound(s)
    ensures Sound(FileStep(s, f).0)
  {
    var filed := FilingOf(f).0;
    if filed.Some? {
      FilingShape(f, filed.value);
      InsertedSound(s, filed.value, Origin(filed.value));
    }
  }

  /** What accepting and holding is made of. */
  lemma AcceptedParts(s: Store, id: nat, p: Processing, after: Store)
    requires id < |s.cases| && s.cases[id].reserve.None? && AcceptedAndHeld(s, id, p) == Ok(after)
    ensures var c := s.cases[id].(state := Accepted);
      && after.cases == s.cases[id := c.(reserve := Some(s.books.nextSeq))]
      && after.history == WithState(s, id, c).history && after.decisions == s.decisions
      && Held(s.books, id, c.amount, c.currency, Beneficiary(p.transaction, c), p.transaction.date, p.now)
        == Ok(after.books)
  {
  }

  /** Processing changes the books only by holding the amount. */
  lemma ProcessBooks(s: Store, id: nat, p: Processing, after: Store)
    requires ProcessResult(s, id, p) == Ok(after) && after.books != s.books
    ensures var c := s.cases[id].(state := Accepted);
      Held(s.books, id, c.amount, c.currency, Beneficiary(p.transaction, c), p.transaction.date, p.now)
        == Ok(after.books)
  {
    var s1 := AcceptedAndHeld(s, id, p).value;
    if s.cases[id].reserve.None? {
      AcceptedParts(s, id, p, s1);
    }
  }

  lemma AdvanceBooks(s: Store, id: nat, c: Case, after: Store)
    requires Advance(s, id, c) == Ok(after)
    ensures after.books == s.books
  {
  }

  /** Settling changes the books by the release. */
  lemma SettledBooks(s: Store, id: nat, tx: Transaction, outcome: Verdict, now: int, after: Store)
    requires id < |s.cases| && SettledWith(s, id, tx, outcome, now) == Ok(after)
    ensures Released(s.books, id, s.cases[id], tx, outcome, now) == Ok(after.books)
  {
    var c := s.cases[id];
    var books := Released(s.books, id, c, tx, outcome, now).value;
    AdvanceBooks(s.(books := books), id, c.(state := Settled, release := Some(s.books.nextSeq)), after);
  }

  lemma HeldHistories(s: Store, id: nat, c: Case, held: Case, after: Store)
    requires Sound(s) && id < |s.cases| && s.cases[id].state == Filed && c == s.cases[id].(state := Accepted)
    requires held.state == Accepted
    requires after.cases == s.cases[id := held] && after.history == WithState(s, id, c).history
    ensures HistoriesLead(after)
  {
    WithStateKeepsHistories(s, id, c);
    HistoriesSame(WithState(s, id, c), after);
  }

  lemma HeldMoney(s: Store, id: nat, c: Case, held: Case, beneficiary: string, date: string, now: int, after: Store)
    requires Sound(s) && id < |s.cases| && s.cases[id].state == Filed && c == s.cases[id].(state := Accepted)
    requires held == c.(reserve := held.reserve) && held.reserve.Some? && after.cases == s.cases[id := held]
    requires Held(s.books, id, c.amount, c.currency, beneficiary, date, now) == Ok(after.books)
    ensures held.amount > 0 && ReserveMatches(after) && JournalsMatch(after)
  {
    assert CaseShape(s.cases[id]);
    HeldEffect(s.books, id, c.amount, c.currency, beneficiary, date, now);
    ReserveFollows(s, after, id, held);
    JournalsFollow(s, after, id, held);
  }

  lemma AcceptedKeeps(s: Store, id: nat, p: Processing)
    requires Sound(s) && id < |s.cases| && s.cases[id].state == Filed && AcceptedAndHeld(s, id, p).Ok?
    ensures var s1 := AcceptedAndHeld(s, id, p).value;
      && s1.cases == s.cases[id := s1.cases[id]] && s1.decisions == s.decisions
      && s1.cases[id] == s.cases[id].(state := Accepted, reserve := s1.cases[id].reserve)
      && s1.cases[id].reserve.Some? && s1.cases[id].amount > 0
      && ReserveMatches(s1) && HistoriesLead(s1) && JournalsMatch(s1)
  {
    var c := s.cases[id].(state := Accepted);
    var s1 := AcceptedAndHeld(s, id, p).value;
    assert CaseShape(s.cases[id]);
    AcceptedParts(s, id, p, s1);
    HeldHistories(s, id, c, s1.cases[id], s1);
    HeldMoney(s, id, c, s1.cases[id], Beneficiary(p.transaction, c), p.transaction.date, p.now, s1);
  }

  lemma HistoriesSame(s: Store, after: Store)
    requires HistoriesLead(s) && after.history == s.history && |after.cases| == |s.cases|
    requires forall k: nat :: k < |s.cases| ==> after.cases[k].state == s.cases[k].state
    ensures HistoriesLead(after)
  {
  }

  /** Everything but the shape of one case. */
  ghost predicate SoundButFor(s: Store, id: nat) {
    && ReserveMatches(s) && HistoriesLead(s) && JournalsMatch(s)
    && (forall k: nat :: k < |s.cases| && k != id ==> CaseShape(s.cases[k]))
    && (forall k: nat :: k in s.decisions ==> k < |s.cases| && s.cases[k].reserve.Some?)
  }

  /** A change of state that leaves the money alone, from a store that only lacks the case's shape. */
  lemma ReshapedSound(s: Store, id: nat, c: Case)
    requires SoundButFor(s, id) && id < |s.cases| && Allowed(s.cases[id].state, c.state) && CaseShape(c)
    requires c.reserve == s.cases[id].reserve && c.release == s.cases[id].release
    requires c.amount == s.cases[id].amount && c.currency == s.cases[id].currency
    ensures Sound(WithState(s, id, c))
  {
    var after := WithState(s, id, c);
    WithStateKeepsHistories(s, id, c);
    ReserveFollows(s, after, id, c);
    JournalsFollow(s, after, id, c);
  }

  lemma DecidedButFor(s: Store, id: nat, d: Decision)
    requires SoundButFor(s, id) && id < |s.cases| && s.cases[id].reserve.Some?
    ensures SoundButFor(Decided(s, id, d), id)
  {
  }

  lemma ResolvedSound(s: Store, id: nat, p: Processing)
    requires SoundButFor(s, id) && id < |s.cases| && s.cases[id].state == Accepted
    requires s.cases[id].reserve.Some? && s.cases[id].release.None? && s.cases[id].amount > 0
    ensures Sound(Resolved(s, id, p))
  {
    var c := s.cases[id];
    match p.resolution {
      case Some(r) =>
        DecidedButFor(s, id, Decision(r.outcome, r.amount, None));
        ReshapedSound(Decided(s, id, Decision(r.outcome, r.amount, None)), id,
                      c.(state := AutoResolved, outcome := Some(r.outcome), outcomeAmount := r.amount));
      case None =>
        ReshapedSound(s, id, c.(state := EvidencePending, deadline := Some(p.deadline)));
    }
  }

  lemma ProcessSound(s: Store, id: nat, p: Processing, after: Store)
    requires Sound(s) && ProcessResult(s, id, p) == Ok(after)
    ensures Sound(after)
  {
    if s.cases[id].state == Filed {
      assert CaseShape(s.cases[id]);
      if !p.valid {
        StateOnly(s, id, s.cases[id].(state := Rejected));
      } else {
        AcceptedKeeps(s, id, p);
        ResolvedSound(AcceptedAndHeld(s, id, p).value, id, p);
      }
    }
  }

  lemma AdvanceSound(s: Store, id: nat, c: Case)
    requires Sound(s) && id < |s.cases| && Advance(s, id, c).Ok? && CaseShape(c)
    requires c.reserve == s.cases[id].reserve && c.release == s.cases[id].release
    requires c.amount == s.cases[id].amount && c.currency == s.cases[id].currency
    ensures Sound(Advance(s, id, c).value)
  {
    if s.cases[id].state != c.state {
      StateOnly(s, id, c);
    }
  }

  lemma KillSound(s: Store, id: nat, after: Store)
    requires Sound(s) && KillResult(s, id) == Ok(after)
    ensures Sound(after)
  {
    assert CaseShape(s.cases[id]);
    StateOnly(s, id, s.cases[id].(state := Denied));
  }

  lemma EvidenceSound(s: Store, evidence: seq<Evidence>)
    requires Sound(s)
    ensures Sound(s.(evidence := evidence))
  {
  }

  lemma UploadSound(s: Store, id: nat, side: Party, after: Store)
    requires Sound(s) && UploadResult(s, id, side) == Ok(after)
    ensures Sound(after)
  {
    var s1 := s.(evidence := s.evidence + [Evidence(id, side)]);
    EvidenceSound(s, s1.evidence);
    assert CaseShape(s.cases[id]);
    if after != s1 {
      AdvanceSound(s1, id, s.cases[id].(state := Adjudicating));
    }
  }

  lemma ExpireSound(s: Store, id: nat, now: int, after: Store)
    requires Sound(s) && ExpireResult(s, id, now) == Ok(after)
    ensures Sound(after)
  {
    if after != s {
      assert CaseShape(s.cases[id]);
      AdvanceSound(s, id, s.cases[id].(state := Adjudicating));
    }
  }

  lemma DecideSound(s: Store, id: nat, r: Ruling, after: Store)
    requires Sound(s) && DecideResult(s, id, r) == Ok(after)
    ensures Sound(after)
  {
    assert CaseShape(s.cases[id]);
    DecidedSound(s, id, Decision(r.outcome, r.amount, r.decidedBy));
    AdvanceSound(Decided(s, id, Decision(r.outcome, r.amount, r.decidedBy)), id,
                 s.cases[id].(state := StateFor(r.outcome), outcome := Some(r.outcome), outcomeAmount := r.amount));
  }

  /** Settling takes the amount out of the reserve once. */
  lemma ReleasedStore(s: Store, id: nat, tx: Transaction, outcome: Verdict, now: int) returns (books: Books)
    requires id < |s.cases| && SettledWith(s, id, tx, outcome, now).Ok? && s.cases[id].state != Settled
    ensures Released(s.books, id, s.cases[id], tx, outcome, now) == Ok(books)
    ensures SettledWith(s, id, tx, outcome, now).value
      == WithState(s.(books := books), id, s.cases[id].(state := Settled, release := Some(s.books.nextSeq)))
    ensures CanTransition(s.cases[id].state, Settled)
  {
    books := Released(s.books, id, s.cases[id], tx, outcome, now).value;
  }

  lemma SettledSound(s: Store, id: nat, tx: Transaction, outcome: Verdict, now: int)
    requires Sound(s) && id < |s.cases| && s.cases[id].reserve.Some? && s.cases[id].state != Settled
    requires SettledWith(s, id, tx, outcome, now).Ok?
    ensures Sound(SettledWith(s, id, tx, outcome, now).value)
  {
    assert CaseShape(s.cases[id]);
    var books := ReleasedStore(s, id, tx, outcome, now);
    ReleasedEffect(s.books, id, s.cases[id], tx, outcome, now);
    ReleaseSound(s, id, s.cases[id].(state := Settled, release := Some(s.books.nextSeq)), books);
  }

  lemma ReleaseSound(s: Store, id: nat, c: Case, books: Books)
    requires Sound(s) && id < |s.cases| && s.cases[id].reserve.Some? && s.cases[id].release.None?
    requires c.state == Settled && c.release.Some? && c == s.cases[id].(state := c.state, release := c.release)
    requires CanTransition(s.cases[id].state, Settled)
    requires forall currency: string ::
      ReserveBalance(books, currency) == ReserveBalance(s.books, currency)
        - if currency == c.currency then c.amount else 0
    requires forall r: Reason, k: nat ::
      Count(books, r, k) == Count(s.books, r, k) + OneIf(r == DisputeReserveRelease && k == id)
    ensures Sound(WithState(s.(books := books), id, c))
  {
    assert CaseShape(s.cases[id]);
    var after := WithState(s.(books := books), id, c);
    WithStateKeepsHistories(s.(books := books), id, c);
    ReserveFollows(s, after, id, c);
    JournalsFollow(s, after, id, c);
  }

  lemma SettleAutoSound(s: Store, id: nat, tx: Option<Transaction>, now: int, after: Store)
    requires Sound(s) && SettleAutoResult(s, id, tx, now) == Ok(after)
    ensures Sound(after)
  {
    if after != s {
      assert CaseShape(s.cases[id]);
      SettledSound(s, id, tx.value, if s.cases[id].outcome.Some? then s.cases[id].outcome.value
        else UnknownVerdict, now);
    }
  }

  lemma ConfirmSound(s: Store, id: nat, user: Option<string>, tx: Option<Transaction>, now: int, after: Store)
    requires Sound(s) && ConfirmResult(s, id, user, tx, now) == Ok(after)
    ensures Sound(after)
  {
    if after != s {
      SettledSound(s, id, tx.value, OutcomeOf(s.cases[id].state), now);
    }
  }

  lemma SameBooksSound(s: Store, books: Books)
    requires Sound(s)
    requires forall currency: string :: ReserveBalance(books, currency) == ReserveBalance(s.books, currency)
    requires forall id: nat :: Count(books, DisputeReserveHold, id) == Count(s.books, DisputeReserveHold, id)
    requires forall id: nat :: Count(books, DisputeReserveRelease, id) == Count(s.books, DisputeReserveRelease, id)
    ensures Sound(s.(books := books))
  {
  }

  lemma ForeignEffect(b: Books, input: JournalInput)
    requires Foreign(input) && Posted(b, input).Ok?
    ensures forall currency: string :: ReserveBalance(Posted(b, input).value, currency) == ReserveBalance(b, currency)
    ensures forall id: nat :: Count(Posted(b, input).value, DisputeReserveHold, id) == Count(b, DisputeReserveHold, id)
    ensures forall id: nat ::
      Count(Posted(b, input).value, DisputeReserveRelease, id) == Count(b, DisputeReserveRelease, id)
  {
    var b' := Posted(b, input).value;
    forall currency: string
      ensures ReserveBalance(b', currency) == ReserveBalance(b, currency)
    {
      UntouchedBalance(b, input, ReserveOf(currency));
    }
    forall id: nat
      ensures Count(b', DisputeReserveHold, id) == Count(b, DisputeReserveHold, id)
      ensures Count(b', DisputeReserveRelease, id) == Count(b, DisputeReserveRelease, id)
    {
      PostedCount(b, input, DisputeReserveHold, CaseReference(id));
      PostedCount(b, input, DisputeReserveRelease, CaseReference(id));
    }
  }

  lemma JournalSound(s: Store, input: JournalInput)
    requires Sound(s) && Foreign(input)
    ensures Sound(Step(s, OtherJournal(input)).0)
  {
    if Posted(s.books, input).Ok? {
      ForeignEffect(s.books, input);
      SameBooksSound(s, Posted(s.books, input).value);
    }
  }

  lemma OpenSound(s: Store, key: AccountKey, after: Store)
    requires Sound(s) && OpenResult(s, key) == Ok(after)
    ensures Sound(after)
  {
    assert after.books.journals == s.books.journals;
    SameBooksSound(s, after.books);
  }

  lemma StepSound(s: Store, op: Op)
    requires Sound(s) && (op.OtherJournal? ==> Foreign(op.input))
    ensures Sound(Step(s, op).0)
  {
    var after := Step(s, op).0;
    if op.File? {
      FileSound(s, op.filing);
    } else if after != s {
      ResultSound(s, op, after);
    }
  }

  /** An operation that commits a change. */
  lemma ResultSound(s: Store, op: Op, after: Store)
    requires Sound(s) && !op.File? && after == Step(s, op).0 && after != s && (op.OtherJournal? ==> Foreign(op.input))
    ensures Sound(after)
  {
    match op {
      case Process(id, p) => ProcessSound(s, id, p, after);
      case Kill(id) => KillSound(s, id, after);
      case Upload(id, side) => UploadSound(s, id, side, after);
      case Expire(id, now) => ExpireSound(s, id, now, after);
      case Decide(id, r) => DecideSound(s, id, r, after);
      case SettleAuto(id, tx, now) => SettleAutoSound(s, id, tx, now, after);
      case Confirm(id, user, tx, now) => ConfirmSound(s, id, user, tx, now, after);
      case OpenAccount(key) => OpenSound(s, key, after);
      case OtherJournal(input) => JournalSound(s, input);
    }
  }

  /** Whatever operations run, in whatever order and with whatever replies, the reserve, the histories,
      the states and the journals stay in step. */
  lemma {:induction false} RunSound(s: Store, ops: seq<Op>)
    requires Sound(s) && forall i :: 0 <= i < |ops| && ops[i].OtherJournal? ==> Foreign(ops[i].input)
    ensures Sound(Run(s, ops))
  {
    if ops != [] {
      RunSound(s, ops[..|ops| - 1]);
      StepSound(Run(s, ops[..|ops| - 1]), ops[|ops| - 1]);
    }
  }

  /** Empty tables over empty books are sound. */
  lemma StartSound(books: Books)
    requires books.journals == []
    ensures Sound(Store([], [], map[], [], books))
  {
  }

  // ----- what follows for every run

  /** A rejected or settled case never changes again. */
  lemma TerminalStays(s: Store, op: Op, id: nat)
    requires id < |s.cases| && IsTerminal(s.cases[id].state)
    ensures id < |Step(s, op).0.cases| && Step(s, op).0.cases[id] == s.cases[id]
  {
    if op.Process? && ProcessResult(s, op.id, op.processing).Ok? && op.id != id {
      OtherCasesStay(s, op.id, op.processing, id);
    }
  }

  lemma OtherCasesStay(s: Store, id: nat, p: Processing, other: nat)
    requires ProcessResult(s, id, p).Ok? && other < |s.cases| && other != id
    ensures other < |ProcessResult(s, id, p).value.cases|
    ensures ProcessResult(s, id, p).value.cases[other] == s.cases[other]
  {
  }

  lemma {:induction false} TerminalForever(s: Store, ops: seq<Op>, id: nat)
    requires id < |s.cases| && IsTerminal(s.cases[id].state)
    ensures id < |Run(s, ops).cases| && Run(s, ops).cases[id] == s.cases[id]
  {
    if ops != [] {
      TerminalForever(s, ops[..|ops| - 1], id);
      TerminalStays(Run(s, ops[..|ops| - 1]), ops[|ops| - 1], id);
    }
  }

  /** Money leaves the reserve at a confirmation only for a decided case, and not on the word of the user
      who decided it. */
  lemma ConfirmNeedsAnother(s: Store, id: nat, user: Option<string>, tx: Option<Transaction>, now: int, after: Store)
    requires ShapesHold(s) && ConfirmResult(s, id, user, tx, now) == Ok(after) && after != s
    ensures id in s.decisions && s.cases[id].reserve.Some? && s.cases[id].release.None?
    ensures s.decisions[id].decidedBy.Some? ==> s.decisions[id].decidedBy != user
    ensures id < |after.cases| && after.cases[id].state == Settled && after.cases[id].release.Some?
  {
    var books := ReleasedStore(s, id, tx.value, OutcomeOf(s.cases[id].state), now);
  }

  // ----- what the states mean

  /** A case in adjudication has left the wait for evidence for a reason: both sides were heard, or the
      deadline has passed. */
  lemma AdjudicationNeedsEvidence(s: Store, op: Op, id: nat)
    requires id < |s.cases| && s.cases[id].state == EvidencePending
    requires id < |Step(s, op).0.cases| && Step(s, op).0.cases[id].state == Adjudicating
    ensures (op.Upload? && op.id == id && HasSide(Step(s, op).0.evidence, id, Filer)
      && HasSide(Step(s, op).0.evidence, id, Responder))
      || (op.Expire? && op.id == id && (s.cases[id].deadline.Some? ==> s.cases[id].deadline.value <= op.now))
  {
    if op.Process? && ProcessResult(s, op.id, op.processing).Ok? && op.id != id {
      OtherCasesStay(s, op.id, op.processing, id);
    }
  }

  /** An upheld case was decided so; a partly upheld one has a share strictly between nothing and all; an
      auto-resolved one has a decision. */
  predicate RulingMatches(c: Case, decided: bool, d: Decision) {
    && (c.state == Upheld ==> decided && d.outcome == Uphold)
    && (c.state == PartialUpheld ==>
      decided && d.outcome == Partial && c.outcomeAmount == d.amount && d.amount.Some? && 0 < d.amount.value < c.amount)
    && (c.state == AutoResolved ==> decided)
  }

  function DecisionOf(s: Store, id: nat): Decision {
    if id in s.decisions then s.decisions[id] else Decision(UnknownVerdict, None, None)
  }

  ghost predicate RulingsMatch(s: Store) {
    forall id: nat :: id < |s.cases| ==> RulingMatches(s.cases[id], id in s.decisions, DecisionOf(s, id))
  }

  /** One case changes, and at most its own decision is added. */
  lemma RulingsFollow(s: Store, after: Store, id: nat)
    requires RulingsMatch(s) && id < |s.cases| == |after.cases|
    requires forall k: nat :: k < |s.cases| && k != id ==>
      after.cases[k] == s.cases[k] && (k in after.decisions <==> k in s.decisions)
        && DecisionOf(after, k) == DecisionOf(s, k)
    requires RulingMatches(after.cases[id], id in after.decisions, DecisionOf(after, id))
    ensures RulingsMatch(after)
  {
    forall k: nat | k < |after.cases|
      ensures RulingMatches(after.cases[k], k in after.decisions, DecisionOf(after, k))
    {
      if k != id {
        assert RulingMatches(s.cases[k], k in s.decisions, DecisionOf(s, k));
      }
    }
  }

  lemma InsertedRulings(s: Store, c: Case, from: Option<State>)
    requires RulingsMatch(s) && (c.state == Filed || c.state == Rejected)
    ensures RulingsMatch(Inserted(s, c, from))
  {
    forall k: nat | k < |s.cases| + 1
      ensures RulingMatches(Inserted(s, c, from).cases[k], k in s.decisions, DecisionOf(s, k))
    {
      if k < |s.cases| {
        assert RulingMatches(s.cases[k], k in s.decisions, DecisionOf(s, k));
      }
    }
  }

  /** What accepting and holding leaves of the other tables. */
  lemma AcceptedTables(s: Store, id: nat, p: Processing, after: Store)
    requires id < |s.cases| && AcceptedAndHeld(s, id, p) == Ok(after)
    ensures |after.cases| == |s.cases| && forall k: nat :: k < |s.cases| && k != id ==> after.cases[k] == s.cases[k]
    ensures after.decisions == s.decisions
  {
  }

  lemma ResolvedTables(s: Store, id: nat, p: Processing)
    requires id < |s.cases|
    ensures var after := Resolved(s, id, p);
      && |after.cases| == |s.cases| && (forall k: nat :: k < |s.cases| && k != id ==> after.cases[k] == s.cases[k])
      && (after.decisions == s.decisions
        || (id in after.decisions && after.decisions == s.decisions[id := after.decisions[id]]))
      && (after.cases[id].state == EvidencePending || (after.cases[id].state == AutoResolved && id in after.decisions))
  {
  }

  lemma ProcessOutcome(s: Store, id: nat, p: Processing, after: Store)
    requires ProcessResult(s, id, p) == Ok(after) && s.cases[id].state == Filed
    ensures |after.cases| == |s.cases| && forall k: nat :: k < |s.cases| && k != id ==> after.cases[k] == s.cases[k]
    ensures after.decisions == s.decisions
      || (id in after.decisions && after.decisions == s.decisions[id := after.decisions[id]])
    ensures after.cases[id].state == Rejected || after.cases[id].state == EvidencePending
      || (after.cases[id].state == AutoResolved && id in after.decisions)
  {
    if p.valid {
      var s1 := AcceptedAndHeld(s, id, p).value;
      AcceptedTables(s, id, p, s1);
      ResolvedTables(s1, id, p);
    }
  }

  lemma ProcessRulings(s: Store, id: nat, p: Processing, after: Store)
    requires RulingsMatch(s) && ProcessResult(s, id, p) == Ok(after)
    ensures RulingsMatch(after)
  {
    if s.cases[id].state == Filed {
      ProcessOutcome(s, id, p, after);
      RulingsFollow(s, after, id);
    }
  }

  lemma SettledRulings(s: Store, id: nat, tx: Transaction, outcome: Verdict, now: int, after: Store)
    requires RulingsMatch(s) && id < |s.cases| && s.cases[id].state != Settled
    requires SettledWith(s, id, tx, outcome, now) == Ok(after)
    ensures RulingsMatch(after)
  {
    var books := ReleasedStore(s, id, tx, outcome, now);
    RulingsFollow(s, after, id);
  }

  lemma DecideRulings(s: Store, id: nat, r: Ruling, after: Store)
    requires RulingsMatch(s) && DecideResult(s, id, r) == Ok(after)
    ensures RulingsMatch(after)
  {
    RulingsFollow(s, after, id);
  }

  /** The case moves to a state that needs no ruling, or only evidence is added. */
  lemma UnruledRulings(s: Store, id: nat, c: Case, after: Store)
    requires RulingsMatch(s) && id < |s.cases| && (c.state == Denied || c.state == Adjudicating)
    requires after.decisions == s.decisions && (after.cases == s.cases || after.cases == s.cases[id := c])
    ensures RulingsMatch(after)
  {
    if after.cases == s.cases {
      forall k: nat | k < |after.cases|
        ensures RulingMatches(after.cases[k], k in after.decisions, DecisionOf(after, k))
      {
        assert RulingMatches(s.cases[k], k in s.decisions, DecisionOf(s, k));
      }
    } else {
      RulingsFollow(s, after, id);
    }
  }

  lemma FileRulings(s: Store, f: Filing)
    requires RulingsMatch(s) && ShapesHold(s)
    ensures RulingsMatch(FileStep(s, f).0)
  {
    if FilingOf(f).0.Some? {
      FilingShape(f, FilingOf(f).0.value);
      InsertedRulings(s, FilingOf(f).0.value, Origin(FilingOf(f).0.value));
    }
  }

  lemma StepRulings(s: Store, op: Op)
    requires RulingsMatch(s) && ShapesHold(s)
    ensures RulingsMatch(Step(s, op).0)
  {
    var after := Step(s, op).0;
    if op.File? {
      FileRulings(s, op.filing);
    } else if after != s {
      ResultRulings(s, op, after);
    }
  }

  lemma ResultRulings(s: Store, op: Op, after: Store)
    requires RulingsMatch(s) && ShapesHold(s) && !op.File? && after == Step(s, op).0 && after != s
    ensures RulingsMatch(after)
  {
    match op {
      case Process(id, p) => ProcessRulings(s, id, p, after);
      case Kill(id) => UnruledRulings(s, id, s.cases[id].(state := Denied), after);
      case Upload(id, side) => UnruledRulings(s, id, s.cases[id].(state := Adjudicating), after);
      case Expire(id, now) => UnruledRulings(s, id, s.cases[id].(state := Adjudicating), after);
      case Decide(id, r) => DecideRulings(s, id, r, after);
      case SettleAuto(id, tx, now) =>
        var c := s.cases[id];
        SettledRulings(s, id, tx.value, if c.outcome.Some? then c.outcome.value else UnknownVerdict, now, after);
      case Confirm(id, user, tx, now) => SettledRulings(s, id, tx.value, OutcomeOf(s.cases[id].state), now, after);
      case OpenAccount(key) => SameTablesRulings(s, after);
      case OtherJournal(input) => SameTablesRulings(s, after);
    }
  }

  lemma SameTablesRulings(s: Store, after: Store)
    requires RulingsMatch(s) && after.cases == s.cases && after.decisions == s.decisions
    ensures RulingsMatch(after)
  {
    forall id: nat | id < |after.cases|
      ensures RulingMatches(after.cases[id], id in after.decisions, DecisionOf(after, id))
    {
      assert RulingMatches(s.cases[id], id in s.decisions, DecisionOf(s, id));
    }
  }

  /** In every state a run reaches, what is confirmed of an upheld or partly upheld case is what was
      decided. */
  lemma {:induction false} RunRulings(s: Store, ops: seq<Op>)
    requires Sound(s) && RulingsMatch(s) && forall i :: 0 <= i < |ops| && ops[i].OtherJournal? ==> Foreign(ops[i].input)
    ensures RulingsMatch(Run(s, ops))
  {
    if ops != [] {
      RunSound(s, ops[..|ops| - 1]);
      RunRulings(s, ops[..|ops| - 1]);
      StepRulings(Run(s, ops[..|ops| - 1]), ops[|ops| - 1]);
    }
  }
}
