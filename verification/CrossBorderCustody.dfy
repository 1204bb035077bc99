/** What holds of cross-border payments after any run: the nostro accounts hold exactly what the
    uncompensated rows put there, a row is compensated exactly when it is rejected, and no quote serves
    two rows. */
module CrossBorderCustody {
  import opened Text
  import opened Ledger
  import opened Transfers
  import opened CrossBorder
  import opened Sums

  // ----- the invariants

  /** What a row has in the exchange account of a currency. */
  function InFxNostro(currency: string): Row -> int {
    (r: Row) =>
      if r.compensation.Some? then 0
      else (if r.payCurrency == currency then r.pay else 0) - (if r.receiveCurrency == currency then r.receive else 0)
  }

  /** What a row has in a foreign rail's account. */
  function InForeignNostro(rail: string, currency: string): Row -> int {
    (r: Row) => if r.compensation.None? && r.rail == rail && r.receiveCurrency == currency then r.receive else 0
  }

  ghost predicate NostrosMatch(s: Store) {
    && (forall c: string :: Balance(s.books, FxNostroOf(c)) == SumOf(s.rows, InFxNostro(c)))
    && (forall rail: string, c: string ::
      Balance(s.books, ForeignNostroOf(rail, c)) == SumOf(s.rows, InForeignNostro(rail, c)))
  }

  /** Every row's quote was consumed for its transaction; a quote that can still be consumed never was. */
  ghost predicate QuotesMatch(s: Store) {
    && (forall i :: 0 <= i < |s.rows| ==> Serves(s.quotes, s.rows[i]))
    && (forall k :: 0 <= k < |s.quotes| ==> QuoteShape(s.quotes[k]))
  }

  predicate Serves(quotes: seq<Quote>, r: Row) {
    r.quoteId < |quotes| && quotes[r.quoteId].consumedBy == Some(r.transactionId)
  }

  predicate QuoteShape(q: Quote) {
    && (q.state == Open || q.state == Locked ==> q.consumedBy.None?)
    && (q.state == Consumed ==> q.consumedBy.Some?)
    && q.state != RejectedSlippage
  }

  predicate RowShape(r: Row) {
    r.pay > 0 && r.receive > 0 && (r.compensation.Some? <==> r.state == Rejected)
  }

  ghost predicate RowsHold(rows: seq<Row>) {
    && (forall i :: 0 <= i < |rows| ==> RowShape(rows[i]))
    && (forall i, j :: 0 <= i < j < |rows| ==> rows[i].transactionId != rows[j].transactionId)
  }

  predicate IsCompensated(rows: seq<Row>, transactionId: nat) {
    exists i :: 0 <= i < |rows| && rows[i].transactionId == transactionId && rows[i].compensation.Some?
  }

  function OneIf(b: bool): int {
    if b then 1 else 0
  }

  function Count(b: Books, reason: Reason, transactionId: nat): int {
    JournalCount(b, reason, TransactionReference(transactionId))
  }

  /** A transaction has one journal for each leg if it has a row, one compensation if that row was
      compensated, and no other. */
  ghost predicate JournalsMatch(s: Store) {
    forall t: nat ::
      && Count(s.books, XbLeg1, t) == OneIf(HasTransaction(s.rows, t))
      && Count(s.books, XbLeg2, t) == OneIf(HasTransaction(s.rows, t))
      && Count(s.books, XbCompensate, t) == OneIf(IsCompensated(s.rows, t))
  }

  ghost predicate Sound(s: Store) {
    NostrosMatch(s) && QuotesMatch(s) && RowsHold(s.rows) && JournalsMatch(s)
  }

  // ----- legs

  /** Leg 1, leg 2 and the compensation together leave every account as it was, also when both
      currencies are the same. */
  lemma LegsAndCompensationCancel(r: Row, a: AccountKey)
    ensures LinesNet(Leg1Lines(r), a) + LinesNet(Leg2Lines(r), a) + LinesNet(CompensationLines(r), a) == 0
  {
    var lines := CompensationLines(r);
    PairNet(SettlementOf(r.originator, r.payCurrency), FxNostroOf(r.payCurrency), r.pay, a);
    PairNet(FxNostroOf(r.receiveCurrency), ForeignNostroOf(r.rail, r.receiveCurrency), r.receive, a);
    QuadNet(lines[0], lines[1], lines[2], lines[3], a);
  }

  /** What both legs do to the nostro accounts is what the row is held to have there. */
  lemma LegsNet(r: Row)
    requires r.compensation.None?
    ensures forall c: string ::
      LinesNet(Leg1Lines(r), FxNostroOf(c)) + LinesNet(Leg2Lines(r), FxNostroOf(c)) == InFxNostro(c)(r)
    ensures forall rail: string, c: string ::
      LinesNet(Leg1Lines(r), ForeignNostroOf(rail, c)) + LinesNet(Leg2Lines(r), ForeignNostroOf(rail, c))
        == InForeignNostro(rail, c)(r)
  {
    forall c: string
      ensures LinesNet(Leg1Lines(r), FxNostroOf(c)) + LinesNet(Leg2Lines(r), FxNostroOf(c)) == InFxNostro(c)(r)
    {
      PairNet(SettlementOf(r.originator, r.payCurrency), FxNostroOf(r.payCurrency), r.pay, FxNostroOf(c));
      PairNet(FxNostroOf(r.receiveCurrency), ForeignNostroOf(r.rail, r.receiveCurrency), r.receive, FxNostroOf(c));
    }
    forall rail: string, c: string
      ensures LinesNet(Leg1Lines(r), ForeignNostroOf(rail, c)) + LinesNet(Leg2Lines(r), ForeignNostroOf(rail, c))
        == InForeignNostro(rail, c)(r)
    {
      PairNet(SettlementOf(r.originator, r.payCurrency), FxNostroOf(r.payCurrency), r.pay, ForeignNostroOf(rail, c));
      PairNet(FxNostroOf(r.receiveCurrency), ForeignNostroOf(r.rail, r.receiveCurrency), r.receive,
        ForeignNostroOf(rail, c));
    }
  }

  lemma ReferenceInjective(t: nat, u: nat)
    requires TransactionReference(t) == TransactionReference(u)
    ensures t == u
  {
    PrintInjective(t, u);
  }

  lemma JournalledCount(b: Books, reason: Reason, t: nat, clock: Clock, lines: seq<Line>, b': Books, r: Reason, u: nat)
    requires Journalled(b, reason, t, clock, lines) == Ok(b')
    ensures Count(b', r, u) == Count(b, r, u) + OneIf(r == reason && u == t)
  {
    PostedCount(b, JournalInput(reason, TransactionReference(t), clock.today, EntriesOf(lines), clock.now), r,
      TransactionReference(u));
    if TransactionReference(u) == TransactionReference(t) {
      ReferenceInjective(u, t);
    }
  }

  lemma JournalledPositive(b: Books, reason: Reason, t: nat, clock: Clock, lines: seq<Line>, b': Books, k: nat)
    requires Journalled(b, reason, t, clock, lines) == Ok(b') && k < |lines|
    ensures lines[k].amount > 0
  {
    MovedPositive(b, reason, TransactionReference(t), clock.today, clock.now, lines);
  }

  lemma JournalledEffect(b: Books, reason: Reason, t: nat, clock: Clock, lines: seq<Line>, b': Books)
    requires Journalled(b, reason, t, clock, lines) == Ok(b')
    ensures forall a: AccountKey :: Balance(b', a) == Balance(b, a) + LinesNet(lines, a)
    ensures forall r: Reason, u: nat :: Count(b', r, u) == Count(b, r, u) + OneIf(r == reason && u == t)
  {
    forall a: AccountKey
      ensures Balance(b', a) == Balance(b, a) + LinesNet(lines, a)
    {
      MovedBalance(b, reason, TransactionReference(t), clock.today, clock.now, lines, a);
    }
    forall r: Reason, u: nat
      ensures Count(b', r, u) == Count(b, r, u) + OneIf(r == reason && u == t)
    {
      JournalledCount(b, reason, t, clock, lines, b', r, u);
    }
  }

  lemma OpenedSame(b: Books, key: AccountKey)
    requires Opened(b, key).Ok?
    ensures Opened(b, key).value.journals == b.journals
  {
  }

  lemma Leg1Effect(b: Books, r: Row, clock: Clock, b': Books)
    requires Leg1Posted(b, r, clock) == Ok(b')
    ensures forall a: AccountKey :: Balance(b', a) == Balance(b, a) + LinesNet(Leg1Lines(r), a)
    ensures forall n: Reason, u: nat :: Count(b', n, u) == Count(b, n, u) + OneIf(n == XbLeg1 && u == r.transactionId)
    ensures r.pay > 0
  {
    var b1 := Opened(b, SettlementOf(r.originator, r.payCurrency)).value;
    var b2 := Opened(b1, FxNostroOf(r.payCurrency)).value;
    OpenedSame(b, SettlementOf(r.originator, r.payCurrency));
    OpenedSame(b1, FxNostroOf(r.payCurrency));
    JournalledEffect(b2, XbLeg1, r.transactionId, clock, Leg1Lines(r), b');
    JournalledPositive(b2, XbLeg1, r.transactionId, clock, Leg1Lines(r), b', 0);
  }

  lemma Leg2Effect(b: Books, r: Row, clock: Clock, b': Books)
    requires Leg2Posted(b, r, clock) == Ok(b')
    ensures forall a: AccountKey :: Balance(b', a) == Balance(b, a) + LinesNet(Leg2Lines(r), a)
    ensures forall n: Reason, u: nat :: Count(b', n, u) == Count(b, n, u) + OneIf(n == XbLeg2 && u == r.transactionId)
    ensures r.receive > 0
  {
    var b1 := Opened(b, FxNostroOf(r.receiveCurrency)).value;
    var b2 := Opened(b1, ForeignNostroOf(r.rail, r.receiveCurrency)).value;
    OpenedSame(b, FxNostroOf(r.receiveCurrency));
    OpenedSame(b1, ForeignNostroOf(r.rail, r.receiveCurrency));
    JournalledEffect(b2, XbLeg2, r.transactionId, clock, Leg2Lines(r), b');
    JournalledPositive(b2, XbLeg2, r.transactionId, clock, Leg2Lines(r), b', 0);
  }

  // ----- the coordinator keeps the invariants

  lemma RowAppended(s: Store, r: Row, books: Books)
    requires NostrosMatch(s) && r.compensation.None?
    requires forall a: AccountKey ::
      Balance(books, a) == Balance(s.books, a) + LinesNet(Leg1Lines(r), a) + LinesNet(Leg2Lines(r), a)
    ensures NostrosMatch(Store(s.quotes, s.rows + [r], books))
  {
    LegsNet(r);
    var rows := s.rows + [r];
    forall c: string
      ensures Balance(books, FxNostroOf(c)) == SumOf(rows, InFxNostro(c))
    {
      SumAppend(s.rows, r, InFxNostro(c));
      assert Balance(s.books, FxNostroOf(c)) == SumOf(s.rows, InFxNostro(c));
    }
    forall rail: string, c: string
      ensures Balance(books, ForeignNostroOf(rail, c)) == SumOf(rows, InForeignNostro(rail, c))
    {
      SumAppend(s.rows, r, InForeignNostro(rail, c));
      assert Balance(s.books, ForeignNostroOf(rail, c)) == SumOf(s.rows, InForeignNostro(rail, c));
    }
  }

  lemma TransactionsAppended(rows: seq<Row>, r: Row, t: nat)
    requires r.compensation.None?
    ensures HasTransaction(rows + [r], t) <==> HasTransaction(rows, t) || t == r.transactionId
    ensures IsCompensated(rows + [r], t) <==> IsCompensated(rows, t)
  {
    var all := rows + [r];
    assert all[|rows|] == r;
    assert forall i :: 0 <= i < |rows| ==> all[i] == rows[i];
  }

  lemma JournalsAppended(s: Store, r: Row, books: Books)
    requires JournalsMatch(s) && r.compensation.None? && !HasTransaction(s.rows, r.transactionId)
    requires forall n: Reason, u: nat ::
      Count(books, n, u) == Count(s.books, n, u) + OneIf((n == XbLeg1 || n == XbLeg2) && u == r.transactionId)
    ensures JournalsMatch(Store(s.quotes, s.rows + [r], books))
  {
    var after := Store(s.quotes, s.rows + [r], books);
    forall t: nat
      ensures Count(books, XbLeg1, t) == OneIf(HasTransaction(after.rows, t))
      ensures Count(books, XbLeg2, t) == OneIf(HasTransaction(after.rows, t))
      ensures Count(books, XbCompensate, t) == OneIf(IsCompensated(after.rows, t))
    {
      TransactionsAppended(s.rows, r, t);
      assert Count(s.books, XbLeg1, t) == OneIf(HasTransaction(s.rows, t));
    }
  }

  lemma ConsumeKeeps(s: Store, id: nat, t: nat, drift: Drift, now: int, after: Store)
    requires QuotesMatch(s) && Consume(s, id, t, drift, now) == Ok(after)
    ensures QuotesMatch(after) && after.rows == s.rows && after.books == s.books
    ensures id < |after.quotes| && after.quotes[id].consumedBy == Some(t)
  {
    forall i | 0 <= i < |s.rows|
      ensures Serves(after.quotes, s.rows[i])
    {
      assert Serves(s.quotes, s.rows[i]);
      assert QuoteShape(s.quotes[id]);
    }
  }

  /** What an accepted order is made of. */
  lemma CoordinateParts(s: Store, o: Order, clock: Clock, after: Store) returns (s1: Store)
    requires CoordinateResult(s, o, clock) == Ok(after)
    ensures Consume(s, o.quoteId, o.transactionId, o.drift, clock.now) == Ok(s1) && s1.books == s.books
    ensures LegsPosted(s.books, RowFor(o), clock) == Ok(after.books)
    ensures !HasTransaction(s.rows, o.transactionId) && s1.rows == s.rows
    ensures after == Store(s1.quotes, s.rows + [RowFor(o)], after.books)
  {
    s1 := Consume(s, o.quoteId, o.transactionId, o.drift, clock.now).value;
    ConsumeBooks(s, o.quoteId, o.transactionId, o.drift, clock.now, s1);
    RecordedParts(s1, o, LegsPosted(s1.books, RowFor(o), clock), after);
  }

  lemma ConsumeBooks(s: Store, id: nat, t: nat, drift: Drift, now: int, after: Store)
    requires Consume(s, id, t, drift, now) == Ok(after)
    ensures after.rows == s.rows && after.books == s.books
  {
  }

  lemma RecordedParts(s: Store, o: Order, legs: Result<Books, XbError>, after: Store)
    requires Recorded(s, o, legs) == Ok(after)
    ensures legs == Ok(after.books) && !HasTransaction(s.rows, o.transactionId)
    ensures after == Store(s.quotes, s.rows + [RowFor(o)], after.books)
  {
  }

  lemma LegsEffect(b: Books, r: Row, clock: Clock, b2: Books)
    requires LegsPosted(b, r, clock) == Ok(b2)
    ensures r.pay > 0 && r.receive > 0
    ensures forall a: AccountKey ::
      Balance(b2, a) == Balance(b, a) + LinesNet(Leg1Lines(r), a) + LinesNet(Leg2Lines(r), a)
    ensures forall n: Reason, u: nat ::
      Count(b2, n, u) == Count(b, n, u) + OneIf((n == XbLeg1 || n == XbLeg2) && u == r.transactionId)
  {
    var b1 := Leg1Posted(b, r, clock).value;
    Leg1Effect(b, r, clock, b1);
    Leg2Effect(b1, r, clock, b2);
  }

  lemma RowsAppended(rows: seq<Row>, r: Row)
    requires RowsHold(rows) && RowShape(r) && !HasTransaction(rows, r.transactionId)
    ensures RowsHold(rows + [r])
  {
    var all := rows + [r];
    forall i, j | 0 <= i < j < |all|
      ensures all[i].transactionId != all[j].transactionId
    {
      assert all[i] == rows[i];
    }
  }

  lemma CoordinateSound(s: Store, o: Order, clock: Clock, after: Store)
    requires Sound(s) && CoordinateResult(s, o, clock) == Ok(after)
    ensures Sound(after)
  {
    var r := RowFor(o);
    var s1 := CoordinateParts(s, o, clock, after);
    LegsEffect(s.books, r, clock, after.books);
    ConsumeKeeps(s, o.quoteId, o.transactionId, o.drift, clock.now, s1);
    AppendSound(s, s1.quotes, r, after.books);
  }

  lemma AppendSound(s: Store, quotes: seq<Quote>, r: Row, books: Books)
    requires Sound(s) && RowShape(r) && r.compensation.None? && !HasTransaction(s.rows, r.transactionId)
    requires QuotesMatch(Store(quotes, s.rows, s.books)) && Serves(quotes, r)
    requires forall a: AccountKey ::
      Balance(books, a) == Balance(s.books, a) + LinesNet(Leg1Lines(r), a) + LinesNet(Leg2Lines(r), a)
    requires forall n: Reason, u: nat ::
      Count(books, n, u) == Count(s.books, n, u) + OneIf((n == XbLeg1 || n == XbLeg2) && u == r.transactionId)
    ensures Sound(Store(quotes, s.rows + [r], books))
  {
    RowAppended(s, r, books);
    JournalsAppended(s, r, books);
    RowsAppended(s.rows, r);
  }

  // ----- the worker keeps the invariants

  /** A row changes without touching its money. */
  predicate SameMoney(r: Row, r': Row) {
    r' == r.(state := r'.state, attempts := r'.attempts, nextAttemptAt := r'.nextAttemptAt, foreignTx := r'.foreignTx)
  }

  lemma RelabelSound(s: Store, id: nat, r: Row)
    requires Sound(s) && id < |s.rows| && SameMoney(s.rows[id], r) && s.rows[id].state != Rejected
    requires r.state != Rejected
    ensures Sound(WithRow(s, id, r))
  {
    var after := WithRow(s, id, r);
    assert RowShape(s.rows[id]) && Serves(s.quotes, s.rows[id]);
    forall c: string
      ensures Balance(s.books, FxNostroOf(c)) == SumOf(after.rows, InFxNostro(c))
    {
      SumUpdate(s.rows, id, r, InFxNostro(c));
      assert Balance(s.books, FxNostroOf(c)) == SumOf(s.rows, InFxNostro(c));
    }
    forall rail: string, c: string
      ensures Balance(s.books, ForeignNostroOf(rail, c)) == SumOf(after.rows, InForeignNostro(rail, c))
    {
      SumUpdate(s.rows, id, r, InForeignNostro(rail, c));
      assert Balance(s.books, ForeignNostroOf(rail, c)) == SumOf(s.rows, InForeignNostro(rail, c));
    }
    RelabelJournals(s, id, r);
  }

  lemma RelabelJournals(s: Store, id: nat, r: Row)
    requires JournalsMatch(s) && id < |s.rows| && SameMoney(s.rows[id], r)
    ensures JournalsMatch(WithRow(s, id, r))
  {
    var rows := s.rows[id := r];
    forall t: nat
      ensures HasTransaction(rows, t) <==> HasTransaction(s.rows, t)
      ensures IsCompensated(rows, t) <==> IsCompensated(s.rows, t)
    {
      assert forall i :: 0 <= i < |rows| ==> SameMoney(s.rows[i], rows[i]);
    }
    forall t: nat
      ensures Count(s.books, XbLeg1, t) == OneIf(HasTransaction(rows, t))
      ensures Count(s.books, XbLeg2, t) == OneIf(HasTransaction(rows, t))
      ensures Count(s.books, XbCompensate, t) == OneIf(IsCompensated(rows, t))
    {
      assert Count(s.books, XbLeg1, t) == OneIf(HasTransaction(s.rows, t));
    }
  }

  function RejectedRow(r: Row, journal: nat): Row {
    r.(state := Rejected, compensation := Some(journal))
  }

  lemma CompensationEffect(b: Books, r: Row, clock: Clock, b': Books)
    requires CompensationPosted(b, r, clock) == Ok(b') && r.compensation.None?
    ensures forall c: string :: Balance(b', FxNostroOf(c)) == Balance(b, FxNostroOf(c)) - InFxNostro(c)(r)
    ensures forall rail: string, c: string ::
      Balance(b', ForeignNostroOf(rail, c)) == Balance(b, ForeignNostroOf(rail, c)) - InForeignNostro(rail, c)(r)
    ensures forall n: Reason, u: nat ::
      Count(b', n, u) == Count(b, n, u) + OneIf(n == XbCompensate && u == r.transactionId)
    ensures r.pay > 0 && r.receive > 0
  {
    JournalledEffect(b, XbCompensate, r.transactionId, clock, CompensationLines(r), b');
    JournalledPositive(b, XbCompensate, r.transactionId, clock, CompensationLines(r), b', 0);
    JournalledPositive(b, XbCompensate, r.transactionId, clock, CompensationLines(r), b', 2);
    LegsNet(r);
    forall c: string
      ensures LinesNet(CompensationLines(r), FxNostroOf(c)) == -InFxNostro(c)(r)
    {
      LegsAndCompensationCancel(r, FxNostroOf(c));
    }
    forall rail: string, c: string
      ensures LinesNet(CompensationLines(r), ForeignNostroOf(rail, c)) == -InForeignNostro(rail, c)(r)
    {
      LegsAndCompensationCancel(r, ForeignNostroOf(rail, c));
    }
  }

  lemma NostrosAfterRejection(s: Store, id: nat, r: Row, books: Books)
    requires NostrosMatch(s) && id < |s.rows| && s.rows[id].compensation.None? && r.compensation.Some?
    requires forall c: string ::
      Balance(books, FxNostroOf(c)) == Balance(s.books, FxNostroOf(c)) - InFxNostro(c)(s.rows[id])
    requires forall rail: string, c: string ::
      Balance(books, ForeignNostroOf(rail, c))
        == Balance(s.books, ForeignNostroOf(rail, c)) - InForeignNostro(rail, c)(s.rows[id])
    ensures NostrosMatch(Store(s.quotes, s.rows[id := r], books))
  {
    forall c: string
      ensures Balance(books, FxNostroOf(c)) == SumOf(s.rows[id := r], InFxNostro(c))
    {
      SumUpdate(s.rows, id, r, InFxNostro(c));
      assert Balance(s.books, FxNostroOf(c)) == SumOf(s.rows, InFxNostro(c));
    }
    forall rail: string, c: string
      ensures Balance(books, ForeignNostroOf(rail, c)) == SumOf(s.rows[id := r], InForeignNostro(rail, c))
    {
      SumUpdate(s.rows, id, r, InForeignNostro(rail, c));
      assert Balance(s.books, ForeignNostroOf(rail, c)) == SumOf(s.rows, InForeignNostro(rail, c));
    }
  }

  lemma JournalsAfterRejection(s: Store, id: nat, r: Row, books: Books)
    requires JournalsMatch(s) && RowsHold(s.rows) && id < |s.rows|
    requires s.rows[id].compensation.None? && r.compensation.Some? && r.transactionId == s.rows[id].transactionId
    requires forall n: Reason, u: nat ::
      Count(books, n, u) == Count(s.books, n, u) + OneIf(n == XbCompensate && u == r.transactionId)
    ensures JournalsMatch(Store(s.quotes, s.rows[id := r], books))
  {
    var rows := s.rows[id := r];
    forall t: nat
      ensures Count(books, XbLeg1, t) == OneIf(HasTransaction(rows, t))
      ensures Count(books, XbLeg2, t) == OneIf(HasTransaction(rows, t))
      ensures Count(books, XbCompensate, t) == OneIf(IsCompensated(rows, t))
    {
      TransactionsAfterRejection(s.rows, id, r, t);
      assert Count(s.books, XbLeg1, t) == OneIf(HasTransaction(s.rows, t));
    }
  }

  lemma TransactionsAfterRejection(rows: seq<Row>, id: nat, r: Row, t: nat)
    requires RowsHold(rows) && id < |rows|
    requires rows[id].compensation.None? && r.compensation.Some? && r.transactionId == rows[id].transactionId
    ensures HasTransaction(rows[id := r], t) <==> HasTransaction(rows, t)
    ensures OneIf(IsCompensated(rows[id := r], t)) == OneIf(IsCompensated(rows, t)) + OneIf(t == r.transactionId)
  {
    var all := rows[id := r];
    assert forall i :: 0 <= i < |rows| ==> all[i].transactionId == rows[i].transactionId;
    assert forall i :: 0 <= i < |rows| && i != id ==> all[i] == rows[i];
    if t == r.transactionId {
      assert all[id].compensation.Some?;
      assert forall i :: 0 <= i < |rows| && rows[i].transactionId == t ==> i == id;
    }
  }

  lemma RejectionSound(s: Store, id: nat, clock: Clock, books: Books)
    requires Sound(s) && id < |s.rows| && !IsTerminal(s.rows[id].state)
    requires CompensationPosted(s.books, s.rows[id], clock) == Ok(books)
    ensures Sound(Store(s.quotes, s.rows[id := RejectedRow(s.rows[id], s.books.nextSeq)], books))
  {
    var r := RejectedRow(s.rows[id], s.books.nextSeq);
    assert RowShape(s.rows[id]);
    CompensationEffect(s.books, s.rows[id], clock, books);
    NostrosAfterRejection(s, id, r, books);
    JournalsAfterRejection(s, id, r, books);
    RestAfterRejection(s, id, r, books);
  }

  lemma RestAfterRejection(s: Store, id: nat, r: Row, books: Books)
    requires QuotesMatch(s) && RowsHold(s.rows) && id < |s.rows| && RowShape(r)
    requires r.transactionId == s.rows[id].transactionId && r.quoteId == s.rows[id].quoteId
    ensures QuotesMatch(Store(s.quotes, s.rows[id := r], books)) && RowsHold(s.rows[id := r])
  {
    assert Serves(s.quotes, s.rows[id]);
  }

  /** What a foreign rail's refusal comes to, from the row `e`. */
  lemma RejectionParts(s: Store, id: nat, e: Row, clock: Clock, after: Store)
    requires id < |s.rows| && HandleResult(s, id, e, true, Declined, clock) == Ok(after)
    ensures CompensationPosted(s.books, e, clock) == Ok(after.books)
    ensures after == Store(s.quotes, s.rows[id := RejectedRow(s.rows[id], s.books.nextSeq)], after.books)
  {
  }

  /** Every reply but a refusal only relabels the row, if it changes anything. */
  lemma RelabelParts(s: Store, id: nat, railKnown: bool, reply: Reply, clock: Clock, after: Store)
    requires id < |s.rows| && !(railKnown && reply.Declined?)
    requires HandleResult(s, id, s.rows[id], railKnown, reply, clock) == Ok(after)
    ensures after == s || (
      id < |after.rows| && after == WithRow(s, id, after.rows[id]) && SameMoney(s.rows[id], after.rows[id])
      && after.rows[id].state != Rejected)
  {
  }

  /** Handling a row as it is in the table. */
  lemma HandleSound(s: Store, id: nat, railKnown: bool, reply: Reply, clock: Clock, after: Store)
    requires Sound(s) && id < |s.rows| && !IsTerminal(s.rows[id].state)
    requires HandleResult(s, id, s.rows[id], railKnown, reply, clock) == Ok(after)
    ensures Sound(after)
    ensures forall k :: 0 <= k < |s.rows| && k != id ==> after.rows[k] == s.rows[k]
  {
    if railKnown && reply.Declined? {
      RejectionParts(s, id, s.rows[id], clock, after);
      RejectionSound(s, id, clock, after.books);
    } else {
      RelabelParts(s, id, railKnown, reply, clock, after);
      if after != s {
        RelabelSound(s, id, after.rows[id]);
      }
    }
  }

  /** The rows of the contacts from the k-th on are as they were picked. */
  ghost predicate Untouched(s: Store, before: Store, contacts: seq<Contact>, k: nat)
    requires InTable(contacts, |s.rows|)
  {
    |before.rows| == |s.rows| && forall i :: k <= i < |contacts| ==>
      before.rows[contacts[i].id] == s.rows[contacts[i].id]
  }

  lemma {:induction false} TickSound(s: Store, before: Store, contacts: seq<Contact>, k: nat, clock: Clock)
    requires Sound(before) && k <= |contacts| && Picked(s.rows, clock.now, IdsOf(contacts))
    requires InTable(contacts, |s.rows|)
    requires Untouched(s, before, contacts, k)
    ensures Sound(TickFrom(before, s.rows, contacts, k, clock))
    decreases |contacts| - k
  {
    if k < |contacts| {
      var after := Handled(before, s.rows, contacts[k], clock);
      TickStepSound(s, before, contacts, k, clock, after);
      TickSound(s, after, contacts, k + 1, clock);
    }
  }

  lemma TickStepSound(s: Store, before: Store, contacts: seq<Contact>, k: nat, clock: Clock, after: Store)
    requires Sound(before) && k < |contacts| && Picked(s.rows, clock.now, IdsOf(contacts))
    requires InTable(contacts, |s.rows|) && Untouched(s, before, contacts, k)
    requires after == Handled(before, s.rows, contacts[k], clock)
    ensures Sound(after) && Untouched(s, after, contacts, k + 1)
  {
    var c := contacts[k];
    assert IdsOf(contacts)[k] == c.id && IsDue(s.rows[c.id], clock.now);
    var r := HandleResult(before, c.id, before.rows[c.id], c.railKnown, c.reply, clock);
    if r.Ok? {
      HandleSound(before, c.id, c.railKnown, c.reply, clock, r.value);
      forall i | k < i < |contacts|
        ensures contacts[i].id != c.id
      {
        assert IdsOf(contacts)[i] == contacts[i].id;
      }
    }
  }

  // ----- quotes and other journals

  lemma QuotesSound(s: Store, quotes: seq<Quote>)
    requires Sound(s) && |quotes| >= |s.quotes| && forall k :: 0 <= k < |quotes| ==> QuoteShape(quotes[k])
    requires forall k :: 0 <= k < |s.quotes| ==> quotes[k].consumedBy == s.quotes[k].consumedBy
    ensures Sound(s.(quotes := quotes))
  {
    forall i | 0 <= i < |s.rows|
      ensures Serves(quotes, s.rows[i])
    {
      assert Serves(s.quotes, s.rows[i]);
    }
  }

  lemma BooksSound(s: Store, books: Books)
    requires Sound(s)
    requires forall c: string :: Balance(books, FxNostroOf(c)) == Balance(s.books, FxNostroOf(c))
    requires forall rail: string, c: string ::
      Balance(books, ForeignNostroOf(rail, c)) == Balance(s.books, ForeignNostroOf(rail, c))
    requires forall n: Reason, t: nat :: n == XbLeg1 || n == XbLeg2 || n == XbCompensate ==>
      Count(books, n, t) == Count(s.books, n, t)
    ensures Sound(s.(books := books))
  {
  }

  lemma JournalSound(s: Store, input: JournalInput, books: Books)
    requires Sound(s) && Foreign(input) && Posted(s.books, input) == Ok(books)
    ensures Sound(s.(books := books))
  {
    forall c: string
      ensures Balance(books, FxNostroOf(c)) == Balance(s.books, FxNostroOf(c))
    {
      UntouchedBalance(s.books, input, FxNostroOf(c));
    }
    forall rail: string, c: string
      ensures Balance(books, ForeignNostroOf(rail, c)) == Balance(s.books, ForeignNostroOf(rail, c))
    {
      UntouchedBalance(s.books, input, ForeignNostroOf(rail, c));
    }
    forall n: Reason, t: nat | n == XbLeg1 || n == XbLeg2 || n == XbCompensate
      ensures Count(books, n, t) == Count(s.books, n, t)
    {
      PostedCount(s.books, input, n, TransactionReference(t));
    }
    BooksSound(s, books);
  }

  lemma StepSound(s: Store, op: Op)
    requires Sound(s) && Possible(s, op)
    ensures Sound(Step(s, op).0)
  {
    match op {
      case OpenQuote(netPay, netReceive, expiresAt) =>
        QuotesSound(s, s.quotes + [Quote(Open, expiresAt, None)]);
      case Lock(id, now) =>
        QuotesSound(s, Step(s, op).0.quotes);
      case ExpirePastDue(ids, now) =>
        forall k | 0 <= k < |s.quotes|
          ensures QuoteShape(ExpiredQuotes(s.quotes, ids, now)[k])
        {
          assert QuoteShape(s.quotes[k]);
        }
        QuotesSound(s, ExpiredQuotes(s.quotes, ids, now));
      case Coordinate(order, clock) =>
        if CoordinateResult(s, order, clock).Ok? {
          CoordinateSound(s, order, clock, CoordinateResult(s, order, clock).value);
        }
      case Tick(contacts, clock) =>
        if InTable(contacts, |s.rows|) {
          TickSound(s, s, contacts, 0, clock);
        }
      case OtherJournal(input) =>
        if Posted(s.books, input).Ok? {
          JournalSound(s, input, Posted(s.books, input).value);
        }
    }
  }

  /** Whatever runs and whatever the foreign rails answer, the nostros, the rows, the quotes and the
      journals stay in step. */
  lemma {:induction false} RunSound(s: Store, ops: seq<Op>)
    requires Sound(s) && PossibleRun(s, ops)
    ensures Sound(Run(s, ops))
  {
    if ops != [] {
      RunSound(s, ops[..|ops| - 1]);
      StepSound(Run(s, ops[..|ops| - 1]), ops[|ops| - 1]);
    }
  }

  lemma StartSound(books: Books)
    requires books.journals == []
    ensures Sound(Store([], [], books))
  {
  }

  // ----- what follows

  /** No quote serves two rows. */
  lemma QuoteServesOne(s: Store, i: nat, j: nat)
    requires Sound(s) && i < |s.rows| && j < |s.rows| && s.rows[i].quoteId == s.rows[j].quoteId
    ensures i == j
  {
    assert Serves(s.quotes, s.rows[i]) && Serves(s.quotes, s.rows[j]);
  }

  /** `lock` on a consumed quote past its time marks it expired; the row it serves still has it alone. */
  lemma LockExpiresConsumed(s: Store, id: nat, now: int)
    requires Sound(s) && id < |s.quotes| && s.quotes[id].state == Consumed && s.quotes[id].expiresAt <= now
    ensures LockStep(s, id, now).0.quotes[id] == s.quotes[id].(state := Expired)
    ensures LockStep(s, id, now).1 == Some(Conflict) && Sound(LockStep(s, id, now).0)
  {
    QuotesSound(s, LockStep(s, id, now).0.quotes);
  }

  /** The row `e` is this row as it was picked: only its progress may have changed since. */
  predicate PickedEarlier(e: Row, r: Row) {
    e == r.(state := e.state, attempts := e.attempts, nextAttemptAt := e.nextAttemptAt, foreignTx := e.foreignTx,
            compensation := e.compensation)
  }

  /** A row already compensated, compensated once more. */
  lemma CompensatedTwice(s: Store, id: nat, e: Row, after: Store)
    requires NostrosMatch(s) && id < |s.rows| && s.rows[id].compensation.Some? && e.receive > 0
    requires |after.rows| == |s.rows| && after == Store(s.quotes, s.rows[id := after.rows[id]], after.books)
    requires after.rows[id].compensation.Some?
    requires Balance(after.books, ForeignNostroOf(e.rail, e.receiveCurrency))
      == Balance(s.books, ForeignNostroOf(e.rail, e.receiveCurrency)) - e.receive
    ensures !NostrosMatch(after)
  {
    SumUpdate(s.rows, id, after.rows[id], InForeignNostro(e.rail, e.receiveCurrency));
    assert Balance(s.books, ForeignNostroOf(e.rail, e.receiveCurrency))
      == SumOf(s.rows, InForeignNostro(e.rail, e.receiveCurrency));
  }

  lemma SameHoldings(e: Row, r: Row)
    requires PickedEarlier(e, r) && e.compensation.None? && r.compensation.None?
    ensures forall c: string :: InFxNostro(c)(r) == InFxNostro(c)(e)
    ensures forall rail: string, c: string :: InForeignNostro(rail, c)(r) == InForeignNostro(rail, c)(e)
  {
  }

  /** Compensating from a row picked earlier: the nostros still match exactly when the row has not been
      compensated in between. */
  lemma StaleRejection(s: Store, id: nat, e: Row, clock: Clock, after: Store)
    requires Sound(s) && id < |s.rows| && e.compensation.None? && PickedEarlier(e, s.rows[id])
    requires HandleResult(s, id, e, true, Declined, clock) == Ok(after)
    ensures NostrosMatch(after) <==> s.rows[id].compensation.None?
    ensures Count(after.books, XbCompensate, e.transactionId) == if s.rows[id].compensation.None? then 1 else 2
  {
    var row := s.rows[id];
    RejectionParts(s, id, e, clock, after);
    CompensationEffect(s.books, e, clock, after.books);
    assert RowShape(row);
    if row.compensation.None? {
      SameHoldings(e, row);
      NostrosAfterRejection(s, id, after.rows[id], after.books);
      NotCompensated(s.rows, id);
    } else {
      CompensatedTwice(s, id, e, after);
      assert IsCompensated(s.rows, e.transactionId);
    }
    assert Count(s.books, XbCompensate, e.transactionId) == OneIf(IsCompensated(s.rows, e.transactionId));
  }

  lemma NotCompensated(rows: seq<Row>, id: nat)
    requires RowsHold(rows) && id < |rows| && rows[id].compensation.None?
    ensures !IsCompensated(rows, rows[id].transactionId)
  {
  }

  /** What an accepted order moves: the originator pays, the exchange account of each currency stands in
      between, and the foreign rail is credited. No other account moves. */
  lemma OrderMoves(s: Store, o: Order, clock: Clock, after: Store, a: AccountKey)
    requires CoordinateResult(s, o, clock) == Ok(after)
    ensures Balance(after.books, a) == Balance(s.books, a)
      - (if a == SettlementOf(o.originator, o.payCurrency) then o.pay else 0)
      + (if a == FxNostroOf(o.payCurrency) then o.pay else 0)
      - (if a == FxNostroOf(o.receiveCurrency) then o.receive else 0)
      + (if a == ForeignNostroOf(o.rail, o.receiveCurrency) then o.receive else 0)
  {
    var r := RowFor(o);
    var s1 := CoordinateParts(s, o, clock, after);
    LegsEffect(s.books, r, clock, after.books);
    PairNet(SettlementOf(r.originator, r.payCurrency), FxNostroOf(r.payCurrency), r.pay, a);
    PairNet(FxNostroOf(r.receiveCurrency), ForeignNostroOf(r.rail, r.receiveCurrency), r.receive, a);
  }

  // ----- terminal rows

  lemma {:induction false} TickLeaves(s: Store, picked: seq<Row>, contacts: seq<Contact>, k: nat, clock: Clock, id: nat)
    requires k <= |contacts| && InTable(contacts, |s.rows|) && |picked| == |s.rows|
    requires id < |s.rows| && forall i :: k <= i < |contacts| ==> contacts[i].id != id
    ensures id < |TickFrom(s, picked, contacts, k, clock).rows|
    ensures TickFrom(s, picked, contacts, k, clock).rows[id] == s.rows[id]
    decreases |contacts| - k
  {
    if k < |contacts| {
      HandledLeaves(s, picked, contacts[k], clock, id);
      TickLeaves(Handled(s, picked, contacts[k], clock), picked, contacts, k + 1, clock, id);
    }
  }

  lemma HandledLeaves(s: Store, picked: seq<Row>, c: Contact, clock: Clock, id: nat)
    requires c.id < |s.rows| == |picked| && id < |s.rows| && id != c.id
    ensures |Handled(s, picked, c, clock).rows| == |s.rows| && Handled(s, picked, c, clock).rows[id] == s.rows[id]
  {
  }

  lemma PickedContacts(rows: seq<Row>, now: int, contacts: seq<Contact>)
    requires Picked(rows, now, IdsOf(contacts))
    ensures forall i :: 0 <= i < |contacts| ==> contacts[i].id < |rows| && IsDue(rows[contacts[i].id], now)
    ensures forall i, j :: 0 <= i < j < |contacts| ==> contacts[i].id != contacts[j].id
  {
    var ids := IdsOf(contacts);
    forall i | 0 <= i < |contacts|
      ensures contacts[i].id == ids[i]
    {
    }
  }

  /** Only ticks change rows. */
  lemma OthersKeepRow(s: Store, op: Op, id: nat)
    requires id < |s.rows| && !op.Tick?
    ensures id < |Step(s, op).0.rows| && Step(s, op).0.rows[id] == s.rows[id]
  {
    match op {
      case Coordinate(order, clock) =>
        if CoordinateResult(s, order, clock).Ok? {
          var _ := CoordinateParts(s, order, clock, Step(s, op).0);
        }
      case _ =>
    }
  }

  /** A confirmed, rejected or failed row never changes again: a confirmed payment is never compensated. */
  lemma TerminalStays(s: Store, op: Op, id: nat)
    requires Possible(s, op) && id < |s.rows| && IsTerminal(s.rows[id].state)
    ensures id < |Step(s, op).0.rows| && Step(s, op).0.rows[id] == s.rows[id]
  {
    if op.Tick? {
      PickedContacts(s.rows, op.clock.now, op.contacts);
      TickLeaves(s, s.rows, op.contacts, 0, op.clock, id);
    } else {
      OthersKeepRow(s, op, id);
    }
  }

  lemma {:induction false} TerminalForever(s: Store, ops: seq<Op>, id: nat)
    requires PossibleRun(s, ops) && id < |s.rows| && IsTerminal(s.rows[id].state)
    ensures id < |Run(s, ops).rows| && Run(s, ops).rows[id] == s.rows[id]
  {
    if ops != [] {
      TerminalForever(s, ops[..|ops| - 1], id);
      TerminalStays(Run(s, ops[..|ops| - 1]), ops[|ops| - 1], id);
    }
  }

  // ----- a foreign rail that only times out

  /** Whatever the rail of this row answers is no answer: a timeout, an error or an unknown status. */
  predicate Silent(c: Contact, id: nat) {
    c.id == id ==> c.railKnown && (c.reply.TimedOut? || c.reply.Unreachable? || c.reply.OtherReply?)
  }

  /** The row as a timeout leaves it: given up at the last attempt, otherwise due again after its backoff. */
  function TimedOutRow(r: Row, clock: Clock): Row {
    if r.attempts + 1 >= MAX_ATTEMPTS then r.(state := Failed, attempts := r.attempts + 1, nextAttemptAt := None)
    else
      r.(state := PendingForeign, attempts := r.attempts + 1,
         nextAttemptAt := Some(clock.now + BACKOFF[r.attempts + 1] * 1000))
  }

  /** One of the contacts from the k-th on is a timeout of this row. */
  predicate TimesOutFrom(contacts: seq<Contact>, k: nat, id: nat) {
    exists j :: k <= j < |contacts| && contacts[j] == Contact(id, true, TimedOut)
  }

  /** One contact with the row that gets no answer. */
  lemma SilentContact(s: Store, picked: seq<Row>, c: Contact, clock: Clock)
    requires c.id < |s.rows| == |picked| && Silent(c, c.id) && s.rows[c.id] == picked[c.id]
    ensures var after := Handled(s, picked, c, clock);
      && |after.rows| == |s.rows|
      && after.rows[c.id] == if c.reply.TimedOut? then TimedOutRow(s.rows[c.id], clock) else s.rows[c.id]
  {
  }

  /** A tick that gets no answer for the row: it times out or stays. */
  lemma {:induction false} SilentTick(s: Store, picked: seq<Row>, contacts: seq<Contact>, k: nat, clock: Clock,
      id: nat)
    requires k <= |contacts| && InTable(contacts, |s.rows|) && |picked| == |s.rows| && id < |s.rows|
    requires forall i, j :: 0 <= i < j < |contacts| ==> contacts[i].id != contacts[j].id
    requires (forall j :: 0 <= j < |contacts| ==> Silent(contacts[j], id)) && s.rows[id] == picked[id]
    ensures id < |TickFrom(s, picked, contacts, k, clock).rows|
    ensures TickFrom(s, picked, contacts, k, clock).rows[id]
      == if TimesOutFrom(contacts, k, id) then TimedOutRow(s.rows[id], clock) else s.rows[id]
    decreases |contacts| - k
  {
    if k < |contacts| {
      var s1 := Handled(s, picked, contacts[k], clock);
      assert Silent(contacts[k], id);
      if contacts[k].id == id {
        SilentContact(s, picked, contacts[k], clock);
        TickLeaves(s1, picked, contacts, k + 1, clock, id);
      } else {
        HandledLeaves(s, picked, contacts[k], clock, id);
        SilentTick(s1, picked, contacts, k + 1, clock, id);
      }
    }
  }

  /** No answer for the row in this operation, nor a contact before the start. */
  predicate SilentOp(op: Op, id: nat, start: int) {
    op.Tick? ==> forall k :: 0 <= k < |op.contacts| ==>
      Silent(op.contacts[k], id) && (op.contacts[k].id == id ==> start <= op.clock.now)
  }

  predicate SilentRun(ops: seq<Op>, id: nat, start: int) {
    forall i :: 0 <= i < |ops| ==> SilentOp(ops[i], id, start)
  }

  predicate TimesOut(op: Op, id: nat) {
    op.Tick? && TimesOutFrom(op.contacts, 0, id)
  }

  /** How often the row times out in a run. */
  function Timeouts(ops: seq<Op>, id: nat): nat {
    if ops == [] then 0 else Timeouts(ops[..|ops| - 1], id) + if TimesOut(ops[|ops| - 1], id) then 1 else 0
  }

  lemma SilentStep(s: Store, op: Op, id: nat, start: int)
    requires id < |s.rows| && Possible(s, op) && SilentOp(op, id, start)
    ensures id < |Step(s, op).0.rows|
    ensures Step(s, op).0.rows[id] == if TimesOut(op, id) then TimedOutRow(s.rows[id], op.clock) else s.rows[id]
    ensures TimesOut(op, id) ==> IsDue(s.rows[id], op.clock.now) && start <= op.clock.now
  {
    if op.Tick? {
      PickedContacts(s.rows, op.clock.now, op.contacts);
      SilentTick(s, s.rows, op.contacts, 0, op.clock, id);
    } else {
      OthersKeepRow(s, op, id);
    }
  }

  /** The least time, in seconds, from the first timeout to the earliest next attempt after the n-th. */
  function Backoffs(n: nat): int
    requires n < MAX_ATTEMPTS
  {
    if n == 0 then 0 else Backoffs(n - 1) + BACKOFF[n]
  }

  /** The row after n timeouts and nothing else. */
  predicate AfterTimeouts(r: Row, n: nat, start: int) {
    && n <= MAX_ATTEMPTS && r.attempts == n
    && (if n == MAX_ATTEMPTS then r.state == Failed
        else if n == 0 then r.state == ForeignInstructing || r.state == PendingForeign
        else r.state == PendingForeign && r.nextAttemptAt.Some? && r.nextAttemptAt.value >= start + Backoffs(n) * 1000)
  }

  lemma NextTimeout(r: Row, n: nat, start: int, clock: Clock)
    requires AfterTimeouts(r, n, start) && IsDue(r, clock.now) && start <= clock.now
    ensures n < MAX_ATTEMPTS && AfterTimeouts(TimedOutRow(r, clock), n + 1, start)
    ensures start + Backoffs(n) * 1000 <= clock.now
  {
  }

  /** A row whose rail gives no answer, whatever else happens: after n timeouts it has made n attempts, n is
      never more than five, and it is FAILED exactly from the fifth on. */
  lemma {:induction false} TimeoutsFail(s: Store, ops: seq<Op>, id: nat, start: int)
    requires id < |s.rows| && AfterTimeouts(s.rows[id], 0, start)
    requires PossibleRun(s, ops) && SilentRun(ops, id, start)
    ensures id < |Run(s, ops).rows| && AfterTimeouts(Run(s, ops).rows[id], Timeouts(ops, id), start)
  {
    if ops != [] {
      var front, op := ops[..|ops| - 1], ops[|ops| - 1];
      TimeoutsFail(s, front, id, start);
      assert SilentOp(op, id, start);
      SilentStep(Run(s, front), op, id, start);
      if TimesOut(op, id) {
        NextTimeout(Run(s, front).rows[id], Timeouts(front, id), start, op.clock);
      }
    }
  }

  /** The worker does not give up early: the tick that fails the row is at least 30 + 120 + 600 + 1800
      seconds after the first contact. */
  lemma FailedNoSooner(s: Store, ops: seq<Op>, op: Op, id: nat, start: int)
    requires id < |s.rows| && AfterTimeouts(s.rows[id], 0, start)
    requires PossibleRun(s, ops) && SilentRun(ops, id, start) && SilentOp(op, id, start) && Possible(Run(s, ops), op)
    requires id < |Run(s, ops).rows| && Run(s, ops).rows[id].state != Failed
    requires id < |Step(Run(s, ops), op).0.rows| && Step(Run(s, ops), op).0.rows[id].state == Failed
    ensures op.Tick? && op.clock.now >= start + 2_550_000
  {
    var t := Run(s, ops);
    TimeoutsFail(s, ops, id, start);
    SilentStep(t, op, id, start);
    NextTimeout(t.rows[id], Timeouts(ops, id), start, op.clock);
    AllBackoffs();
  }

  lemma AllBackoffs()
    ensures Backoffs(4) == 2550
  {
    assert Backoffs(1) == 30 && Backoffs(2) == 150 && Backoffs(3) == 750;
  }
}
