/** The ledger's hash chain: which days verify, and what a verified day's last hash pins down. */
module LedgerChain {
  import opened Text
  import opened Decimal
  import opened HashChain
  import opened Ledger
  import J = CanonicalJson
  import LedgerBalances

  // ----- account codes

  lemma TypeTextShape(kind: AccountType)
    ensures forall i :: 0 <= i < |TypeText(kind)| ==> TypeText(kind)[i] != ':'
  {
  }

  lemma TypeTextInjective(a: AccountType, b: AccountType)
    requires TypeText(a) == TypeText(b)
    ensures a == b
  {
    var s, t := TypeText(a), TypeText(b);
    assert |s| == |t| && s[0] == t[0];
    assert |s| > 5 ==> s[5] == t[5];
  }

  predicate Owned(key: AccountKey) {
    key.kind.ParticipantSettlement? || key.kind.RailForeignRailNostro?
  }

  /** Accounts of the rail are keyed without an owner. */
  predicate Plain(key: AccountKey) {
    Owned(key) || key.owner == ""
  }

  function AfterType(key: AccountKey): string {
    if Owned(key) then key.owner + [':'] + key.currency else key.currency
  }

  lemma CodeParts(key: AccountKey)
    ensures CodeOf(key) == TypeText(key.kind) + ([':'] + AfterType(key))
    ensures Find(CodeOf(key), ':') == |TypeText(key.kind)|
  {
    TypeTextShape(key.kind);
    FindSeparator(TypeText(key.kind), ':', AfterType(key));
    assert TypeText(key.kind) + [':'] + AfterType(key) == TypeText(key.kind) + ([':'] + AfterType(key));
  }

  lemma SameOwner(a: AccountKey, b: AccountKey)
    requires a.kind == b.kind && Plain(a) && Plain(b) && |a.currency| == |b.currency| && AfterType(a) == AfterType(b)
    ensures a == b
  {
    if Owned(a) {
      SplitEnd(a.owner + [':'], a.currency, b.owner + [':'], b.currency);
      SplitEnd(a.owner, [':'], b.owner, [':']);
    }
  }

  /** Codes tell accounts apart when currency codes all have one length, as the CHAR(3) column makes
      them. */
  lemma CodesDiffer(a: AccountKey, b: AccountKey)
    requires Plain(a) && Plain(b) && |a.currency| == |b.currency| && CodeOf(a) == CodeOf(b)
    ensures a == b
  {
    CodeParts(a);
    CodeParts(b);
    J.Strip(TypeText(a.kind), [':'] + AfterType(a), TypeText(b.kind), [':'] + AfterType(b));
    TypeTextInjective(a.kind, b.kind);
    J.Strip([':'], AfterType(a), [':'], AfterType(b));
    SameOwner(a, b);
  }

  /** Without that, they need not: an owner and a currency can share a separator. */
  lemma CodesCollide()
    ensures CodeOf(AccountKey(ParticipantSettlement, "A", "B:C"))
      == CodeOf(AccountKey(ParticipantSettlement, "A:B", "C"))
  {
    assert CodeOf(AccountKey(ParticipantSettlement, "A", "B:C")) == "PSET:A:B:C";
  }

  // ----- payloads

  datatype PayloadLine = PayloadLine(code: string, side: string, amount: string, currency: string)

  /** What a journal's hash covers. */
  datatype Payload = Payload(seqNo: nat, reason: string, date: string, reference: Reference, lines: seq<PayloadLine>)

  function LineOf(e: PayloadEntry): PayloadLine {
    PayloadLine(CodeOf(e.account), SideText(e.side), e.amount, e.currency)
  }

  function LinesOf(ps: seq<PayloadEntry>): (lines: seq<PayloadLine>)
    ensures |lines| == |ps|
  {
    seq(|ps|, i requires 0 <= i < |ps| => LineOf(ps[i]))
  }

  function PayloadOf(seqNo: nat, reason: Reason, date: string, reference: Reference, ps: seq<PayloadEntry>): Payload {
    Payload(seqNo, ReasonText(reason), date, reference, LinesOf(ps))
  }

  /** The payload of a stored journal. */
  function StoredPayload(dates: DateColumn, j: Journal): Payload {
    PayloadOf(j.seqNo, j.reason, dates.show(j.operatingDate), j.reference, StoredTexts(j.postings))
  }

  lemma EntryKeys(e: PayloadEntry, i: nat)
    ensures J.DistinctKeys(EntryJson(e, i).entries) && J.WellFormed(EntryJson(e, i))
  {
  }

  lemma OptionalWellFormed(s: Option<string>)
    ensures J.WellFormed(OptionalText(s))
  {
  }

  lemma PayloadKeys(seqNo: nat, reason: Reason, date: string, reference: Reference, ps: seq<PayloadEntry>)
    ensures J.DistinctKeys(PayloadJson(seqNo, reason, date, reference, ps).entries)
  {
  }

  lemma PayloadWellFormed(seqNo: nat, reason: Reason, date: string, reference: Reference, ps: seq<PayloadEntry>)
    ensures J.WellFormed(PayloadJson(seqNo, reason, date, reference, ps))
  {
    var v := PayloadJson(seqNo, reason, date, reference, ps);
    PayloadKeys(seqNo, reason, date, reference, ps);
    OptionalWellFormed(reference.kind);
    OptionalWellFormed(reference.id);
    var items := EntriesJson(ps);
    forall i | 0 <= i < |items|
      ensures J.WellFormed(items[i])
    {
      EntryKeys(ps[i], i);
    }
    assert J.WellFormed(J.Arr(items));
  }

  lemma EntryInjective(e: PayloadEntry, f: PayloadEntry, i: nat)
    requires J.TreeOf(EntryJson(e, i)) == J.TreeOf(EntryJson(f, i))
    ensures LineOf(e) == LineOf(f)
  {
    EntryKeys(e, i);
    EntryKeys(f, i);
    var es, fs := EntryJson(e, i).entries, EntryJson(f, i).entries;
    J.SameMember(es, fs, 1);
    J.SameMember(es, fs, 2);
    J.SameMember(es, fs, 3);
    J.SameMember(es, fs, 4);
  }

  lemma EntriesInjective(ps: seq<PayloadEntry>, qs: seq<PayloadEntry>)
    requires J.TreeOf(J.Arr(EntriesJson(ps))) == J.TreeOf(J.Arr(EntriesJson(qs)))
    ensures LinesOf(ps) == LinesOf(qs)
  {
    var a, b := EntriesJson(ps), EntriesJson(qs);
    assert J.ItemTrees(a, |a|) == J.ItemTrees(b, |b|);
    forall i | 0 <= i < |ps|
      ensures LineOf(ps[i]) == LineOf(qs[i])
    {
      J.ItemTreesAt(a, |a|, i);
      J.ItemTreesAt(b, |b|, i);
      EntryInjective(ps[i], qs[i], i);
    }
  }

  lemma OptionalInjective(s: Option<string>, t: Option<string>)
    requires J.TreeOf(OptionalText(s)) == J.TreeOf(OptionalText(t))
    ensures s == t
  {
  }

  lemma TreeDeterminesPayload(
    n: nat, r: Reason, d: string, ref: Reference, ps: seq<PayloadEntry>,
    m: nat, s: Reason, e: string, ref': Reference, qs: seq<PayloadEntry>)
    requires J.TreeOf(PayloadJson(n, r, d, ref, ps)) == J.TreeOf(PayloadJson(m, s, e, ref', qs))
    ensures PayloadOf(n, r, d, ref, ps) == PayloadOf(m, s, e, ref', qs)
  {
    var es, fs := PayloadJson(n, r, d, ref, ps).entries, PayloadJson(m, s, e, ref', qs).entries;
    PayloadKeys(n, r, d, ref, ps);
    PayloadKeys(m, s, e, ref', qs);
    J.SameMember(es, fs, 0);
    J.SameMember(es, fs, 1);
    J.SameMember(es, fs, 2);
    J.SameMember(es, fs, 3);
    J.SameMember(es, fs, 4);
    J.SameMember(es, fs, 5);
    PrintInjective(n, m);
    OptionalInjective(ref.kind, ref'.kind);
    OptionalInjective(ref.id, ref'.id);
    EntriesInjective(ps, qs);
  }

  /** Equal texts mean equal payloads. */
  lemma TextDeterminesPayload(
    n: nat, r: Reason, d: string, ref: Reference, ps: seq<PayloadEntry>,
    m: nat, s: Reason, e: string, ref': Reference, qs: seq<PayloadEntry>)
    requires J.CanonicalText(PayloadJson(n, r, d, ref, ps)) == J.CanonicalText(PayloadJson(m, s, e, ref', qs))
    ensures PayloadOf(n, r, d, ref, ps) == PayloadOf(m, s, e, ref', qs)
  {
    PayloadWellFormed(n, r, d, ref, ps);
    PayloadWellFormed(m, s, e, ref', qs);
    J.CanonicalTextIdentifies(PayloadJson(n, r, d, ref, ps), PayloadJson(m, s, e, ref', qs));
    TreeDeterminesPayload(n, r, d, ref, ps, m, s, e, ref', qs);
  }

  // ----- which journals verify

  /** Every amount is written the way the table gives it back. */
  ghost predicate CanonicalAmounts(entries: seq<Entry>) {
    forall i :: 0 <= i < |entries| ==> entries[i].amount == Print(StoredPosting(entries[i]).amount)
  }

  lemma CanonicalAmountsStored(entries: seq<Entry>)
    ensures CanonicalAmounts(entries) <==>
      LinesOf(StoredTexts(StoredUpTo(entries, |entries|))) == LinesOf(GivenTexts(entries))
    ensures CanonicalAmounts(entries) ==> StoredTexts(StoredUpTo(entries, |entries|)) == GivenTexts(entries)
  {
    var stored, given := StoredTexts(StoredUpTo(entries, |entries|)), GivenTexts(entries);
    forall i | 0 <= i < |entries|
      ensures var e := entries[i];
        stored[i] == PayloadEntry(e.account, e.side, Print(StoredPosting(e).amount), e.currency)
    {
      LedgerBalances.StoredAt(entries, |entries|, i);
    }
    if LinesOf(stored) == LinesOf(given) {
      forall i | 0 <= i < |entries|
        ensures entries[i].amount == Print(StoredPosting(entries[i]).amount)
      {
        assert LinesOf(stored)[i] == LinesOf(given)[i];
      }
    }
  }

  /** The column gives the date text back as it was given. */
  ghost predicate DateKept(b: Books, input: JournalInput)
    requires Dated(b, input)
  {
    b.dates.show(DayFor(b, input)) == input.operatingDate
  }

  /** The date and every amount are written the way the tables give them back. */
  ghost predicate Faithful(b: Books, input: JournalInput)
    requires Dated(b, input)
  {
    DateKept(b, input) && CanonicalAmounts(input.entries)
  }

  /** The text `postJournal` hashes. */
  function GivenText(b: Books, input: JournalInput): string {
    J.CanonicalText(
      PayloadJson(b.nextSeq, input.reason, input.operatingDate, input.reference, GivenTexts(input.entries)))
  }

  /** The text `verifyDayChain` will hash for the journal that this call posts. */
  function ReadText(b: Books, input: JournalInput): string
    requires Dated(b, input)
  {
    StoredText(b.dates, Sealed(b, input))
  }

  /** The text hashed when posting is the text hashed when verifying exactly when every amount was
      canonical and the column gives the date text back. */
  lemma SealedText(b: Books, input: JournalInput)
    requires Dated(b, input)
    ensures ReadText(b, input) == GivenText(b, input) <==> Faithful(b, input)
  {
    var stored := StoredTexts(StoredUpTo(input.entries, |input.entries|));
    CanonicalAmountsStored(input.entries);
    if ReadText(b, input) == GivenText(b, input) {
      TextDeterminesPayload(b.nextSeq, input.reason, b.dates.show(DayFor(b, input)), input.reference, stored,
                            b.nextSeq, input.reason, input.operatingDate, input.reference, GivenTexts(input.entries));
    }
  }

  /** `verifyDayChain` accepts the day. */
  ghost predicate DayVerifies(b: Books, day: int) {
    Chained(b.sha256, GENESIS, LinksOf(b.dates, DayOf(b.journals, day)))
  }

  ghost predicate AllDaysVerify(b: Books) {
    forall day: int :: DayVerifies(b, day)
  }

  /** A hexadecimal SHA-256 digest. */
  ghost predicate DigestLength(h: Hash) {
    forall x :: |h(x)| == 64
  }

  lemma DayVerifiesExactly(b: Books, day: int)
    ensures DayVerifies(b, day) <==>
      VerifyFrom(b.sha256, LinksOf(b.dates, DayOf(b.journals, day)), 0, GENESIS).Verified?
  {
    var links := LinksOf(b.dates, DayOf(b.journals, day));
    VerifyExact(b.sha256, GENESIS, links);
    ChainedIsBuilt(b.sha256, GENESIS, links);
  }

  lemma PostExtendsDay(b: Books, input: JournalInput, day: int)
    requires Posted(b, input).Ok?
    ensures DayOf(Posted(b, input).value.journals, day) ==
      DayOf(b.journals, day) + if DayFor(b, input) == day then [Sealed(b, input)] else []
  {
    var js := Posted(b, input).value.journals;
    assert js[..|js| - 1] == b.journals && js[|js| - 1] == Sealed(b, input);
  }

  lemma PrevIsEnd(b: Books, day: int)
    requires DayVerifies(b, day) && DigestLength(b.sha256)
    ensures PrevHash(b.journals, day) == EndOf(GENESIS, LinksOf(b.dates, DayOf(b.journals, day)))
  {
  }

  lemma LinksAppend(dates: DateColumn, day: seq<Journal>, j: Journal)
    ensures LinksOf(dates, day + [j]) == LinksOf(dates, day) + [LinkOf(dates, j)]
  {
  }

  lemma ChainedAppend(h: Hash, genesis: string, links: seq<Link>, last: Link)
    ensures Chained(h, genesis, links + [last]) <==>
      Chained(h, genesis, links) && last.prev == EndOf(genesis, links)
        && last.hash == ChainHash(h, last.prev, last.text)
  {
    var all := links + [last];
    assert all[..|all| - 1] == links && all[|all| - 1] == last;
  }

  /** The hash sealed in the journal is the hash that verifying it computes. */
  ghost predicate SealHolds(b: Books, input: JournalInput)
    requires Dated(b, input)
  {
    var prev := PrevHash(b.journals, DayFor(b, input));
    ChainHash(b.sha256, prev, ReadText(b, input)) == ChainHash(b.sha256, prev, GivenText(b, input))
  }

  /** Posting leaves its day verified exactly when the day was and hashing the text read back gives the
      hash that was sealed; every other day is as it was. */
  lemma PostVerifies(b: Books, input: JournalInput, day: int)
    requires Posted(b, input).Ok? && DigestLength(b.sha256)
    ensures DayVerifies(Posted(b, input).value, day) <==>
      DayVerifies(b, day) && (day == DayFor(b, input) ==> SealHolds(b, input))
  {
    PostExtendsDay(b, input, day);
    if day == DayFor(b, input) {
      var j := Sealed(b, input);
      LinksAppend(b.dates, DayOf(b.journals, day), j);
      ChainedAppend(b.sha256, GENESIS, LinksOf(b.dates, DayOf(b.journals, day)), LinkOf(b.dates, j));
      if DayVerifies(b, day) {
        PrevIsEnd(b, day);
      }
    }
  }

  /** The texts hashed when the journal is posted and when its day is verified. */
  ghost predicate HashedIn(b: Books, input: JournalInput, texts: set<string>)
    requires Dated(b, input)
  {
    var prev, read, given := PrevHash(b.journals, DayFor(b, input)), ReadText(b, input), GivenText(b, input);
    read in texts && given in texts && prev + b.sha256(read) in texts && prev + b.sha256(given) in texts
  }

  lemma SealHoldsExactly(b: Books, input: JournalInput, texts: set<string>)
    requires Dated(b, input) && DigestLength(b.sha256) && NoCollision(b.sha256, texts) && HashedIn(b, input, texts)
    ensures SealHolds(b, input) <==> Faithful(b, input)
  {
    SealedText(b, input);
    var prev, s, g := PrevHash(b.journals, DayFor(b, input)), ReadText(b, input), GivenText(b, input);
    if SealHolds(b, input) {
      SplitEnd(prev, b.sha256(s), prev, b.sha256(g));
    }
  }

  /** With no collision among the four texts hashed, a verified day stays verified exactly when every
      amount was a canonical decimal and the column gives the date text back: "007" is sealed as
      written and verified as "7". */
  lemma PostVerifiesExactly(b: Books, input: JournalInput, texts: set<string>)
    requires Posted(b, input).Ok? && DayVerifies(b, DayFor(b, input)) && DigestLength(b.sha256)
    requires NoCollision(b.sha256, texts) && HashedIn(b, input, texts)
    ensures DayVerifies(Posted(b, input).value, DayFor(b, input)) <==> Faithful(b, input)
  {
    PostVerifies(b, input, DayFor(b, input));
    SealHoldsExactly(b, input, texts);
  }

  /** A date text other than the one the column gives back, such as "2026-4-28" for "2026-04-28": its
      journal is accepted and its day no longer verifies, whatever the amounts. */
  lemma ReformattedDate(b: Books, input: JournalInput, texts: set<string>)
    requires Posted(b, input).Ok? && DigestLength(b.sha256)
    requires NoCollision(b.sha256, texts) && HashedIn(b, input, texts)
    requires input.operatingDate == "2026-4-28" && b.dates.show(DayFor(b, input)) == "2026-04-28"
    ensures !DayVerifies(Posted(b, input).value, DayFor(b, input))
  {
    PostVerifies(b, input, DayFor(b, input));
    SealHoldsExactly(b, input, texts);
  }

  /** The column never gives back a text that names the day: as when the service, east of Greenwich,
      turns local midnight into the date of the day before. */
  ghost predicate Shifting(dates: DateColumn) {
    forall text: string :: dates.read(text).Some? ==> dates.show(dates.read(text).value) != text
  }

  /** With such a column no accepted journal leaves its day verified. */
  lemma ShiftedDates(b: Books, input: JournalInput, texts: set<string>)
    requires Posted(b, input).Ok? && DigestLength(b.sha256) && Shifting(b.dates)
    requires NoCollision(b.sha256, texts) && HashedIn(b, input, texts)
    ensures !DayVerifies(Posted(b, input).value, DayFor(b, input))
  {
    PostVerifies(b, input, DayFor(b, input));
    SealHoldsExactly(b, input, texts);
  }

  // ----- runs

  /** The journal is rejected, or written the way the tables give it back. */
  ghost predicate PostsFaithfully(b: Books, op: LedgerBalances.Op) {
    op.Post? && Posted(b, op.input).Ok? ==> Faithful(b, op.input)
  }

  /** Every accepted journal of the run is. */
  ghost predicate RunFaithful(b: Books, ops: seq<LedgerBalances.Op>) {
    ops == [] ||
    (RunFaithful(b, ops[..|ops| - 1]) && PostsFaithfully(LedgerBalances.Run(b, ops[..|ops| - 1]), ops[|ops| - 1]))
  }

  /** The texts hashed over the whole run. */
  ghost predicate RunHashes(b: Books, ops: seq<LedgerBalances.Op>, texts: set<string>) {
    ops == [] ||
    (RunHashes(b, ops[..|ops| - 1], texts)
      && StepHashes(LedgerBalances.Run(b, ops[..|ops| - 1]), ops[|ops| - 1], texts))
  }

  ghost predicate StepHashes(b: Books, op: LedgerBalances.Op, texts: set<string>) {
    op.Post? && Posted(b, op.input).Ok? ==> HashedIn(b, op.input, texts)
  }

  lemma StepKeepsColumns(b: Books, op: LedgerBalances.Op)
    ensures LedgerBalances.Step(b, op).sha256 == b.sha256 && LedgerBalances.Step(b, op).dates == b.dates
  {
  }

  /** An operation keeps every day verified when what it posts is faithful. */
  lemma StepVerifies(b: Books, op: LedgerBalances.Op)
    requires AllDaysVerify(b) && DigestLength(b.sha256) && PostsFaithfully(b, op)
    ensures AllDaysVerify(LedgerBalances.Step(b, op))
  {
    if op.Post? && Posted(b, op.input).Ok? {
      SealedText(b, op.input);
    }
    forall day: int
      ensures DayVerifies(LedgerBalances.Step(b, op), day)
    {
      StepDay(b, op, day);
    }
  }

  /** What an operation makes of a day. */
  lemma StepDay(b: Books, op: LedgerBalances.Op, day: int)
    requires DigestLength(b.sha256)
    ensures DayVerifies(LedgerBalances.Step(b, op), day) <==>
      DayVerifies(b, day)
        && (op.Post? && Posted(b, op.input).Ok? && day == DayFor(b, op.input) ==> SealHolds(b, op.input))
  {
    if op.Post? && Posted(b, op.input).Ok? {
      PostVerifies(b, op.input, day);
    }
  }

  /** After any run of accepted and rejected operations whose accepted journals are written the way the
      tables give them back, every day verifies. */
  lemma {:induction false} RunVerifies(b: Books, ops: seq<LedgerBalances.Op>)
    requires AllDaysVerify(b) && DigestLength(b.sha256) && RunFaithful(b, ops)
    ensures AllDaysVerify(LedgerBalances.Run(b, ops)) && LedgerBalances.Run(b, ops).sha256 == b.sha256
  {
    if ops != [] {
      var front, op := ops[..|ops| - 1], ops[|ops| - 1];
      RunVerifies(b, front);
      StepVerifies(LedgerBalances.Run(b, front), op);
      StepKeepsColumns(LedgerBalances.Run(b, front), op);
    }
  }

  /** And only then, when no two of the texts hashed collide: one journal written otherwise, and its day
      fails for good. */
  lemma {:induction false} RunVerifiesExactly(b: Books, ops: seq<LedgerBalances.Op>, texts: set<string>)
    requires AllDaysVerify(b) && DigestLength(b.sha256) && NoCollision(b.sha256, texts) && RunHashes(b, ops, texts)
    ensures AllDaysVerify(LedgerBalances.Run(b, ops)) <==> RunFaithful(b, ops)
    ensures LedgerBalances.Run(b, ops).sha256 == b.sha256
  {
    if ops != [] {
      var front, op := ops[..|ops| - 1], ops[|ops| - 1];
      var m := LedgerBalances.Run(b, front);
      RunVerifiesExactly(b, front, texts);
      StepKeepsColumns(m, op);
      StepVerifiesExactly(m, op, texts);
    }
  }

  lemma StepVerifiesExactly(b: Books, op: LedgerBalances.Op, texts: set<string>)
    requires DigestLength(b.sha256) && NoCollision(b.sha256, texts) && StepHashes(b, op, texts)
    ensures AllDaysVerify(LedgerBalances.Step(b, op)) <==> AllDaysVerify(b) && PostsFaithfully(b, op)
  {
    if op.Post? && Posted(b, op.input).Ok? {
      SealHoldsExactly(b, op.input, texts);
      StepDay(b, op, DayFor(b, op.input));
    }
    if AllDaysVerify(LedgerBalances.Step(b, op)) {
      forall day: int
        ensures DayVerifies(b, day)
      {
        assert DayVerifies(LedgerBalances.Step(b, op), day);
        StepDay(b, op, day);
      }
    }
    if AllDaysVerify(b) && PostsFaithfully(b, op) {
      StepVerifies(b, op);
    }
  }

  lemma EmptyVerifies(b: Books)
    requires b.journals == []
    ensures AllDaysVerify(b)
  {
  }

  // ----- what a last hash pins down

  /** Two verified days with the same last hash hold the same payloads in the same order, provided no
      two of the texts hashed collide and none of the hashes is the genesis value. */
  lemma SameEndSamePayloads(h: Hash, dates: DateColumn, a: seq<Journal>, b: seq<Journal>, texts: set<string>)
    requires Chained(h, GENESIS, LinksOf(dates, a)) && Chained(h, GENESIS, LinksOf(dates, b))
    requires EndOf(GENESIS, LinksOf(dates, a)) == EndOf(GENESIS, LinksOf(dates, b))
    requires DigestLength(h) && HashesOnly(h, LinksOf(dates, a), texts) && HashesOnly(h, LinksOf(dates, b), texts)
    requires NoCollision(h, texts) && NeverHashesTo(h, GENESIS, texts)
    ensures |a| == |b| && forall i :: 0 <= i < |a| ==> StoredPayload(dates, a[i]) == StoredPayload(dates, b[i])
  {
    SameEndSameChain(h, GENESIS, LinksOf(dates, a), LinksOf(dates, b), texts);
    forall i | 0 <= i < |a|
      ensures StoredPayload(dates, a[i]) == StoredPayload(dates, b[i])
    {
      assert LinksOf(dates, a)[i] == LinkOf(dates, a[i]) && LinksOf(dates, b)[i] == LinkOf(dates, b[i]);
      var x, y := a[i], b[i];
      TextDeterminesPayload(x.seqNo, x.reason, dates.show(x.operatingDate), x.reference, StoredTexts(x.postings),
                            y.seqNo, y.reason, dates.show(y.operatingDate), y.reference, StoredTexts(y.postings));
    }
  }

  /** And equal payloads have the same postings, account by account and amount by amount. */
  lemma PayloadDeterminesPostings(dates: DateColumn, a: Journal, b: Journal)
    requires StoredPayload(dates, a) == StoredPayload(dates, b)
    requires forall i :: 0 <= i < |a.postings| ==> Ordinary(a.postings[i])
    requires forall i :: 0 <= i < |b.postings| ==> Ordinary(b.postings[i])
    ensures a.postings == b.postings
  {
    var ps, qs := StoredTexts(a.postings), StoredTexts(b.postings);
    assert |LinesOf(ps)| == |LinesOf(qs)|;
    forall i | 0 <= i < |a.postings|
      ensures a.postings[i] == b.postings[i]
    {
      var p, q := a.postings[i], b.postings[i];
      assert LinesOf(ps)[i] == LineOf(ps[i]) && LinesOf(qs)[i] == LineOf(qs[i]);
      assert Ordinary(p) && Ordinary(q);
      CodesDiffer(p.account, q.account);
      PrintInjective(p.amount, q.amount);
      SidesDiffer(p.side, q.side);
    }
  }

  /** A posting as `postJournal` stores it, in its account's own currency. */
  ghost predicate Ordinary(p: Posting) {
    !p.side.UnknownSide? && Plain(p.account) && p.account.currency == p.currency
  }

  lemma SidesDiffer(a: Side, b: Side)
    requires !a.UnknownSide? && !b.UnknownSide? && SideText(a) == SideText(b)
    ensures a == b
  {
    assert SideText(a)[0] == SideText(b)[0];
  }
}
