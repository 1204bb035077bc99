/** Two more hash chains: the audit log's, one for each day (modules/audit/service.js), and the
    evidence chain of a dispute case (modules/disputes/evidence-service.js). */
module AuditTrail {
  import opened Text
  import opened HashChain
  import J = CanonicalJson

  // ----- the audit log

  const AUDIT_GENESIS := "GENESIS"

  /** `day` is what the DATE column holds. */
  datatype Event = Event(day: int, eventType: string, payload: J.Json, prevHash: string, hash: string)

  /** `canonicalStringify`: a payload that is a string stands for itself. */
  function PayloadText(payload: J.Json): string {
    if payload.Str? then payload.s else J.CanonicalText(payload)
  }

  function DayEvents(events: seq<Event>, day: int): seq<Event> {
    if events == [] then []
    else
      var front, last := events[..|events| - 1], events[|events| - 1];
      if last.day == day then DayEvents(front, day) + [last] else DayEvents(front, day)
  }

  function EventLinks(day: seq<Event>): (links: seq<Link>)
    ensures |links| == |day|
  {
    seq(|day|, i requires 0 <= i < |day| => LinkOf(day[i]))
  }

  function LastHash(events: seq<Event>, day: int): string {
    var today := DayEvents(events, day);
    if today == [] || today[|today| - 1].hash == "" then AUDIT_GENESIS else today[|today| - 1].hash
  }

  /** The row that recording a payload adds; the column may hold its members in another order. */
  function Recorded(h: Hash, events: seq<Event>, day: int, eventType: string, payload: J.Json, stored: J.Json):
      seq<Event> {
    var prev := LastHash(events, day);
    events + [Event(day, eventType, stored, prev, ChainHash(h, prev, PayloadText(payload)))]
  }

  /** `payload ?? {}` */
  function PayloadOr(payload: Option<J.Json>): J.Json {
    match payload case Some(v) => v case None => J.Obj([])
  }

  class AuditLog {
    const sha256: Hash
    /** The day that the DATE column reads in a text, if any. */
    const readDay: string -> Option<int>
    var events: seq<Event>

    constructor (sha256: Hash, readDay: string -> Option<int>)
      ensures this.sha256 == sha256 && this.readDay == readDay && events == []
    {
      this.sha256, this.readDay := sha256, readDay;
      events := [];
    }

    /** `recordOnClient`; `stored` is the payload as the JSONB column gives it back. The database refuses a
        text that is no day. */
    method Record(day: string, eventType: string, payload: Option<J.Json>, stored: J.Json) returns (ok: bool)
      modifies this`events
      ensures ok == readDay(day).Some?
      ensures events
        == if ok then
             Recorded(sha256, old(events), readDay(day).value, eventType, PayloadOr(payload), stored)
           else old(events)
    {
      var read := readDay(day);
      if read.None? {
        return false;
      }
      var prev := LastHash(events, read.value);
      var hashed := PayloadOr(payload);
      events := events + [Event(read.value, eventType, stored, prev, ChainHash(sha256, prev, PayloadText(hashed)))];
      return true;
    }

    /** `verifyDay`: no answer when the database cannot read the day. */
    method VerifyDay(day: string) returns (v: Option<Verdict>)
      ensures v == match readDay(day)
                   case Some(d) => Some(VerifyFrom(sha256, EventLinks(DayEvents(events, d)), 0, AUDIT_GENESIS))
                   case None => None
    {
      var read := readDay(day);
      if read.None? {
        return None;
      }
      var verdict := VerifyChain(sha256, AUDIT_GENESIS, EventLinks(DayEvents(events, read.value)));
      return Some(verdict);
    }
  }

  ghost predicate DayVerifies(h: Hash, events: seq<Event>, day: int) {
    Chained(h, AUDIT_GENESIS, EventLinks(DayEvents(events, day)))
  }

  /** What the column may do to a payload: reorder members, nothing else. */
  ghost predicate StoredAs(payload: J.Json, stored: J.Json) {
    J.WellFormed(payload) && J.WellFormed(stored) && J.TreeOf(payload) == J.TreeOf(stored)
  }

  lemma StoredText(payload: J.Json, stored: J.Json)
    requires StoredAs(payload, stored)
    ensures PayloadText(stored) == PayloadText(payload)
  {
    J.CanonicalTextIdentifies(payload, stored);
  }

  /** Recording keeps every day verified, however the column orders the members of the payload. */
  lemma RecordKeepsDays(h: Hash, events: seq<Event>, day: int, eventType: string, payload: J.Json, stored: J.Json,
      other: int)
    requires StoredAs(payload, stored) && (forall x :: |h(x)| == 64)
    requires DayVerifies(h, events, day) && DayVerifies(h, events, other)
    ensures DayVerifies(h, Recorded(h, events, day, eventType, payload, stored), other)
  {
    var prev := LastHash(events, day);
    var e := Event(day, eventType, stored, prev, ChainHash(h, prev, PayloadText(payload)));
    StoredText(payload, stored);
    EventAdded(events, e, other);
    if day == other {
      LinkAppended(DayEvents(events, day), e);
      LastLink(h, EventLinks(DayEvents(events, day)), LinkOf(e));
    }
  }

  lemma EventAdded(events: seq<Event>, e: Event, day: int)
    ensures DayEvents(events + [e], day) == DayEvents(events, day) + if e.day == day then [e] else []
  {
    var more := events + [e];
    assert more[..|more| - 1] == events;
  }

  lemma LastLink(h: Hash, links: seq<Link>, last: Link)
    requires Chained(h, AUDIT_GENESIS, links)
    requires last.prev == EndOf(AUDIT_GENESIS, links) && last.hash == ChainHash(h, last.prev, last.text)
    ensures Chained(h, AUDIT_GENESIS, links + [last])
  {
    var all := links + [last];
    assert all[..|all| - 1] == links;
  }

  /** One call of `record`, and the payload as its column gives it back. */
  datatype Recording = Recording(day: int, eventType: string, payload: J.Json, stored: J.Json)

  /** The log after these calls, from the empty log. */
  function LogOf(h: Hash, calls: seq<Recording>): seq<Event> {
    if calls == [] then []
    else
      var last := calls[|calls| - 1];
      Recorded(h, LogOf(h, calls[..|calls| - 1]), last.day, last.eventType, last.payload, last.stored)
  }

  lemma {:induction false} LogChained(h: Hash, calls: seq<Recording>, day: int)
    requires (forall x :: |h(x)| == 64) && forall i :: 0 <= i < |calls| ==> StoredAs(calls[i].payload, calls[i].stored)
    ensures DayVerifies(h, LogOf(h, calls), day)
  {
    if calls != [] {
      var front, last := calls[..|calls| - 1], calls[|calls| - 1];
      LogChained(h, front, last.day);
      LogChained(h, front, day);
      RecordKeepsDays(h, LogOf(h, front), last.day, last.eventType, last.payload, last.stored, day);
    }
  }

  /** Whatever was recorded, on whatever days in whatever order, `verifyDay` accepts every day and counts
      all its events. */
  lemma LogVerifies(h: Hash, calls: seq<Recording>, day: int)
    requires (forall x :: |h(x)| == 64) && forall i :: 0 <= i < |calls| ==> StoredAs(calls[i].payload, calls[i].stored)
    ensures var today := DayEvents(LogOf(h, calls), day);
      VerifyFrom(h, EventLinks(today), 0, AUDIT_GENESIS) == Verified(|today|)
  {
    LogChained(h, calls, day);
    ChainedVerifies(h, AUDIT_GENESIS, EventLinks(DayEvents(LogOf(h, calls), day)));
  }

  function LinkOf(e: Event): Link {
    Link(e.prevHash, PayloadText(e.payload), e.hash)
  }

  lemma LinkAppended(day: seq<Event>, e: Event)
    ensures EventLinks(day + [e]) == EventLinks(day) + [LinkOf(e)]
  {
  }

  /** Two verified days with the same last hash hold payloads with the same texts. No payload hash can be
      the genesis text, which is shorter than a digest. */
  lemma SameEndSamePayloads(h: Hash, a: seq<Event>, b: seq<Event>, texts: set<string>)
    requires Chained(h, AUDIT_GENESIS, EventLinks(a)) && Chained(h, AUDIT_GENESIS, EventLinks(b))
    requires EndOf(AUDIT_GENESIS, EventLinks(a)) == EndOf(AUDIT_GENESIS, EventLinks(b))
    requires (forall x :: |h(x)| == 64) && NoCollision(h, texts)
    requires HashesOnly(h, EventLinks(a), texts) && HashesOnly(h, EventLinks(b), texts)
    ensures |a| == |b| && forall i :: 0 <= i < |a| ==> PayloadText(a[i].payload) == PayloadText(b[i].payload)
  {
    SameEndSameChain(h, AUDIT_GENESIS, EventLinks(a), EventLinks(b), texts);
    forall i | 0 <= i < |a|
      ensures PayloadText(a[i].payload) == PayloadText(b[i].payload)
    {
      assert EventLinks(a)[i].text == EventLinks(b)[i].text;
    }
  }

  /** Equal payload texts mean equal payloads, except that a string can spell out another value's text. */
  lemma TextIdentifiesPayload(v: J.Json, w: J.Json)
    requires J.WellFormed(v) && J.WellFormed(w) && !v.Str? && !w.Str?
    ensures PayloadText(v) == PayloadText(w) <==> J.TreeOf(v) == J.TreeOf(w)
  {
    J.CanonicalTextIdentifies(v, w);
  }

  /** The hash of the day's last event among the first i, or the word GENESIS. */
  function HashBefore(events: seq<Event>, i: nat, day: int): string
    requires i <= |events|
  {
    if i == 0 then "GENESIS"
    else if events[i - 1].day == day then (if events[i - 1].hash == "" then "GENESIS" else events[i - 1].hash)
    else HashBefore(events, i - 1, day)
  }

  lemma {:induction false} HashBeforeIs(events: seq<Event>, i: nat, day: int)
    requires i <= |events|
    ensures HashBefore(events, i, day) == LastHash(events[..i], day)
  {
    if i > 0 {
      assert events[..i][..i - 1] == events[..i - 1];
      HashBeforeIs(events, i - 1, day);
    }
  }

  /** Recording adds one event and changes none: its hash is taken over the day's last one and the hash of the
      payload's text, which is the payload itself if that is a string. */
  lemma EventWritten(h: Hash, events: seq<Event>, day: int, eventType: string, payload: J.Json, stored: J.Json)
    ensures var after := Recorded(h, events, day, eventType, payload, stored);
      && |after| == |events| + 1 && events <= after
      && var e := after[|events|];
         && (e.day, e.eventType, e.payload) == (day, eventType, stored)
         && e.prevHash == HashBefore(events, |events|, day)
         && e.hash == h(e.prevHash + h(match payload case Str(s) => s case _ => J.CanonicalText(payload)))
  {
    HashBeforeIs(events, |events|, day);
    assert events[..|events|] == events;
  }

  // ----- the evidence chain of a case

  const EVIDENCE_GENESIS := ""

  /** `insertedAt` is the column uploaded_at, the time of the transaction; the time that is hashed is the
      service's own, in `railTimestamp`. */
  datatype Evidence = Evidence(
    id: nat, insertedAt: int, contentSha256: string, side: string, evidenceType: string, railTimestamp: string,
    uploadedBy: Option<string>, prevHash: string, chainHash: string)

  /** The metadata an evidence row is hashed over. */
  function MetadataJson(caseId: string, e: Evidence): J.Json {
    J.Obj([
      J.Entry("caseId", J.Str(caseId)),
      J.Entry("contentSha256", J.Str(e.contentSha256)),
      J.Entry("side", J.Str(e.side)),
      J.Entry("evidenceType", J.Str(e.evidenceType)),
      J.Entry("uploadedAt", J.Str(e.railTimestamp)),
      J.Entry("uploadedByParticipant", match e.uploadedBy case None => J.Null case Some(p) => J.Str(p))])
  }

  function EvidenceLinks(caseId: string, rows: seq<Evidence>): (links: seq<Link>)
    ensures |links| == |rows|
  {
    seq(|rows|, i requires 0 <= i < |rows| =>
      Link(rows[i].prevHash, J.CanonicalText(MetadataJson(caseId, rows[i])), rows[i].chainHash))
  }

  predicate Newer(e: Evidence, f: Evidence) {
    e.insertedAt > f.insertedAt || (e.insertedAt == f.insertedAt && e.id > f.id)
  }

  /** `lastForCase`: the row with the latest time, and of those the greatest id. */
  function Latest(rows: seq<Evidence>): (e: Evidence)
    requires rows != []
    ensures e in rows && forall i :: 0 <= i < |rows| ==> !Newer(rows[i], e)
  {
    var last := rows[|rows| - 1];
    if |rows| == 1 then last
    else
      var e := Latest(rows[..|rows| - 1]);
      if Newer(e, last) then e else last
  }

  /** No row is later than the one a new upload is linked to, and of those as late none has a greater id. */
  lemma LatestExactly(rows: seq<Evidence>, e: Evidence)
    requires rows != [] && e in rows
    ensures e.insertedAt < Latest(rows).insertedAt
      || (e.insertedAt == Latest(rows).insertedAt && e.id <= Latest(rows).id)
  {
    var i :| 0 <= i < |rows| && rows[i] == e;
    assert !Newer(rows[i], Latest(rows));
  }

  function Linked(h: Hash, caseId: string, prev: string, e: Evidence): (l: Evidence)
    ensures l == e.(prevHash := prev, chainHash := l.chainHash)
  {
    e.(prevHash := prev, chainHash := ChainHash(h, prev, J.CanonicalText(MetadataJson(caseId, e))))
  }

  function LatestHash(rows: seq<Evidence>): string {
    if rows == [] then EVIDENCE_GENESIS else Latest(rows).chainHash
  }

  /** The rows after an upload: the new one is linked to the latest. */
  function Uploaded(h: Hash, caseId: string, rows: seq<Evidence>, e: Evidence): seq<Evidence> {
    rows + [Linked(h, caseId, LatestHash(rows), e)]
  }

  /** The members of the metadata in the order of their keys. */
  function SortedMetadata(caseId: string, e: Evidence): seq<J.Entry> {
    [J.Entry("caseId", J.Str(caseId)),
     J.Entry("contentSha256", J.Str(e.contentSha256)),
     J.Entry("evidenceType", J.Str(e.evidenceType)),
     J.Entry("side", J.Str(e.side)),
     J.Entry("uploadedAt", J.Str(e.railTimestamp)),
     J.Entry("uploadedByParticipant", match e.uploadedBy case None => J.Null case Some(p) => J.Str(p))]
  }

  lemma FirstKeysInOrder()
    ensures J.KeyBefore("caseId", "contentSha256") && J.KeyBefore("contentSha256", "evidenceType")
    ensures J.KeyBefore("evidenceType", "side")
  {
    J.LetterBefore("caseId", "contentSha256", 1);
    J.LetterBefore("contentSha256", "evidenceType", 0);
    J.LetterBefore("evidenceType", "side", 0);
  }

  lemma LastKeysInOrder()
    ensures J.KeyBefore("side", "uploadedAt") && J.KeyBefore("uploadedAt", "uploadedByParticipant")
  {
    J.LetterBefore("side", "uploadedAt", 0);
    J.LetterBefore("uploadedAt", "uploadedByParticipant", 8);
  }

  lemma MetadataSorted(caseId: string, e: Evidence)
    ensures J.SortedBy(SortedMetadata(caseId, e), J.KeyBefore)
  {
    FirstKeysInOrder();
    LastKeysInOrder();
    J.SixSorted(SortedMetadata(caseId, e));
  }

  lemma MetadataMembers(caseId: string, e: Evidence)
    ensures forall x :: x in MetadataJson(caseId, e).entries <==> x in SortedMetadata(caseId, e)
  {
  }

  lemma MetadataPlain(caseId: string, e: Evidence, i: nat)
    requires i < 6
    ensures var m := SortedMetadata(caseId, e)[i]; J.IsPlain(m.key) && m.key != J.PROTO && J.IsCanonical(m.value)
  {
    var m := SortedMetadata(caseId, e)[i];
    assert m.key[0] != '_';
  }

  lemma MetadataSpelled(caseId: string, e: Evidence)
    ensures J.SpellingsOf(SortedMetadata(caseId, e)) == [
      J.Spelling("caseId", J.Quote(caseId)), J.Spelling("contentSha256", J.Quote(e.contentSha256)),
      J.Spelling("evidenceType", J.Quote(e.evidenceType)), J.Spelling("side", J.Quote(e.side)),
      J.Spelling("uploadedAt", J.Quote(e.railTimestamp)),
      J.Spelling("uploadedByParticipant", match e.uploadedBy case None => "null" case Some(p) => J.Quote(p))]
  {
  }

  /** The text an evidence row is hashed over: these members, in this order, and nothing else. */
  lemma MetadataText(caseId: string, e: Evidence)
    ensures J.CanonicalText(MetadataJson(caseId, e)) == J.ObjectOf([
      J.Spelling("caseId", J.Quote(caseId)), J.Spelling("contentSha256", J.Quote(e.contentSha256)),
      J.Spelling("evidenceType", J.Quote(e.evidenceType)), J.Spelling("side", J.Quote(e.side)),
      J.Spelling("uploadedAt", J.Quote(e.railTimestamp)),
      J.Spelling("uploadedByParticipant", match e.uploadedBy case None => "null" case Some(p) => J.Quote(p))])
  {
    var fs := SortedMetadata(caseId, e);
    MetadataKeys(caseId, e);
    MetadataSorted(caseId, e);
    MetadataMembers(caseId, e);
    forall i: nat | i < |fs|
      ensures J.IsPlain(fs[i].key) && fs[i].key != J.PROTO && J.IsCanonical(fs[i].value)
    {
      MetadataPlain(caseId, e, i);
    }
    J.ObjectText(MetadataJson(caseId, e).entries, fs);
    J.ObjectSpelled(fs);
    MetadataSpelled(caseId, e);
  }

  datatype EvidenceVerdict = Intact(count: nat) | BrokenAt(index: nat)

  /** `verifyChain`: both conditions of a row are tested together. */
  method VerifyEvidence(h: Hash, caseId: string, rows: seq<Evidence>) returns (v: EvidenceVerdict)
    ensures v == match VerifyFrom(h, EvidenceLinks(caseId, rows), 0, EVIDENCE_GENESIS)
                 case Verified(n) => Intact(n)
                 case Broken(i, _) => BrokenAt(i)
  {
    var prev := EVIDENCE_GENESIS;
    ghost var links := EvidenceLinks(caseId, rows);
    var i := 0;
    while i < |rows|
      invariant 0 <= i <= |rows|
      invariant VerifyFrom(h, links, 0, EVIDENCE_GENESIS) == VerifyFrom(h, links, i, prev)
    {
      var expected := ChainHash(h, prev, J.CanonicalText(MetadataJson(caseId, rows[i])));
      if rows[i].chainHash != expected || rows[i].prevHash != prev {
        return BrokenAt(i);
      }
      prev := rows[i].chainHash;
      i := i + 1;
    }
    return Intact(|rows|);
  }

  /** Each row was inserted later than those before it. */
  ghost predicate InOrder(rows: seq<Evidence>) {
    forall i, j :: 0 <= i < j < |rows| ==> rows[i].insertedAt < rows[j].insertedAt
  }

  ghost predicate Ascending(rows: seq<Evidence>) {
    forall i, j :: 0 <= i < j < |rows| ==> rows[i].insertedAt <= rows[j].insertedAt
  }

  /** What `listForCase` may return: it sorts by uploaded_at alone. */
  ghost predicate Listing(rows: seq<Evidence>, listed: seq<Evidence>) {
    multiset(listed) == multiset(rows) && Ascending(listed)
  }

  /** Uploading keeps the chain of a case verified, if the new row is the latest. */
  lemma UploadKeepsChain(h: Hash, caseId: string, rows: seq<Evidence>, e: Evidence)
    requires Chained(h, EVIDENCE_GENESIS, EvidenceLinks(caseId, rows)) && InOrder(rows)
    ensures Chained(h, EVIDENCE_GENESIS, EvidenceLinks(caseId, Uploaded(h, caseId, rows, e)))
  {
    var links, more := EvidenceLinks(caseId, rows), Uploaded(h, caseId, rows, e);
    var all := EvidenceLinks(caseId, more);
    var last := more[|more| - 1];
    LatestIsLast(rows);
    assert last == Linked(h, caseId, EndOf(EVIDENCE_GENESIS, links), e);
    assert MetadataJson(caseId, last) == MetadataJson(caseId, e);
    assert all[..|all| - 1] == links;
  }

  lemma LatestIsLast(rows: seq<Evidence>)
    requires InOrder(rows)
    ensures rows != [] ==> Latest(rows) == rows[|rows| - 1]
    ensures LatestHash(rows) == if rows == [] then EVIDENCE_GENESIS else rows[|rows| - 1].chainHash
  {
    if rows != [] {
      var e, n := Latest(rows), |rows| - 1;
      var i :| 0 <= i < |rows| && rows[i] == e;
      assert !Newer(rows[n], e);
    }
  }

  /** The rows of a case after these uploads. */
  function RowsOf(h: Hash, caseId: string, uploads: seq<Evidence>): seq<Evidence> {
    if uploads == [] then []
    else Uploaded(h, caseId, RowsOf(h, caseId, uploads[..|uploads| - 1]), uploads[|uploads| - 1])
  }

  ghost predicate SameTimes(rows: seq<Evidence>, uploads: seq<Evidence>) {
    |rows| == |uploads| && forall i :: 0 <= i < |rows| ==> rows[i].insertedAt == uploads[i].insertedAt
  }

  lemma SameTimesAppend(rows: seq<Evidence>, uploads: seq<Evidence>, row: Evidence)
    requires uploads != [] && SameTimes(rows, uploads[..|uploads| - 1])
    requires row.insertedAt == uploads[|uploads| - 1].insertedAt
    ensures SameTimes(rows + [row], uploads)
  {
    var n, more := |rows|, rows + [row];
    forall i | 0 <= i < |more|
      ensures more[i].insertedAt == uploads[i].insertedAt
    {
      if i < n {
        assert more[i] == rows[i] && uploads[i] == uploads[..n][i];
      }
    }
  }

  lemma {:induction false} RowsKeepTimes(h: Hash, caseId: string, uploads: seq<Evidence>)
    ensures SameTimes(RowsOf(h, caseId, uploads), uploads)
  {
    if uploads != [] {
      var n := |uploads| - 1;
      var rows := RowsOf(h, caseId, uploads[..n]);
      RowsKeepTimes(h, caseId, uploads[..n]);
      SameTimesAppend(rows, uploads, Linked(h, caseId, LatestHash(rows), uploads[n]));
    }
  }

  lemma RowsOfFront(h: Hash, caseId: string, uploads: seq<Evidence>)
    requires uploads != []
    ensures var front, rows := RowsOf(h, caseId, uploads[..|uploads| - 1]), RowsOf(h, caseId, uploads);
      |rows| == |front| + 1 && rows[..|front|] == front
  {
  }

  lemma PrefixOfPrefix<T>(all: seq<T>, m: nat, n: nat)
    requires n <= m <= |all|
    ensures all[..m][..n] == all[..n]
  {
  }

  lemma {:induction false} RowsOfPrefix(h: Hash, caseId: string, uploads: seq<Evidence>, n: nat)
    requires n <= |uploads|
    ensures |RowsOf(h, caseId, uploads)| == |uploads|
    ensures RowsOf(h, caseId, uploads[..n]) == RowsOf(h, caseId, uploads)[..n]
    decreases |uploads|, 1
  {
    RowsKeepTimes(h, caseId, uploads);
    if n == |uploads| {
      assert uploads[..n] == uploads;
    } else {
      ShorterPrefix(h, caseId, uploads, |uploads| - 1, n);
    }
  }

  lemma ShorterPrefix(h: Hash, caseId: string, uploads: seq<Evidence>, m: nat, n: nat)
    requires n <= m && m + 1 == |uploads| && |RowsOf(h, caseId, uploads)| == |uploads|
    ensures RowsOf(h, caseId, uploads[..n]) == RowsOf(h, caseId, uploads)[..n]
    decreases |uploads|, 0
  {
    var front, all := RowsOf(h, caseId, uploads[..m]), RowsOf(h, caseId, uploads);
    RowsOfPrefix(h, caseId, uploads[..m], n);
    RowsOfFront(h, caseId, uploads);
    PrefixOfPrefix(uploads, m, n);
    PrefixOfPrefix(all, m, n);
  }

  lemma {:induction false} RowsChained(h: Hash, caseId: string, uploads: seq<Evidence>)
    requires InOrder(uploads)
    ensures Chained(h, EVIDENCE_GENESIS, EvidenceLinks(caseId, RowsOf(h, caseId, uploads)))
  {
    if uploads != [] {
      var front := uploads[..|uploads| - 1];
      RowsChained(h, caseId, front);
      RowsKeepTimes(h, caseId, front);
      UploadKeepsChain(h, caseId, RowsOf(h, caseId, front), uploads[|uploads| - 1]);
    }
  }

  /** Rows with increasing times can be listed in one order only. */
  lemma {:induction false} ListedAsWritten(rows: seq<Evidence>, listed: seq<Evidence>)
    requires InOrder(rows) && Listing(rows, listed)
    ensures listed == rows
  {
    SameLength(rows, listed);
    if rows != [] {
      var n := |rows| - 1;
      SameLast(rows, listed);
      SameWithoutLast(rows, listed);
      ListedAsWritten(rows[..n], listed[..n]);
      assert rows == rows[..n] + [rows[n]] && listed == listed[..n] + [listed[n]];
    }
  }

  lemma SameLength<T>(a: seq<T>, b: seq<T>)
    requires multiset(a) == multiset(b)
    ensures |a| == |b|
  {
    assert |multiset(a)| == |multiset(b)|;
  }

  lemma WithoutLast<T>(a: seq<T>)
    requires a != []
    ensures multiset(a[..|a| - 1]) == multiset(a) - multiset{a[|a| - 1]}
  {
    assert a == a[..|a| - 1] + [a[|a| - 1]];
  }

  lemma SameWithoutLast<T>(a: seq<T>, b: seq<T>)
    requires a != [] && b != [] && multiset(a) == multiset(b) && a[|a| - 1] == b[|b| - 1]
    ensures multiset(a[..|a| - 1]) == multiset(b[..|b| - 1])
  {
    WithoutLast(a);
    WithoutLast(b);
  }

  lemma SameLast(rows: seq<Evidence>, listed: seq<Evidence>)
    requires InOrder(rows) && Listing(rows, listed) && rows != [] && |listed| == |rows|
    ensures rows[|rows| - 1] == listed[|listed| - 1]
  {
    var n := |rows| - 1;
    var last := rows[n];
    assert last in multiset(rows) && last in multiset(listed);
    var k :| 0 <= k < |listed| && listed[k] == last;
    assert listed[n] in multiset(listed) && listed[n] in multiset(rows);
    var j :| 0 <= j < |rows| && rows[j] == listed[n];
  }

  /** Verification accepts the rows, however they are listed, and counts every one. */
  ghost predicate AcceptedAsListed(h: Hash, caseId: string, rows: seq<Evidence>) {
    forall listed :: Listing(rows, listed) ==>
      VerifyFrom(h, EvidenceLinks(caseId, listed), 0, EVIDENCE_GENESIS) == Verified(|rows|)
  }

  ghost predicate AlwaysAccepted(h: Hash, caseId: string, uploads: seq<Evidence>) {
    forall n :: 0 <= n <= |uploads| ==> AcceptedAsListed(h, caseId, RowsOf(h, caseId, uploads[..n]))
  }

  lemma InOrderAccepted(h: Hash, caseId: string, uploads: seq<Evidence>)
    requires InOrder(uploads)
    ensures AcceptedAsListed(h, caseId, RowsOf(h, caseId, uploads))
  {
    var rows := RowsOf(h, caseId, uploads);
    RowsKeepTimes(h, caseId, uploads);
    RowsChained(h, caseId, uploads);
    ChainedVerifies(h, EVIDENCE_GENESIS, EvidenceLinks(caseId, rows));
    forall listed | Listing(rows, listed)
      ensures listed == rows
    {
      ListedAsWritten(rows, listed);
    }
  }

  /** With increasing times, verification accepts the case's rows after every upload. */
  lemma UploadsVerify(h: Hash, caseId: string, uploads: seq<Evidence>)
    requires InOrder(uploads)
    ensures AlwaysAccepted(h, caseId, uploads)
  {
    forall n | 0 <= n <= |uploads|
      ensures AcceptedAsListed(h, caseId, RowsOf(h, caseId, uploads[..n]))
    {
      InOrderAccepted(h, caseId, uploads[..n]);
    }
  }

  /** The first upload that is not later than the one before. */
  lemma {:induction false} FirstDisorder(uploads: seq<Evidence>) returns (n: nat)
    requires !InOrder(uploads)
    ensures 0 < n < |uploads| && InOrder(uploads[..n]) && uploads[n].insertedAt <= uploads[n - 1].insertedAt
  {
    var front := uploads[..|uploads| - 1];
    if InOrder(front) {
      n := |uploads| - 1;
      var i, j :| 0 <= i < j < |uploads| && uploads[i].insertedAt >= uploads[j].insertedAt;
      assert j == n && (i < n - 1 ==> front[i].insertedAt < front[n - 1].insertedAt);
    } else {
      n := FirstDisorder(front);
      assert front[..n] == uploads[..n];
    }
  }

  lemma InsertedSame(rows: seq<Evidence>, e: Evidence, k: nat)
    requires k <= |rows|
    ensures multiset(rows[..k] + [e] + rows[k..]) == multiset(rows + [e])
  {
    assert rows == rows[..k] + rows[k..];
  }

  lemma InsertedAscending(rows: seq<Evidence>, e: Evidence, k: nat)
    requires InOrder(rows) && k < |rows| && e.insertedAt <= rows[k].insertedAt
    requires k > 0 ==> rows[k - 1].insertedAt < e.insertedAt
    ensures Ascending(rows[..k] + [e] + rows[k..])
  {
    var listed := rows[..k] + [e] + rows[k..];
    forall i, j | 0 <= i < j < |listed|
      ensures listed[i].insertedAt <= listed[j].insertedAt
    {
      assert listed[i] == if i < k then rows[i] else if i == k then e else rows[i - 1];
      assert listed[j] == if j < k then rows[j] else if j == k then e else rows[j - 1];
    }
  }

  /** A row no later than the last can be listed before it. */
  lemma ListedEarly(rows: seq<Evidence>, e: Evidence) returns (k: nat)
    requires rows != [] && InOrder(rows) && e.insertedAt <= rows[|rows| - 1].insertedAt
    ensures k < |rows| && Listing(rows + [e], rows[..k] + [e] + rows[k..])
  {
    k := |rows| - 1;
    while k > 0 && e.insertedAt <= rows[k - 1].insertedAt
      invariant k < |rows| && e.insertedAt <= rows[k].insertedAt
    {
      k := k - 1;
    }
    InsertedSame(rows, e, k);
    InsertedAscending(rows, e, k);
  }

  lemma {:induction false} PrefixHashes(h: Hash, links: seq<Link>, n: nat, texts: set<string>)
    requires n <= |links| && HashesOnly(h, links, texts)
    ensures HashesOnly(h, links[..n], texts)
    decreases |links|
  {
    if n == |links| {
      assert links[..n] == links;
    } else {
      PrefixHashes(h, links[..|links| - 1], n, texts);
      assert links[..|links| - 1][..n] == links[..n];
    }
  }

  /** A row that is linked to the last one is not accepted in an earlier place. */
  lemma EarlyRejected(h: Hash, caseId: string, rows: seq<Evidence>, e: Evidence, k: nat, texts: set<string>)
    requires k < |rows| && e.prevHash == rows[|rows| - 1].chainHash
    requires Chained(h, EVIDENCE_GENESIS, EvidenceLinks(caseId, rows))
    requires (forall x :: |h(x)| == 64) && NoCollision(h, texts) && HashesOnly(h, EvidenceLinks(caseId, rows), texts)
    ensures !VerifyFrom(h, EvidenceLinks(caseId, rows[..k] + [e] + rows[k..]), 0, EVIDENCE_GENESIS).Verified?
  {
    var links, listed := EvidenceLinks(caseId, rows), EvidenceLinks(caseId, rows[..k] + [e] + rows[k..]);
    assert listed[..k] == links[..k];
    assert listed[..0] == [];
    VerifyExactFrom(h, EVIDENCE_GENESIS, listed, 0);
    if Chained(h, EVIDENCE_GENESIS, listed) {
      PrefixChained(h, EVIDENCE_GENESIS, listed, k + 1);
      assert listed[..k + 1][..k] == listed[..k] && listed[k].prev == e.prevHash;
      PrefixChained(h, EVIDENCE_GENESIS, links, k);
      PrefixHashes(h, links, k, texts);
      SameEndSameChain(h, EVIDENCE_GENESIS, links[..k], links, texts);
      assert false;
    }
  }

  /** Verification accepts a case's rows after every upload, however they are listed, exactly when every
      upload has a later time than the one before. */
  lemma UploadsVerifyExactly(h: Hash, caseId: string, uploads: seq<Evidence>, texts: set<string>)
    requires (forall x :: |h(x)| == 64) && NoCollision(h, texts)
    requires HashesOnly(h, EvidenceLinks(caseId, RowsOf(h, caseId, uploads)), texts)
    ensures AlwaysAccepted(h, caseId, uploads) <==> InOrder(uploads)
  {
    if InOrder(uploads) {
      UploadsVerify(h, caseId, uploads);
    } else {
      var n := FirstDisorder(uploads);
      DisorderRejected(h, caseId, uploads, n, texts);
    }
  }

  lemma DisorderRejected(h: Hash, caseId: string, uploads: seq<Evidence>, n: nat, texts: set<string>)
    requires (forall x :: |h(x)| == 64) && NoCollision(h, texts)
    requires HashesOnly(h, EvidenceLinks(caseId, RowsOf(h, caseId, uploads)), texts)
    requires 0 < n < |uploads| && InOrder(uploads[..n]) && uploads[n].insertedAt <= uploads[n - 1].insertedAt
    ensures !AcceptedAsListed(h, caseId, RowsOf(h, caseId, uploads[..n + 1]))
  {
    var rows := RowsOf(h, caseId, uploads[..n]);
    RowsKeepTimes(h, caseId, uploads[..n]);
    RowsChained(h, caseId, uploads[..n]);
    var e := LateRow(h, caseId, uploads, n);
    PrefixLinks(h, caseId, uploads, n, texts);
    LateRowRejected(h, caseId, rows, e, texts);
  }

  /** A row linked to the last one but no later than it: one of the listings is not accepted. */
  lemma LateRowRejected(h: Hash, caseId: string, rows: seq<Evidence>, e: Evidence, texts: set<string>)
    requires rows != [] && InOrder(rows) && e.insertedAt <= rows[|rows| - 1].insertedAt
    requires e.prevHash == LatestHash(rows) && Chained(h, EVIDENCE_GENESIS, EvidenceLinks(caseId, rows))
    requires (forall x :: |h(x)| == 64) && NoCollision(h, texts) && HashesOnly(h, EvidenceLinks(caseId, rows), texts)
    ensures !AcceptedAsListed(h, caseId, rows + [e])
  {
    LatestIsLast(rows);
    var k := ListedEarly(rows, e);
    EarlyRejected(h, caseId, rows, e, k, texts);
    OneListingEnough(h, caseId, rows + [e], rows[..k] + [e] + rows[k..]);
  }

  lemma OneListingEnough(h: Hash, caseId: string, rows: seq<Evidence>, listed: seq<Evidence>)
    requires Listing(rows, listed)
    requires !VerifyFrom(h, EvidenceLinks(caseId, listed), 0, EVIDENCE_GENESIS).Verified?
    ensures !AcceptedAsListed(h, caseId, rows)
  {
  }

  lemma LateRow(h: Hash, caseId: string, uploads: seq<Evidence>, n: nat) returns (e: Evidence)
    requires n < |uploads|
    ensures var rows := RowsOf(h, caseId, uploads[..n]);
      && RowsOf(h, caseId, uploads[..n + 1]) == rows + [e]
      && e.prevHash == LatestHash(rows) && e.insertedAt == uploads[n].insertedAt
  {
    var rows := RowsOf(h, caseId, uploads[..n]);
    assert uploads[..n + 1][..n] == uploads[..n];
    e := Linked(h, caseId, LatestHash(rows), uploads[n]);
  }

  lemma LinksOfPrefix(caseId: string, rows: seq<Evidence>, n: nat)
    requires n <= |rows|
    ensures EvidenceLinks(caseId, rows[..n]) == EvidenceLinks(caseId, rows)[..n]
  {
  }

  lemma PrefixLinks(h: Hash, caseId: string, uploads: seq<Evidence>, n: nat, texts: set<string>)
    requires n <= |uploads| && HashesOnly(h, EvidenceLinks(caseId, RowsOf(h, caseId, uploads)), texts)
    ensures HashesOnly(h, EvidenceLinks(caseId, RowsOf(h, caseId, uploads[..n])), texts)
  {
    var rows := RowsOf(h, caseId, uploads);
    RowsOfPrefix(h, caseId, uploads, n);
    LinksOfPrefix(caseId, rows, n);
    PrefixHashes(h, EvidenceLinks(caseId, rows), n, texts);
  }

  /** The rows differ at most in their ids and in the column uploaded_at, which are not hashed. */
  predicate SameHashed(e: Evidence, f: Evidence) {
    e == f.(id := e.id, insertedAt := e.insertedAt)
  }

  /** Two verified chains of a case with the same last hash agree on everything hashed. */
  lemma SameEndSameEvidence(h: Hash, caseId: string, a: seq<Evidence>, b: seq<Evidence>, texts: set<string>)
    requires Chained(h, EVIDENCE_GENESIS, EvidenceLinks(caseId, a))
    requires Chained(h, EVIDENCE_GENESIS, EvidenceLinks(caseId, b))
    requires EndOf(EVIDENCE_GENESIS, EvidenceLinks(caseId, a)) == EndOf(EVIDENCE_GENESIS, EvidenceLinks(caseId, b))
    requires (forall x :: |h(x)| == 64) && NoCollision(h, texts)
    requires HashesOnly(h, EvidenceLinks(caseId, a), texts) && HashesOnly(h, EvidenceLinks(caseId, b), texts)
    ensures |a| == |b| && forall i :: 0 <= i < |a| ==> SameHashed(a[i], b[i])
  {
    SameEndSameChain(h, EVIDENCE_GENESIS, EvidenceLinks(caseId, a), EvidenceLinks(caseId, b), texts);
    forall i | 0 <= i < |a|
      ensures SameHashed(a[i], b[i])
    {
      assert EvidenceLinks(caseId, a)[i] == EvidenceLinks(caseId, b)[i];
      MetadataDetermines(caseId, a[i], b[i]);
    }
  }

  lemma MetadataDetermines(caseId: string, e: Evidence, f: Evidence)
    requires J.CanonicalText(MetadataJson(caseId, e)) == J.CanonicalText(MetadataJson(caseId, f))
    requires e.prevHash == f.prevHash && e.chainHash == f.chainHash
    ensures SameHashed(e, f)
  {
    var v, w := MetadataJson(caseId, e), MetadataJson(caseId, f);
    MetadataKeys(caseId, e);
    MetadataKeys(caseId, f);
    J.CanonicalTextIdentifies(v, w);
    J.SameMember(v.entries, w.entries, 1);
    J.SameMember(v.entries, w.entries, 2);
    J.SameMember(v.entries, w.entries, 3);
    J.SameMember(v.entries, w.entries, 4);
    J.SameMember(v.entries, w.entries, 5);
  }

  lemma MetadataKeys(caseId: string, e: Evidence)
    ensures J.DistinctKeys(MetadataJson(caseId, e).entries) && J.WellFormed(MetadataJson(caseId, e))
  {
  }
}
