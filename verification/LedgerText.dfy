/** The text a journal is hashed over, member by member: what an auditor has to write to check a hash. */
module LedgerText {
  import opened Text
  import opened Ledger
  import J = CanonicalJson
  import C = LedgerChain

  // ----- one entry

  /** The members of an entry in the order of their keys. */
  function SortedEntry(e: PayloadEntry, i: nat): seq<J.Entry> {
    [J.Entry("accountCode", J.Str(CodeOf(e.account))),
     J.Entry("amount", J.Str(e.amount)),
     J.Entry("currency", J.Str(e.currency)),
     J.Entry("postingSeq", J.Num(i)),
     J.Entry("side", J.Str(SideText(e.side)))]
  }

  function EntryText(e: PayloadEntry, i: nat): string {
    J.ObjectOf([
      J.Spelling("accountCode", J.Quote(CodeOf(e.account))), J.Spelling("amount", J.Quote(e.amount)),
      J.Spelling("currency", J.Quote(e.currency)), J.Spelling("postingSeq", J.IntText(i)),
      J.Spelling("side", J.Quote(SideText(e.side)))])
  }

  lemma EntryKeysInOrder()
    ensures J.KeyBefore("accountCode", "amount") && J.KeyBefore("amount", "currency")
    ensures J.KeyBefore("currency", "postingSeq") && J.KeyBefore("postingSeq", "side")
  {
    J.LetterBefore("accountCode", "amount", 1);
    J.LetterBefore("amount", "currency", 0);
    J.LetterBefore("currency", "postingSeq", 0);
    J.LetterBefore("postingSeq", "side", 0);
  }

  lemma EntryMembers(e: PayloadEntry, i: nat)
    ensures forall x :: x in EntryJson(e, i).entries <==> x in SortedEntry(e, i)
  {
  }

  lemma EntryPlain(e: PayloadEntry, i: nat, k: nat)
    requires k < 5
    ensures var m := SortedEntry(e, i)[k]; J.IsPlain(m.key) && m.key != J.PROTO && J.IsCanonical(m.value)
  {
    assert SortedEntry(e, i)[k].key[0] != '_';
  }

  lemma EntrySpelled(e: PayloadEntry, i: nat)
    ensures J.ObjectOf(J.SpellingsOf(SortedEntry(e, i))) == EntryText(e, i)
  {
    assert J.SpellingsOf(SortedEntry(e, i)) == [
      J.Spelling("accountCode", J.Quote(CodeOf(e.account))), J.Spelling("amount", J.Quote(e.amount)),
      J.Spelling("currency", J.Quote(e.currency)), J.Spelling("postingSeq", J.IntText(i)),
      J.Spelling("side", J.Quote(SideText(e.side)))];
  }

  lemma EntryCanonical(e: PayloadEntry, i: nat)
    ensures J.IsCanonical(J.Obj(SortedEntry(e, i))) && J.TreeOf(J.Obj(SortedEntry(e, i))) == J.TreeOf(EntryJson(e, i))
    ensures J.TextOf(J.Obj(SortedEntry(e, i))) == EntryText(e, i)
  {
    var fs := SortedEntry(e, i);
    C.EntryKeys(e, i);
    EntryKeysInOrder();
    J.FiveSorted(fs);
    J.KeySortedDistinct(fs);
    EntryMembers(e, i);
    J.SameMembers(EntryJson(e, i).entries, fs);
    forall k: nat | k < |fs|
      ensures J.IsPlain(fs[k].key) && fs[k].key != J.PROTO && J.IsCanonical(fs[k].value)
    {
      EntryPlain(e, i, k);
    }
    J.ObjectSpelled(fs);
    EntrySpelled(e, i);
  }

  // ----- the payload

  function SortedItems(ps: seq<PayloadEntry>): (items: seq<J.Json>)
    ensures |items| == |ps|
  {
    seq(|ps|, i requires 0 <= i < |ps| => J.Obj(SortedEntry(ps[i], i)))
  }

  function EntryTexts(ps: seq<PayloadEntry>): (texts: seq<string>)
    ensures |texts| == |ps|
  {
    seq(|ps|, i requires 0 <= i < |ps| => EntryText(ps[i], i))
  }

  lemma ItemsCanonical(ps: seq<PayloadEntry>)
    ensures J.IsCanonical(J.Arr(SortedItems(ps)))
    ensures J.TreeOf(J.Arr(SortedItems(ps))) == J.TreeOf(J.Arr(EntriesJson(ps)))
    ensures J.TextOf(J.Arr(SortedItems(ps))) == J.ArrayOf(EntryTexts(ps))
  {
    var items := SortedItems(ps);
    forall k: nat | k < |ps|
      ensures J.IsCanonical(items[k]) && J.TreeOf(items[k]) == J.TreeOf(EntriesJson(ps)[k])
      ensures J.TextOf(items[k]) == EntryTexts(ps)[k]
    {
      EntryCanonical(ps[k], k);
    }
    J.SameItems(items, EntriesJson(ps));
    J.ArraySpelled(items, EntryTexts(ps));
  }

  /** The members of a payload in the order of their keys. */
  function SortedPayload(seqNo: nat, reason: Reason, date: string, reference: Reference, ps: seq<PayloadEntry>):
      seq<J.Entry> {
    [J.Entry("entries", J.Arr(SortedItems(ps))),
     J.Entry("journalSeq", J.Str(Print(seqNo))),
     J.Entry("operatingDate", J.Str(date)),
     J.Entry("reason", J.Str(ReasonText(reason))),
     J.Entry("referenceId", OptionalText(reference.id)),
     J.Entry("referenceType", OptionalText(reference.kind))]
  }

  function QuotedOrNull(s: Option<string>): string {
    match s case None => "null" case Some(text) => J.Quote(text)
  }

  function PayloadText(seqNo: nat, reason: Reason, date: string, reference: Reference, ps: seq<PayloadEntry>): string {
    J.ObjectOf([
      J.Spelling("entries", J.ArrayOf(EntryTexts(ps))), J.Spelling("journalSeq", J.Quote(Print(seqNo))),
      J.Spelling("operatingDate", J.Quote(date)), J.Spelling("reason", J.Quote(ReasonText(reason))),
      J.Spelling("referenceId", QuotedOrNull(reference.id)), J.Spelling("referenceType", QuotedOrNull(reference.kind))])
  }

  lemma FirstKeysInOrder()
    ensures J.KeyBefore("entries", "journalSeq") && J.KeyBefore("journalSeq", "operatingDate")
    ensures J.KeyBefore("operatingDate", "reason")
  {
    J.LetterBefore("entries", "journalSeq", 0);
    J.LetterBefore("journalSeq", "operatingDate", 0);
    J.LetterBefore("operatingDate", "reason", 0);
  }

  lemma LastKeysInOrder()
    ensures J.KeyBefore("reason", "referenceId") && J.KeyBefore("referenceId", "referenceType")
  {
    J.LetterBefore("reason", "referenceId", 2);
    J.LetterBefore("referenceId", "referenceType", 9);
  }

  lemma KeysPlain()
    ensures J.IsPlain("entries") && J.IsPlain("journalSeq") && J.IsPlain("operatingDate")
    ensures J.IsPlain("reason") && J.IsPlain("referenceId") && J.IsPlain("referenceType")
  {
  }

  lemma PayloadKeyPlain(seqNo: nat, reason: Reason, date: string, reference: Reference, ps: seq<PayloadEntry>, k: nat)
    requires k < 6
    ensures var m := SortedPayload(seqNo, reason, date, reference, ps)[k]; J.IsPlain(m.key) && m.key != J.PROTO
  {
    KeysPlain();
    assert SortedPayload(seqNo, reason, date, reference, ps)[k].key[0] != '_';
  }

  lemma PayloadValueCanonical(seqNo: nat, reason: Reason, date: string, reference: Reference, ps: seq<PayloadEntry>,
      k: nat)
    requires k < 6 && J.IsCanonical(J.Arr(SortedItems(ps)))
    ensures J.IsCanonical(SortedPayload(seqNo, reason, date, reference, ps)[k].value)
  {
    OptionalCanonical(reference.id);
    OptionalCanonical(reference.kind);
  }

  lemma OptionalCanonical(s: Option<string>)
    ensures J.IsCanonical(OptionalText(s)) && J.TextOf(OptionalText(s)) == QuotedOrNull(s)
  {
  }

  /** The payload with its entries' members in order. */
  function ReorderedPayload(seqNo: nat, reason: Reason, date: string, reference: Reference, ps: seq<PayloadEntry>):
      seq<J.Entry> {
    [J.Entry("journalSeq", J.Str(Print(seqNo))),
     J.Entry("reason", J.Str(ReasonText(reason))),
     J.Entry("operatingDate", J.Str(date)),
     J.Entry("referenceType", OptionalText(reference.kind)),
     J.Entry("referenceId", OptionalText(reference.id)),
     J.Entry("entries", J.Arr(SortedItems(ps)))]
  }

  lemma PayloadSameTree(seqNo: nat, reason: Reason, date: string, reference: Reference, ps: seq<PayloadEntry>)
    ensures J.TreeOf(J.Obj(ReorderedPayload(seqNo, reason, date, reference, ps)))
      == J.TreeOf(PayloadJson(seqNo, reason, date, reference, ps))
  {
    ItemsCanonical(ps);
    J.SameValues(ReorderedPayload(seqNo, reason, date, reference, ps),
      PayloadJson(seqNo, reason, date, reference, ps).entries, 6);
  }

  lemma PayloadMembers(seqNo: nat, reason: Reason, date: string, reference: Reference, ps: seq<PayloadEntry>)
    ensures forall x :: x in ReorderedPayload(seqNo, reason, date, reference, ps) <==>
      x in SortedPayload(seqNo, reason, date, reference, ps)
    ensures J.DistinctKeys(ReorderedPayload(seqNo, reason, date, reference, ps))
  {
  }

  lemma PayloadCanonical(seqNo: nat, reason: Reason, date: string, reference: Reference, ps: seq<PayloadEntry>)
    ensures var w := J.Obj(SortedPayload(seqNo, reason, date, reference, ps));
      J.IsCanonical(w) && J.TreeOf(w) == J.TreeOf(PayloadJson(seqNo, reason, date, reference, ps))
  {
    var fs := SortedPayload(seqNo, reason, date, reference, ps);
    FirstKeysInOrder();
    LastKeysInOrder();
    J.SixSorted(fs);
    J.KeySortedDistinct(fs);
    PayloadMembers(seqNo, reason, date, reference, ps);
    PayloadSameTree(seqNo, reason, date, reference, ps);
    J.SameMembers(ReorderedPayload(seqNo, reason, date, reference, ps), fs);
    ItemsCanonical(ps);
    forall k: nat | k < |fs|
      ensures fs[k].key != J.PROTO && J.IsCanonical(fs[k].value)
    {
      PayloadKeyPlain(seqNo, reason, date, reference, ps, k);
      PayloadValueCanonical(seqNo, reason, date, reference, ps, k);
    }
  }

  lemma PayloadSpellings(seqNo: nat, reason: Reason, date: string, reference: Reference, ps: seq<PayloadEntry>)
    requires J.TextOf(J.Arr(SortedItems(ps))) == J.ArrayOf(EntryTexts(ps))
    ensures J.ObjectOf(J.SpellingsOf(SortedPayload(seqNo, reason, date, reference, ps)))
      == PayloadText(seqNo, reason, date, reference, ps)
  {
    OptionalCanonical(reference.id);
    OptionalCanonical(reference.kind);
    assert J.SpellingsOf(SortedPayload(seqNo, reason, date, reference, ps)) == [
      J.Spelling("entries", J.ArrayOf(EntryTexts(ps))), J.Spelling("journalSeq", J.Quote(Print(seqNo))),
      J.Spelling("operatingDate", J.Quote(date)), J.Spelling("reason", J.Quote(ReasonText(reason))),
      J.Spelling("referenceId", QuotedOrNull(reference.id)), J.Spelling("referenceType", QuotedOrNull(reference.kind))];
  }

  lemma PayloadSpelled(seqNo: nat, reason: Reason, date: string, reference: Reference, ps: seq<PayloadEntry>)
    ensures J.TextOf(J.Obj(SortedPayload(seqNo, reason, date, reference, ps)))
      == PayloadText(seqNo, reason, date, reference, ps)
  {
    var fs := SortedPayload(seqNo, reason, date, reference, ps);
    forall k: nat | k < |fs|
      ensures J.IsPlain(fs[k].key)
    {
      PayloadKeyPlain(seqNo, reason, date, reference, ps, k);
    }
    J.ObjectSpelled(fs);
    ItemsCanonical(ps);
    PayloadSpellings(seqNo, reason, date, reference, ps);
  }

  /** The text a journal is hashed over is this and nothing else. */
  lemma HashedText(seqNo: nat, reason: Reason, date: string, reference: Reference, ps: seq<PayloadEntry>)
    ensures J.CanonicalText(PayloadJson(seqNo, reason, date, reference, ps))
      == PayloadText(seqNo, reason, date, reference, ps)
  {
    C.PayloadWellFormed(seqNo, reason, date, reference, ps);
    PayloadCanonical(seqNo, reason, date, reference, ps);
    PayloadSpelled(seqNo, reason, date, reference, ps);
    J.CanonicalTextOf(PayloadJson(seqNo, reason, date, reference, ps),
      J.Obj(SortedPayload(seqNo, reason, date, reference, ps)));
  }
}
