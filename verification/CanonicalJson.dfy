/** Deterministic JSON (core/json.js, core/crypto.js): the text that signatures and hash chains are
    computed over. Objects keep their members in enumeration order, as the language does. */
module CanonicalJson {
  import opened Text
  import opened Collections

  datatype Json = Null | Bool(b: bool) | Num(n: int) | Str(s: string) | Arr(items: seq<Json>) | Obj(entries: seq<Entry>)

  datatype Entry = Entry(key: string, value: Json)

  /** What a value denotes: its members have no order. */
  datatype Tree =
    | NullTree
    | BoolTree(b: bool)
    | NumTree(n: int)
    | StrTree(s: string)
    | ArrTree(items: seq<Tree>)
    | ObjTree(members: map<string, Tree>)

  /** Assigning this key sets an object's prototype and adds no member. */
  const PROTO := "__proto__"

  ghost predicate DistinctKeys(es: seq<Entry>) {
    forall i, j :: 0 <= i < j < |es| ==> es[i].key != es[j].key
  }

  /** No object has the same key twice. */
  ghost predicate WellFormed(v: Json) {
    match v
    case Arr(items) => forall i :: 0 <= i < |items| ==> WellFormed(items[i])
    case Obj(es) => DistinctKeys(es) && forall i :: 0 <= i < |es| ==> WellFormed(es[i].value)
    case _ => true
  }

  function TreeOf(v: Json): Tree
    decreases v
  {
    match v
    case Null => NullTree
    case Bool(b) => BoolTree(b)
    case Num(n) => NumTree(n)
    case Str(s) => StrTree(s)
    case Arr(items) => ArrTree(ItemTrees(items, |items|))
    case Obj(es) => ObjTree(Members(es, |es|))
  }

  function ItemTrees(items: seq<Json>, i: nat): (ts: seq<Tree>)
    requires i <= |items|
    ensures |ts| == i
    decreases items, i
  {
    if i == 0 then [] else ItemTrees(items, i - 1) + [TreeOf(items[i - 1])]
  }

  function Members(es: seq<Entry>, i: nat): map<string, Tree>
    requires i <= |es|
    decreases es, i
  {
    if i == 0 then map[]
    else if es[i - 1].key == PROTO then Members(es, i - 1)
    else Members(es, i - 1)[es[i - 1].key := TreeOf(es[i - 1].value)]
  }

  // ----- order of keys

  /** A key that is an array index: such keys are enumerated first, in numeric order. */
  predicate IsIndexKey(k: string) {
    Canonical(k) && Parse(k) < 0xFFFF_FFFF
  }

  function IndexOf(k: string): nat {
    if AllDigits(k) then Parse(k) else 0
  }

  predicate LexBefore(a: string, b: string) {
    if b == "" then false
    else if a == "" then true
    else a[0] < b[0] || (a[0] == b[0] && LexBefore(a[1..], b[1..]))
  }

  predicate IndexBefore(a: string, b: string) {
    IndexOf(a) < IndexOf(b)
  }

  /** The order in which an object whose keys were assigned in lexicographic order enumerates them. */
  predicate KeyBefore(a: string, b: string) {
    if IsIndexKey(a) then (IsIndexKey(b) ==> IndexBefore(a, b)) else !IsIndexKey(b) && LexBefore(a, b)
  }

  lemma {:induction false} LexTotal(a: string, b: string)
    ensures a == b || LexBefore(a, b) || LexBefore(b, a)
  {
    if a != "" && b != "" && a[0] == b[0] {
      LexTotal(a[1..], b[1..]);
      assert a == [a[0]] + a[1..] && b == [b[0]] + b[1..];
    }
  }

  lemma {:induction false} LexTransitive(a: string, b: string, c: string)
    requires LexBefore(a, b) && LexBefore(b, c)
    ensures LexBefore(a, c)
  {
    if a != "" && a[0] == b[0] == c[0] {
      LexTransitive(a[1..], b[1..], c[1..]);
    }
  }

  lemma {:induction false} LexIrreflexive(a: string)
    ensures !LexBefore(a, a)
  {
    if a != "" {
      LexIrreflexive(a[1..]);
    }
  }

  lemma KeyTransitive(a: string, b: string, c: string)
    requires KeyBefore(a, b) && KeyBefore(b, c)
    ensures KeyBefore(a, c)
  {
    if !IsIndexKey(a) {
      LexTransitive(a, b, c);
    }
  }

  lemma KeyIrreflexive(a: string)
    ensures !KeyBefore(a, a)
  {
    LexIrreflexive(a);
  }

  // ----- sorting entries

  type Order = (string, string) -> bool

  function Insert(e: Entry, es: seq<Entry>, before: Order): seq<Entry> {
    if es == [] || before(e.key, es[0].key) then [e] + es else [es[0]] + Insert(e, es[1..], before)
  }

  function Sort(es: seq<Entry>, before: Order): seq<Entry> {
    if es == [] then [] else Insert(es[0], Sort(es[1..], before), before)
  }

  ghost predicate SortedBy(es: seq<Entry>, before: Order) {
    forall i, j :: 0 <= i < j < |es| ==> before(es[i].key, es[j].key)
  }

  lemma {:induction false} InsertMembers(e: Entry, es: seq<Entry>, before: Order, x: Entry)
    ensures x in Insert(e, es, before) <==> x == e || x in es
  {
    if es != [] && !before(e.key, es[0].key) {
      InsertMembers(e, es[1..], before, x);
      assert es == [es[0]] + es[1..];
    }
  }

  lemma {:induction false} SortMembers(es: seq<Entry>, before: Order, x: Entry)
    ensures x in Sort(es, before) <==> x in es
  {
    if es != [] {
      SortMembers(es[1..], before, x);
      InsertMembers(es[0], Sort(es[1..], before), before, x);
      assert es == [es[0]] + es[1..];
    }
  }

  ghost predicate Transitive(before: Order) {
    forall a, b, c :: before(a, b) && before(b, c) ==> before(a, c)
  }

  /** Any two entries with different keys are ordered. */
  ghost predicate TotalOn(es: seq<Entry>, before: Order) {
    forall e, f :: e in es && f in es && e.key != f.key ==> before(e.key, f.key) || before(f.key, e.key)
  }

  lemma {:induction false} InsertSorted(e: Entry, es: seq<Entry>, before: Order)
    requires Transitive(before) && SortedBy(es, before)
    requires forall f :: f in es ==> before(e.key, f.key) || before(f.key, e.key)
    ensures SortedBy(Insert(e, es, before), before)
  {
    if es != [] {
      if before(e.key, es[0].key) {
        forall j | 1 <= j < |es|
          ensures before(e.key, es[j].key)
        {
          assert before(es[0].key, es[j].key);
        }
      } else {
        var rest := Insert(e, es[1..], before);
        assert forall f :: f in es[1..] ==> f in es;
        InsertSorted(e, es[1..], before);
        forall j | 0 <= j < |rest|
          ensures before(es[0].key, rest[j].key)
        {
          InsertMembers(e, es[1..], before, rest[j]);
          assert es[0] in es;
        }
      }
    }
  }

  lemma {:induction false} SortSorts(es: seq<Entry>, before: Order)
    requires Transitive(before) && TotalOn(es, before) && DistinctKeys(es)
    ensures SortedBy(Sort(es, before), before)
  {
    if es != [] {
      var rest := es[1..];
      assert forall f :: f in rest ==> f in es;
      SortSorts(rest, before);
      forall f | f in Sort(rest, before)
        ensures before(es[0].key, f.key) || before(f.key, es[0].key)
      {
        SortMembers(rest, before, f);
        var j :| 0 <= j < |rest| && rest[j] == f;
        assert es[j + 1] == f && es[0] in es;
      }
      InsertSorted(es[0], Sort(rest, before), before);
    }
  }

  // ----- the canonical form

  function Pick(es: seq<Entry>, index: bool): seq<Entry> {
    if es == [] then []
    else if IsIndexKey(es[0].key) == index then [es[0]] + Pick(es[1..], index)
    else Pick(es[1..], index)
  }

  /** How an object enumerates members assigned in the order given. */
  function Enumerate(es: seq<Entry>): seq<Entry> {
    Sort(Pick(es, true), IndexBefore) + Pick(es, false)
  }

  function Canonicalize(v: Json): Json
    decreases v
  {
    match v
    case Arr(items) => Arr(CanonicalItems(items, |items|))
    case Obj(es) => Obj(Enumerate(Sort(CanonicalEntries(es, |es|), LexBefore)))
    case _ => v
  }

  function CanonicalItems(items: seq<Json>, i: nat): (cs: seq<Json>)
    requires i <= |items|
    ensures |cs| == i
    decreases items, i
  {
    if i == 0 then [] else CanonicalItems(items, i - 1) + [Canonicalize(items[i - 1])]
  }

  function CanonicalEntries(es: seq<Entry>, i: nat): seq<Entry>
    requires i <= |es|
    decreases es, i
  {
    if i == 0 then []
    else if es[i - 1].key == PROTO then CanonicalEntries(es, i - 1)
    else CanonicalEntries(es, i - 1) + [Entry(es[i - 1].key, Canonicalize(es[i - 1].value))]
  }

  lemma {:induction false} PickMembers(es: seq<Entry>, index: bool, x: Entry)
    ensures x in Pick(es, index) <==> x in es && IsIndexKey(x.key) == index
  {
    if es != [] {
      PickMembers(es[1..], index, x);
      assert es == [es[0]] + es[1..];
    }
  }

  lemma {:induction false} PickSorted(es: seq<Entry>, index: bool, before: Order)
    requires SortedBy(es, before)
    ensures SortedBy(Pick(es, index), before)
  {
    if es != [] {
      var rest := es[1..];
      PickSorted(rest, index, before);
      forall j | 0 <= j < |Pick(rest, index)|
        ensures before(es[0].key, Pick(rest, index)[j].key)
      {
        PickMembers(rest, index, Pick(rest, index)[j]);
        var k :| 0 <= k < |rest| && rest[k] == Pick(rest, index)[j];
        assert es[k + 1] == rest[k];
      }
    }
  }

  lemma {:induction false} PickDistinct(es: seq<Entry>, index: bool)
    requires DistinctKeys(es)
    ensures DistinctKeys(Pick(es, index))
  {
    if es != [] {
      var rest := es[1..];
      PickDistinct(rest, index);
      forall j | 0 <= j < |Pick(rest, index)|
        ensures es[0].key != Pick(rest, index)[j].key
      {
        PickMembers(rest, index, Pick(rest, index)[j]);
        var k :| 0 <= k < |rest| && rest[k] == Pick(rest, index)[j];
        assert es[k + 1] == rest[k];
      }
    }
  }

  lemma IndexKeysDiffer(a: string, b: string)
    requires IsIndexKey(a) && IsIndexKey(b) && a != b
    ensures IndexBefore(a, b) || IndexBefore(b, a)
  {
    PrintParse(a);
    PrintParse(b);
  }

  lemma LexOrder(es: seq<Entry>)
    ensures Transitive(LexBefore) && TotalOn(es, LexBefore)
  {
    forall a, b, c | LexBefore(a, b) && LexBefore(b, c)
      ensures LexBefore(a, c)
    {
      LexTransitive(a, b, c);
    }
    forall e, f | e in es && f in es && e.key != f.key
      ensures LexBefore(e.key, f.key) || LexBefore(f.key, e.key)
    {
      LexTotal(e.key, f.key);
    }
  }

  lemma EnumerateMembers(es: seq<Entry>, x: Entry)
    ensures x in Enumerate(es) <==> x in es
  {
    PickMembers(es, true, x);
    PickMembers(es, false, x);
    SortMembers(Pick(es, true), IndexBefore, x);
  }

  lemma IndexKeysSorted(es: seq<Entry>)
    requires DistinctKeys(es)
    ensures SortedBy(Sort(Pick(es, true), IndexBefore), IndexBefore)
  {
    var picked := Pick(es, true);
    PickDistinct(es, true);
    forall e, f | e in picked && f in picked && e.key != f.key
      ensures IndexBefore(e.key, f.key) || IndexBefore(f.key, e.key)
    {
      PickMembers(es, true, e);
      PickMembers(es, true, f);
      IndexKeysDiffer(e.key, f.key);
    }
    SortSorts(picked, IndexBefore);
  }

  /** Enumerating members assigned in lexicographic order gives them in key order. */
  lemma EnumerateSorted(es: seq<Entry>)
    requires DistinctKeys(es) && SortedBy(es, LexBefore)
    ensures SortedBy(Enumerate(es), KeyBefore)
  {
    var first, second := Sort(Pick(es, true), IndexBefore), Pick(es, false);
    IndexKeysSorted(es);
    PickSorted(es, false, LexBefore);
    forall e | e in first
      ensures IsIndexKey(e.key)
    {
      SortMembers(Pick(es, true), IndexBefore, e);
      PickMembers(es, true, e);
    }
    forall e | e in second
      ensures !IsIndexKey(e.key)
    {
      PickMembers(es, false, e);
    }
    var all := first + second;
    forall i, j | 0 <= i < j < |all|
      ensures KeyBefore(all[i].key, all[j].key)
    {
      if j < |first| {
        assert all[i] in first && all[j] in first;
      } else if i < |first| {
        assert all[i] in first && all[j] in second;
      } else {
        assert all[i] == second[i - |first|] && all[j] == second[j - |first|];
        assert all[i] in second && all[j] in second;
      }
    }
  }

  /** The members of the canonical object, in key order. */
  function Ordered(es: seq<Entry>): seq<Entry> {
    Enumerate(Sort(es, LexBefore))
  }

  lemma OrderedMembers(es: seq<Entry>, x: Entry)
    ensures x in Ordered(es) <==> x in es
  {
    SortMembers(es, LexBefore, x);
    EnumerateMembers(Sort(es, LexBefore), x);
  }

  lemma SortedDistinct(es: seq<Entry>)
    requires SortedBy(es, LexBefore)
    ensures DistinctKeys(es)
  {
    forall i, j | 0 <= i < j < |es|
      ensures es[i].key != es[j].key
    {
      assert LexBefore(es[i].key, es[j].key);
      LexIrreflexive(es[i].key);
    }
  }

  lemma OrderedSorted(es: seq<Entry>)
    requires DistinctKeys(es)
    ensures SortedBy(Ordered(es), KeyBefore)
  {
    LexOrder(es);
    SortSorts(es, LexBefore);
    SortedDistinct(Sort(es, LexBefore));
    EnumerateSorted(Sort(es, LexBefore));
  }

  lemma {:induction false} CanonicalEntriesAt(es: seq<Entry>, i: nat, x: Entry)
    requires i <= |es|
    ensures x in CanonicalEntries(es, i) <==>
      exists j :: 0 <= j < i && es[j].key == x.key != PROTO && x.value == Canonicalize(es[j].value)
    decreases i
  {
    if i > 0 {
      CanonicalEntriesAt(es, i - 1, x);
      if es[i - 1].key == x.key != PROTO && x.value == Canonicalize(es[i - 1].value) {
        assert x == Entry(es[i - 1].key, Canonicalize(es[i - 1].value));
      }
    }
  }

  lemma {:induction false} CanonicalEntriesDistinct(es: seq<Entry>, i: nat)
    requires i <= |es| && DistinctKeys(es)
    ensures DistinctKeys(CanonicalEntries(es, i))
    decreases i
  {
    if i > 0 {
      CanonicalEntriesDistinct(es, i - 1);
      var front := CanonicalEntries(es, i - 1);
      forall j | 0 <= j < |front|
        ensures front[j].key != es[i - 1].key
      {
        CanonicalEntriesAt(es, i - 1, front[j]);
      }
    }
  }

  /** The value a key has in a list of entries without repeated keys. */
  lemma {:induction false} MembersAt(es: seq<Entry>, i: nat, k: string)
    requires i <= |es| && DistinctKeys(es)
    ensures k in Members(es, i) <==> k != PROTO && exists j :: 0 <= j < i && es[j].key == k
    ensures forall j :: 0 <= j < i && es[j].key == k != PROTO ==>
      k in Members(es, i) && Members(es, i)[k] == TreeOf(es[j].value)
    decreases i
  {
    if i > 0 {
      MembersAt(es, i - 1, k);
    }
  }

  lemma {:induction false} ItemTreesAt(items: seq<Json>, i: nat, j: nat)
    requires j < i <= |items|
    ensures ItemTrees(items, i)[j] == TreeOf(items[j])
    decreases i
  {
    if j < i - 1 {
      ItemTreesAt(items, i - 1, j);
    }
  }

  lemma {:induction false} CanonicalItemsAt(items: seq<Json>, i: nat, j: nat)
    requires j < i <= |items|
    ensures CanonicalItems(items, i)[j] == Canonicalize(items[j])
    decreases i
  {
    if j < i - 1 {
      CanonicalItemsAt(items, i - 1, j);
    }
  }

  /** Sorted keys and no prototype key, at every level. */
  ghost predicate IsCanonical(v: Json) {
    match v
    case Arr(items) => forall i :: 0 <= i < |items| ==> IsCanonical(items[i])
    case Obj(es) =>
      && SortedBy(es, KeyBefore)
      && (forall i :: 0 <= i < |es| ==> es[i].key != PROTO && IsCanonical(es[i].value))
    case _ => true
  }

  lemma KeySortedDistinct(es: seq<Entry>)
    requires SortedBy(es, KeyBefore)
    ensures DistinctKeys(es)
  {
    forall i, j | 0 <= i < j < |es|
      ensures es[i].key != es[j].key
    {
      assert KeyBefore(es[i].key, es[j].key);
      KeyIrreflexive(es[i].key);
    }
  }

  lemma {:induction false} CanonicalizeIsCanonical(v: Json)
    requires WellFormed(v)
    ensures IsCanonical(Canonicalize(v))
    decreases v
  {
    match v {
      case Arr(items) =>
        forall i | 0 <= i < |items|
          ensures IsCanonical(CanonicalItems(items, |items|)[i])
        {
          CanonicalItemsAt(items, |items|, i);
          CanonicalizeIsCanonical(items[i]);
        }
      case Obj(es) =>
        var out := Ordered(CanonicalEntries(es, |es|));
        CanonicalEntriesDistinct(es, |es|);
        OrderedSorted(CanonicalEntries(es, |es|));
        forall i | 0 <= i < |out|
          ensures out[i].key != PROTO && IsCanonical(out[i].value)
        {
          var j := CanonicalSource(es, out[i]);
          CanonicalizeIsCanonical(es[j].value);
        }
      case _ =>
    }
  }

  /** Where a canonical entry comes from. */
  lemma CanonicalSource(es: seq<Entry>, x: Entry) returns (j: nat)
    requires x in Ordered(CanonicalEntries(es, |es|))
    ensures j < |es| && es[j].key == x.key != PROTO && x.value == Canonicalize(es[j].value)
  {
    OrderedMembers(CanonicalEntries(es, |es|), x);
    CanonicalEntriesAt(es, |es|, x);
    j :| 0 <= j < |es| && es[j].key == x.key != PROTO && x.value == Canonicalize(es[j].value);
  }

  /** Canonicalizing keeps what the value denotes. */
  lemma {:induction false} CanonicalizeKeepsTree(v: Json)
    requires WellFormed(v)
    ensures TreeOf(Canonicalize(v)) == TreeOf(v)
    decreases v
  {
    match v {
      case Arr(items) =>
        var cs := CanonicalItems(items, |items|);
        forall i | 0 <= i < |items|
          ensures ItemTrees(cs, |cs|)[i] == ItemTrees(items, |items|)[i]
        {
          ItemTreesAt(cs, |cs|, i);
          ItemTreesAt(items, |items|, i);
          CanonicalItemsAt(items, |items|, i);
          CanonicalizeKeepsTree(items[i]);
        }
      case Obj(es) =>
        var out := Ordered(CanonicalEntries(es, |es|));
        CanonicalizeIsCanonical(v);
        KeySortedDistinct(out);
        forall k: string
          ensures k in Members(out, |out|) <==> k in Members(es, |es|)
          ensures k in Members(out, |out|) ==> Members(out, |out|)[k] == Members(es, |es|)[k]
        {
          MembersAt(out, |out|, k);
          MembersAt(es, |es|, k);
          if i :| 0 <= i < |out| && out[i].key == k {
            var j := CanonicalSource(es, out[i]);
            CanonicalizeKeepsTree(es[j].value);
          } else if j :| 0 <= j < |es| && es[j].key == k != PROTO {
            var x := Entry(k, Canonicalize(es[j].value));
            CanonicalEntriesAt(es, |es|, x);
            OrderedMembers(CanonicalEntries(es, |es|), x);
          }
        }
        SameMaps(Members(out, |out|), Members(es, |es|));
      case _ =>
    }
  }

  // ----- one canonical form for each tree

  /** Two lists in strict key order with the same entries are the same list. */
  lemma {:induction false} SameSorted(a: seq<Entry>, b: seq<Entry>)
    requires SortedBy(a, KeyBefore) && SortedBy(b, KeyBefore)
    requires forall x :: x in a <==> x in b
    ensures a == b
  {
    assert a != [] ==> a[0] in a;
    assert b != [] ==> b[0] in b;
    if a != [] && b != [] {
      if a[0] != b[0] {
        var i :| 0 <= i < |b| && b[i] == a[0];
        var j :| 0 <= j < |a| && a[j] == b[0];
        assert KeyBefore(b[0].key, b[i].key) && KeyBefore(a[0].key, a[j].key);
        KeyTransitive(a[0].key, b[0].key, a[0].key);
        KeyIrreflexive(a[0].key);
        assert false;
      }
      TailSame(a, b);
      TailSame(b, a);
      SameSorted(a[1..], b[1..]);
      assert a == [a[0]] + a[1..] && b == [b[0]] + b[1..];
    }
  }

  lemma TailSame(a: seq<Entry>, b: seq<Entry>)
    requires SortedBy(a, KeyBefore) && a != [] && b != [] && a[0] == b[0]
    requires forall x :: x in a ==> x in b
    ensures forall x :: x in a[1..] ==> x in b[1..]
  {
    forall x | x in a[1..]
      ensures x in b[1..]
    {
      var j :| 0 <= j < |a| - 1 && a[1..][j] == x;
      assert KeyBefore(a[0].key, a[j + 1].key);
      KeyIrreflexive(a[0].key);
      assert x in a && x != b[0] && b == [b[0]] + b[1..];
    }
  }

  lemma {:induction false} SameTreeSameCanonical(v: Json, w: Json)
    requires IsCanonical(v) && IsCanonical(w) && TreeOf(v) == TreeOf(w)
    ensures v == w
    decreases v
  {
    match v {
      case Arr(items) =>
        var others := w.items;
        forall i | 0 <= i < |items|
          ensures items[i] == others[i]
        {
          ItemTreesAt(items, |items|, i);
          ItemTreesAt(others, |others|, i);
          SameTreeSameCanonical(items[i], others[i]);
        }
      case Obj(es) =>
        var fs := w.entries;
        KeySortedDistinct(es);
        KeySortedDistinct(fs);
        forall x: Entry
          ensures x in es <==> x in fs
        {
          if i :| 0 <= i < |es| && es[i] == x {
            var j := Counterpart(es, fs, i);
            SameTreeSameCanonical(es[i].value, fs[j].value);
            assert fs[j] in fs && fs[j] == x;
          }
          if j :| 0 <= j < |fs| && fs[j] == x {
            var i := Counterpart(fs, es, j);
            SameTreeSameCanonical(es[i].value, fs[j].value);
            assert es[i] in es && es[i] == x;
          }
        }
        SameSorted(es, fs);
      case _ =>
    }
  }

  lemma Counterpart(es: seq<Entry>, fs: seq<Entry>, i: nat) returns (j: nat)
    requires DistinctKeys(es) && DistinctKeys(fs) && Members(es, |es|) == Members(fs, |fs|)
    requires i < |es| && es[i].key != PROTO
    ensures j < |fs| && fs[j].key == es[i].key && TreeOf(fs[j].value) == TreeOf(es[i].value)
  {
    MembersAt(es, |es|, es[i].key);
    MembersAt(fs, |fs|, es[i].key);
    j :| 0 <= j < |fs| && fs[j].key == es[i].key;
  }

  /** Canonicalizing twice is canonicalizing once. */
  lemma CanonicalizeIdempotent(v: Json)
    requires WellFormed(v)
    ensures WellFormed(Canonicalize(v)) && Canonicalize(Canonicalize(v)) == Canonicalize(v)
  {
    CanonicalizeIsCanonical(v);
    CanonicalWellFormed(Canonicalize(v));
    CanonicalizeIsCanonical(Canonicalize(v));
    CanonicalizeKeepsTree(Canonicalize(v));
    SameTreeSameCanonical(Canonicalize(Canonicalize(v)), Canonicalize(v));
  }

  lemma {:induction false} CanonicalWellFormed(v: Json)
    requires IsCanonical(v)
    ensures WellFormed(v)
    decreases v
  {
    match v {
      case Arr(items) =>
        forall i | 0 <= i < |items|
          ensures WellFormed(items[i])
        {
          CanonicalWellFormed(items[i]);
        }
      case Obj(es) =>
        KeySortedDistinct(es);
        forall i | 0 <= i < |es|
          ensures WellFormed(es[i].value)
        {
          CanonicalWellFormed(es[i].value);
        }
      case _ =>
    }
  }

  // ----- text

  function LowerHex(d: nat): char
    requires d < 16
  {
    if d < 10 then ('0' as int + d) as char else ('a' as int + (d - 10)) as char
  }

  /** One character of a string, as `JSON.stringify` writes it. */
  function EscapeChar(c: char): (e: string)
    ensures |e| > 0 && e[0] != '"'
  {
    var n := c as int;
    if c == '"' then ['\\', '"']
    else if c == '\\' then ['\\', '\\']
    else if n == 8 then ['\\', 'b']
    else if n == 9 then ['\\', 't']
    else if n == 10 then ['\\', 'n']
    else if n == 12 then ['\\', 'f']
    else if n == 13 then ['\\', 'r']
    else if n < 32 then ['\\', 'u', '0', '0', LowerHex(n / 16), LowerHex(n % 16)]
    else [c]
  }

  /** The characters from position i on, and the closing quote. */
  function StringText(s: string, i: nat): string
    requires i <= |s|
    decreases |s| - i
  {
    if i == |s| then ['"'] else EscapeChar(s[i]) + StringText(s, i + 1)
  }

  function Quote(s: string): string {
    ['"'] + StringText(s, 0)
  }

  function IntText(n: int): string {
    if n < 0 then ['-'] + Print(-n) else Print(n)
  }

  /** `JSON.stringify` */
  function TextOf(v: Json): string
    decreases v
  {
    match v
    case Null => "null"
    case Bool(b) => if b then "true" else "false"
    case Num(n) => IntText(n)
    case Str(s) => Quote(s)
    case Arr(items) => ['['] + ItemsText(items, 0)
    case Obj(es) => ['{'] + EntriesText(es, 0)
  }

  function Comma(i: nat): string {
    if i == 0 then [] else [',']
  }

  /** The items from the i-th on, and the closing bracket. */
  function ItemsText(items: seq<Json>, i: nat): string
    requires i <= |items|
    decreases items, |items| - i
  {
    if i == |items| then [']'] else Comma(i) + TextOf(items[i]) + ItemsText(items, i + 1)
  }

  function EntriesText(es: seq<Entry>, i: nat): string
    requires i <= |es|
    decreases es, |es| - i
  {
    if i == |es| then ['}'] else Comma(i) + Quote(es[i].key) + [':'] + TextOf(es[i].value) + EntriesText(es, i + 1)
  }

  /** `canonicalJson` */
  function CanonicalText(v: Json): string {
    TextOf(Canonicalize(v))
  }

  lemma Strip(a: string, x: string, b: string, y: string)
    requires a + x == b + y && |a| == |b|
    ensures a == b && x == y
  {
    assert a == (a + x)[..|a|] && b == (b + y)[..|b|];
    assert x == (a + x)[|a|..] && y == (b + y)[|b|..];
  }

  lemma Reassociate(a: string, b: string, c: string)
    ensures (a + b) + c == a + (b + c)
  {
  }

  lemma Peel(c: string, a: string, r: string, x: string, b: string, s: string, y: string)
    requires (c + a + r) + x == (c + b + s) + y
    ensures a + (r + x) == b + (s + y)
  {
    assert (c + a + r) + x == c + (a + (r + x));
    assert (c + b + s) + y == c + (b + (s + y));
    Strip(c, a + (r + x), c, b + (s + y));
  }

  lemma SameHead(a: string, x: string, b: string, y: string)
    requires a + x == b + y && a != "" && b != ""
    ensures a[0] == b[0]
  {
    assert a[0] == (a + x)[0] && b[0] == (b + y)[0];
  }

  lemma LowerHexInjective(a: nat, b: nat)
    requires a < 16 && b < 16 && LowerHex(a) == LowerHex(b)
    ensures a == b
  {
  }

  /** No escape is the beginning of another. */
  lemma EscapePrefix(c: char, x: string, d: char, y: string)
    requires EscapeChar(c) + x == EscapeChar(d) + y
    ensures c == d && x == y
  {
    var e, f := EscapeChar(c), EscapeChar(d);
    SameHead(e, x, f, y);
    if |e| > 1 && |f| > 1 {
      assert e[1] == (e + x)[1] && f[1] == (f + y)[1];
    }
    assert |e| == |f|;
    Strip(e, x, f, y);
    if |e| == 6 {
      assert e[4] == f[4] && e[5] == f[5];
      LowerHexInjective(c as int / 16, d as int / 16);
      LowerHexInjective(c as int % 16, d as int % 16);
    }
  }

  lemma {:induction false} StringPrefix(s: string, i: nat, x: string, t: string, y: string)
    requires i <= |s| && i <= |t| && StringText(s, i) + x == StringText(t, i) + y
    ensures s[i..] == t[i..] && x == y
    decreases |s| - i
  {
    SameHead(StringText(s, i), x, StringText(t, i), y);
    if i < |s| && i < |t| {
      var a, b := StringText(s, i + 1) + x, StringText(t, i + 1) + y;
      Reassociate(EscapeChar(s[i]), StringText(s, i + 1), x);
      Reassociate(EscapeChar(t[i]), StringText(t, i + 1), y);
      EscapePrefix(s[i], a, t[i], b);
      StringPrefix(s, i + 1, x, t, y);
      assert s[i..] == [s[i]] + s[i + 1..] && t[i..] == [t[i]] + t[i + 1..];
    } else {
      assert i == |s| && i == |t|;
      Strip(StringText(s, i), x, StringText(t, i), y);
    }
  }

  lemma QuotePrefix(s: string, x: string, t: string, y: string)
    requires Quote(s) + x == Quote(t) + y
    ensures s == t && x == y
  {
    Reassociate(['"'], StringText(s, 0), x);
    Reassociate(['"'], StringText(t, 0), y);
    Strip(['"'], StringText(s, 0) + x, ['"'], StringText(t, 0) + y);
    StringPrefix(s, 0, x, t, y);
    assert s[0..] == s && t[0..] == t;
  }

  /** What may follow a value in a text. */
  predicate Ends(x: string) {
    x == "" || x[0] == ',' || x[0] == ']' || x[0] == '}'
  }

  lemma NotLonger(p: string, x: string, q: string, y: string)
    requires AllDigits(q) && Ends(x) && p + x == q + y
    ensures |q| <= |p|
  {
    var w := p + x;
    assert x != "" ==> w[|p|] == x[0] && !IsDigit(w[|p|]);
    assert forall k :: 0 <= k < |q| ==> w[k] == q[k] && IsDigit(w[k]);
  }

  lemma DigitsPrefix(p: string, x: string, q: string, y: string)
    requires AllDigits(p) && AllDigits(q) && Ends(x) && Ends(y) && p + x == q + y
    ensures p == q && x == y
  {
    NotLonger(p, x, q, y);
    NotLonger(q, y, p, x);
    Strip(p, x, q, y);
  }

  lemma IntPrefix(m: int, x: string, n: int, y: string)
    requires Ends(x) && Ends(y) && IntText(m) + x == IntText(n) + y
    ensures m == n && x == y
  {
    SameHead(IntText(m), x, IntText(n), y);
    assert m < 0 <==> IntText(m)[0] == '-';
    assert n < 0 <==> IntText(n)[0] == '-';
    if m < 0 {
      Reassociate(['-'], Print(-m), x);
      Reassociate(['-'], Print(-n), y);
      Strip(['-'], Print(-m) + x, ['-'], Print(-n) + y);
      DigitsPrefix(Print(-m), x, Print(-n), y);
      PrintInjective(-m, -n);
    } else {
      DigitsPrefix(Print(m), x, Print(n), y);
      PrintInjective(m, n);
    }
  }

  /** The first character of a text tells what kind of value it is. */
  function Kind(c: char): nat {
    if c == 'n' then 0 else if c == 't' || c == 'f' then 1 else if c == '-' || IsDigit(c) then 2
    else if c == '"' then 3 else if c == '[' then 4 else if c == '{' then 5 else 6
  }

  function KindOf(v: Json): nat {
    match v
    case Null => 0
    case Bool(_) => 1
    case Num(_) => 2
    case Str(_) => 3
    case Arr(_) => 4
    case Obj(_) => 5
  }

  lemma TextHead(v: Json)
    ensures TextOf(v) != "" && Kind(TextOf(v)[0]) == KindOf(v)
  {
    match v {
      case Num(n) => assert IntText(n)[0] == '-' || IsDigit(IntText(n)[0]);
      case _ =>
    }
  }

  /** The same text cut after its first character. */
  lemma AfterBracket(open: char, t: string, a: string, x: string)
    requires t == [open] + a
    ensures t + x == [open] + (a + x)
  {
  }

  /** A text can be read back: what follows it does not change where it ends or what it says. */
  lemma {:induction false} TextPrefix(v: Json, x: string, w: Json, y: string)
    requires Ends(x) && Ends(y) && TextOf(v) + x == TextOf(w) + y
    ensures v == w && x == y
    decreases v
  {
    TextHead(v);
    TextHead(w);
    SameHead(TextOf(v), x, TextOf(w), y);
    match v {
      case Null => Strip("null", x, "null", y);
      case Bool(b) => BoolPrefix(b, x, w.b, y);
      case Num(n) => IntPrefix(n, x, w.n, y);
      case Str(s) => QuotePrefix(s, x, w.s, y);
      case Arr(items) =>
        var a, b := ItemsText(items, 0), ItemsText(w.items, 0);
        AfterBracket('[', TextOf(v), a, x);
        AfterBracket('[', TextOf(w), b, y);
        Strip(['['], a + x, ['['], b + y);
        ItemsPrefix(items, 0, x, w.items, y);
        assert items[0..] == items && w.items[0..] == w.items;
      case Obj(es) =>
        var a, b := EntriesText(es, 0), EntriesText(w.entries, 0);
        AfterBracket('{', TextOf(v), a, x);
        AfterBracket('{', TextOf(w), b, y);
        Strip(['{'], a + x, ['{'], b + y);
        EntriesPrefix(es, 0, x, w.entries, y);
        assert es[0..] == es && w.entries[0..] == w.entries;
    }
  }

  lemma BoolPrefix(b: bool, x: string, c: bool, y: string)
    requires TextOf(Bool(b)) + x == TextOf(Bool(c)) + y
    ensures b == c && x == y
  {
    SameHead(TextOf(Bool(b)), x, TextOf(Bool(c)), y);
    Strip(TextOf(Bool(b)), x, TextOf(Bool(c)), y);
  }

  lemma ItemsHead(items: seq<Json>, i: nat)
    requires i <= |items|
    ensures ItemsText(items, i) != ""
    ensures ItemsText(items, i)[0] == ']' <==> i == |items|
    ensures i > 0 ==> Ends(ItemsText(items, i))
  {
    if i < |items| {
      TextHead(items[i]);
    }
  }

  lemma {:induction false} ItemsPrefix(items: seq<Json>, i: nat, x: string, others: seq<Json>, y: string)
    requires i <= |items| && i <= |others| && ItemsText(items, i) + x == ItemsText(others, i) + y
    ensures items[i..] == others[i..] && x == y
    decreases items, |items| - i
  {
    ItemsHead(items, i);
    ItemsHead(others, i);
    SameHead(ItemsText(items, i), x, ItemsText(others, i), y);
    if i == |items| {
      Strip([']'], x, [']'], y);
    } else {
      var a, b := ItemsText(items, i + 1) + x, ItemsText(others, i + 1) + y;
      ItemsHead(items, i + 1);
      ItemsHead(others, i + 1);
      Peel(Comma(i), TextOf(items[i]), ItemsText(items, i + 1), x, TextOf(others[i]), ItemsText(others, i + 1), y);
      TextPrefix(items[i], a, others[i], b);
      ItemsPrefix(items, i + 1, x, others, y);
      assert items[i..] == [items[i]] + items[i + 1..] && others[i..] == [others[i]] + others[i + 1..];
    }
  }

  lemma EntriesHead(es: seq<Entry>, i: nat)
    requires i <= |es|
    ensures EntriesText(es, i) != ""
    ensures EntriesText(es, i)[0] == '}' <==> i == |es|
    ensures i > 0 ==> Ends(EntriesText(es, i))
  {
  }

  lemma EntryPrefix(i: nat, e: Entry, r: string, x: string, f: Entry, s: string, y: string)
    requires (Comma(i) + Quote(e.key) + [':'] + TextOf(e.value) + r) + x
      == (Comma(i) + Quote(f.key) + [':'] + TextOf(f.value) + s) + y
    ensures e.key == f.key && TextOf(e.value) + (r + x) == TextOf(f.value) + (s + y)
  {
    EntryParts(Comma(i), Quote(e.key), TextOf(e.value), r, x, Quote(f.key), TextOf(f.value), s, y);
    QuotePrefix(e.key, ([':'] + TextOf(e.value) + r) + x, f.key, ([':'] + TextOf(f.value) + s) + y);
    Peel([':'], TextOf(e.value), r, x, TextOf(f.value), s, y);
  }

  lemma EntryParts(c: string, k: string, v: string, r: string, x: string, l: string, w: string, s: string, y: string)
    requires (c + k + [':'] + v + r) + x == (c + l + [':'] + w + s) + y
    ensures k + (([':'] + v + r) + x) == l + (([':'] + w + s) + y)
  {
    assert c + k + [':'] + v + r == c + k + ([':'] + v + r);
    assert c + l + [':'] + w + s == c + l + ([':'] + w + s);
    Peel(c, k, [':'] + v + r, x, l, [':'] + w + s, y);
  }

  lemma {:induction false} EntriesPrefix(es: seq<Entry>, i: nat, x: string, fs: seq<Entry>, y: string)
    requires i <= |es| && i <= |fs| && EntriesText(es, i) + x == EntriesText(fs, i) + y
    ensures es[i..] == fs[i..] && x == y
    decreases es, |es| - i
  {
    EntriesHead(es, i);
    EntriesHead(fs, i);
    SameHead(EntriesText(es, i), x, EntriesText(fs, i), y);
    if i == |es| {
      Strip(['}'], x, ['}'], y);
    } else {
      var a, b := EntriesText(es, i + 1) + x, EntriesText(fs, i + 1) + y;
      EntriesHead(es, i + 1);
      EntriesHead(fs, i + 1);
      EntryPrefix(i, es[i], EntriesText(es, i + 1), x, fs[i], EntriesText(fs, i + 1), y);
      TextPrefix(es[i].value, a, fs[i].value, b);
      EntriesPrefix(es, i + 1, x, fs, y);
      assert es[i..] == [es[i]] + es[i + 1..] && fs[i..] == [fs[i]] + fs[i + 1..];
    }
  }

  /** Different values have different texts. */
  lemma TextInjective(v: Json, w: Json)
    requires TextOf(v) == TextOf(w)
    ensures v == w
  {
    assert TextOf(v) + "" == TextOf(v) && TextOf(w) + "" == TextOf(w);
    TextPrefix(v, "", w, "");
  }

  /** Two values have the same canonical text exactly when they denote the same tree: the order of
      members does not matter, and everything else does. */
  lemma CanonicalTextIdentifies(v: Json, w: Json)
    requires WellFormed(v) && WellFormed(w)
    ensures CanonicalText(v) == CanonicalText(w) <==> TreeOf(v) == TreeOf(w)
  {
    CanonicalizeKeepsTree(v);
    CanonicalizeKeepsTree(w);
    if CanonicalText(v) == CanonicalText(w) {
      TextInjective(Canonicalize(v), Canonicalize(w));
    }
    if TreeOf(v) == TreeOf(w) {
      CanonicalizeIsCanonical(v);
      CanonicalizeIsCanonical(w);
      SameTreeSameCanonical(Canonicalize(v), Canonicalize(w));
    }
  }

  /** A member named "__proto__" is lost: the two objects are different, their texts are the same. */
  lemma PrototypeKeyLost()
    ensures CanonicalText(Obj([Entry("__proto__", Num(1))])) == CanonicalText(Obj([]))
  {
    assert CanonicalEntries([Entry(PROTO, Num(1))], 1) == CanonicalEntries([Entry(PROTO, Num(1))], 0) == [];
  }

  /** Two objects with the same members have the same value under each key they list at one place. */
  lemma SameMember(es: seq<Entry>, fs: seq<Entry>, i: nat)
    requires DistinctKeys(es) && DistinctKeys(fs) && TreeOf(Obj(es)) == TreeOf(Obj(fs))
    requires i < |es| && i < |fs| && es[i].key == fs[i].key != PROTO
    ensures TreeOf(es[i].value) == TreeOf(fs[i].value)
  {
    MembersAt(es, |es|, es[i].key);
    MembersAt(fs, |fs|, es[i].key);
  }

  // ----- known texts

  /** The canonical text of a value is the text of the value of the same tree whose keys are in order. */
  lemma CanonicalTextOf(v: Json, w: Json)
    requires WellFormed(v) && IsCanonical(w) && TreeOf(w) == TreeOf(v)
    ensures CanonicalText(v) == TextOf(w)
  {
    CanonicalizeIsCanonical(v);
    CanonicalizeKeepsTree(v);
    SameTreeSameCanonical(Canonicalize(v), w);
  }

  /** Where two keys first differ decides which comes first. */
  lemma {:induction false} LexAt(a: string, b: string, k: nat)
    requires k < |a| && k < |b| && a[k] < b[k] && forall i :: 0 <= i < k ==> a[i] == b[i]
    ensures LexBefore(a, b)
    decreases k
  {
    if k > 0 {
      assert a[0] == b[0] && a[1..][k - 1] == a[k] && b[1..][k - 1] == b[k];
      assert forall i :: 0 <= i < k - 1 ==> a[1..][i] == a[i + 1] && b[1..][i] == b[i + 1];
      LexAt(a[1..], b[1..], k - 1);
    }
  }

  lemma {:induction false} LexPrefix(a: string, b: string)
    requires a < b
    ensures LexBefore(a, b)
  {
    if a != "" {
      assert a[0] == b[0] && a[1..] < b[1..];
      LexPrefix(a[1..], b[1..]);
    }
  }

  /** A key that starts with a letter is no index. */
  lemma LetterKey(k: string)
    requires k != "" && !IsDigit(k[0])
    ensures !IsIndexKey(k)
  {
  }

  lemma LetterBefore(a: string, b: string, k: nat)
    requires k < |a| && k < |b| && a[k] < b[k] && (forall i :: 0 <= i < k ==> a[i] == b[i])
    requires !IsDigit(a[0]) && !IsDigit(b[0])
    ensures KeyBefore(a, b)
  {
    LetterKey(a);
    LetterKey(b);
    LexAt(a, b, k);
  }

  /** Characters that are written as they are. */
  predicate IsPlain(s: string) {
    forall i :: 0 <= i < |s| ==> s[i] as int >= 32 && s[i] != '"' && s[i] != '\\'
  }

  lemma {:induction false} PlainFrom(s: string, i: nat)
    requires i <= |s| && IsPlain(s)
    ensures StringText(s, i) == s[i..] + "\""
    decreases |s| - i
  {
    if i < |s| {
      PlainFrom(s, i + 1);
      assert s[i..] == [s[i]] + s[i + 1..];
    }
  }

  lemma QuotePlain(s: string)
    requires IsPlain(s)
    ensures Quote(s) == "\"" + s + "\""
  {
    PlainFrom(s, 0);
    assert s[0..] == s;
  }

  /** A member of an object: its key and the text of its value. */
  datatype Spelling = Spelling(key: string, value: string)

  function SpellingsOf(es: seq<Entry>): (parts: seq<Spelling>)
    ensures |parts| == |es|
  {
    seq(|es|, i requires 0 <= i < |es| => Spelling(es[i].key, TextOf(es[i].value)))
  }

  /** The members from the i-th on, separated by commas. */
  function Listed(parts: seq<Spelling>, i: nat): string
    requires i <= |parts|
    decreases |parts| - i
  {
    if i == |parts| then ""
    else (if i == 0 then "" else ",") + "\"" + parts[i].key + "\":" + parts[i].value + Listed(parts, i + 1)
  }

  function ObjectOf(parts: seq<Spelling>): string {
    "{" + Listed(parts, 0) + "}"
  }

  lemma {:induction false} EntriesListed(es: seq<Entry>, i: nat)
    requires i <= |es| && forall k :: 0 <= k < |es| ==> IsPlain(es[k].key)
    ensures EntriesText(es, i) == Listed(SpellingsOf(es), i) + "}"
    decreases |es| - i
  {
    if i < |es| {
      EntriesListed(es, i + 1);
      QuotePlain(es[i].key);
      Reassociated(if i == 0 then "" else ",", es[i].key, TextOf(es[i].value), Listed(SpellingsOf(es), i + 1));
    }
  }

  lemma Reassociated(comma: string, key: string, value: string, rest: string)
    ensures comma + ("\"" + key + "\"") + [':'] + value + (rest + "}")
      == comma + "\"" + key + "\":" + value + rest + "}"
  {
    assert ("\"" + key + "\"") + [':'] == "\"" + key + "\":";
  }

  lemma ObjectSpelled(es: seq<Entry>)
    requires forall k :: 0 <= k < |es| ==> IsPlain(es[k].key)
    ensures TextOf(Obj(es)) == ObjectOf(SpellingsOf(es))
  {
    EntriesListed(es, 0);
  }

  /** A member whose key comes after the last one. */
  lemma SortedFurther(fs: seq<Entry>, n: nat)
    requires n + 1 == |fs| && SortedBy(fs[..n], KeyBefore) && (n > 0 ==> KeyBefore(fs[n - 1].key, fs[n].key))
    ensures SortedBy(fs, KeyBefore)
  {
    forall i, j | 0 <= i < j < |fs|
      ensures KeyBefore(fs[i].key, fs[j].key)
    {
      BeforeLast(fs, n, i);
      if j < n {
        assert KeyBefore(fs[..n][i].key, fs[..n][j].key);
      }
    }
  }

  lemma BeforeLast(fs: seq<Entry>, n: nat, i: nat)
    requires n + 1 == |fs| && SortedBy(fs[..n], KeyBefore) && i < n && KeyBefore(fs[n - 1].key, fs[n].key)
    ensures KeyBefore(fs[i].key, fs[n].key)
  {
    if i < n - 1 {
      assert KeyBefore(fs[..n][i].key, fs[..n][n - 1].key);
      KeyTransitive(fs[i].key, fs[n - 1].key, fs[n].key);
    }
  }

  lemma {:induction false} AdjacentSorted(fs: seq<Entry>)
    requires forall i :: 0 <= i < |fs| - 1 ==> KeyBefore(fs[i].key, fs[i + 1].key)
    ensures SortedBy(fs, KeyBefore)
  {
    if fs != [] {
      var n := |fs| - 1;
      AdjacentSorted(fs[..n]);
      SortedFurther(fs, n);
    }
  }

  lemma SixSorted(fs: seq<Entry>)
    requires |fs| == 6 && KeyBefore(fs[0].key, fs[1].key) && KeyBefore(fs[1].key, fs[2].key)
    requires KeyBefore(fs[2].key, fs[3].key) && KeyBefore(fs[3].key, fs[4].key) && KeyBefore(fs[4].key, fs[5].key)
    ensures SortedBy(fs, KeyBefore)
  {
    AdjacentSorted(fs);
  }

  lemma SameMembers(es: seq<Entry>, fs: seq<Entry>)
    requires DistinctKeys(es) && DistinctKeys(fs) && forall x :: x in es <==> x in fs
    ensures Members(es, |es|) == Members(fs, |fs|)
  {
    var m, n := Members(es, |es|), Members(fs, |fs|);
    forall k: string
      ensures k in m <==> k in n
      ensures k in m ==> m[k] == n[k]
    {
      MembersAt(es, |es|, k);
      MembersAt(fs, |fs|, k);
      if j :| 0 <= j < |es| && es[j].key == k {
        var i := SameMemberAt(es, fs, j);
      }
      if j :| 0 <= j < |fs| && fs[j].key == k {
        var i := SameMemberAt(fs, es, j);
      }
    }
    SameMaps(m, n);
  }

  lemma SameMemberAt(es: seq<Entry>, fs: seq<Entry>, j: nat) returns (i: nat)
    requires j < |es| && forall x :: x in es <==> x in fs
    ensures i < |fs| && fs[i] == es[j]
  {
    assert es[j] in es;
    i :| 0 <= i < |fs| && fs[i] == es[j];
  }

  /** The canonical text of an object whose values are canonical is its members' text in the order of the keys. */
  lemma ObjectText(es: seq<Entry>, fs: seq<Entry>)
    requires DistinctKeys(es) && SortedBy(fs, KeyBefore) && forall x :: x in es <==> x in fs
    requires forall i :: 0 <= i < |fs| ==> fs[i].key != PROTO && IsCanonical(fs[i].value)
    requires WellFormed(Obj(es))
    ensures CanonicalText(Obj(es)) == TextOf(Obj(fs))
  {
    KeySortedDistinct(fs);
    SameMembers(es, fs);
    CanonicalTextOf(Obj(es), Obj(fs));
  }

  lemma FiveSorted(fs: seq<Entry>)
    requires |fs| == 5 && KeyBefore(fs[0].key, fs[1].key) && KeyBefore(fs[1].key, fs[2].key)
    requires KeyBefore(fs[2].key, fs[3].key) && KeyBefore(fs[3].key, fs[4].key)
    ensures SortedBy(fs, KeyBefore)
  {
    AdjacentSorted(fs);
  }

  /** The texts of the items from the i-th on, separated by commas. */
  function ItemsListed(texts: seq<string>, i: nat): string
    requires i <= |texts|
    decreases |texts| - i
  {
    if i == |texts| then "" else (if i == 0 then "" else ",") + texts[i] + ItemsListed(texts, i + 1)
  }

  function ArrayOf(texts: seq<string>): string {
    "[" + ItemsListed(texts, 0) + "]"
  }

  lemma {:induction false} ItemsSpelled(items: seq<Json>, texts: seq<string>, i: nat)
    requires i <= |items| == |texts| && forall k :: 0 <= k < |items| ==> TextOf(items[k]) == texts[k]
    ensures ItemsText(items, i) == ItemsListed(texts, i) + "]"
    decreases |items| - i
  {
    if i < |items| {
      ItemsSpelled(items, texts, i + 1);
      Reassociate((if i == 0 then "" else ",") + texts[i], ItemsListed(texts, i + 1), "]");
    }
  }

  lemma ArraySpelled(items: seq<Json>, texts: seq<string>)
    requires |items| == |texts| && forall k :: 0 <= k < |items| ==> TextOf(items[k]) == texts[k]
    ensures TextOf(Arr(items)) == ArrayOf(texts)
  {
    ItemsSpelled(items, texts, 0);
  }

  lemma SameItems(a: seq<Json>, b: seq<Json>)
    requires |a| == |b| && forall k :: 0 <= k < |a| ==> TreeOf(a[k]) == TreeOf(b[k])
    ensures TreeOf(Arr(a)) == TreeOf(Arr(b))
  {
    forall k | 0 <= k < |a|
      ensures ItemTrees(a, |a|)[k] == ItemTrees(b, |b|)[k]
    {
      ItemTreesAt(a, |a|, k);
      ItemTreesAt(b, |b|, k);
    }
  }

  /** The same members but for values that denote the same. */
  lemma {:induction false} SameValues(es: seq<Entry>, fs: seq<Entry>, i: nat)
    requires i <= |es| == |fs|
    requires forall k :: 0 <= k < |es| ==> es[k].key == fs[k].key && TreeOf(es[k].value) == TreeOf(fs[k].value)
    ensures Members(es, i) == Members(fs, i)
  {
    if i > 0 {
      SameValues(es, fs, i - 1);
    }
  }

  /** The keys that are enumerated as numbers are the numerals up to 2^32 - 2. */
  lemma IndexKeysExactly(k: string)
    ensures IsIndexKey(k) <==> exists n: nat :: n <= 4294967294 && k == Print(n)
  {
    if IsIndexKey(k) {
      PrintParse(k);
      assert k == Print(Parse(k));
    }
    if n: nat :| n <= 4294967294 && k == Print(n) {
      PrintCanonical(n);
      ParsePrint(n);
    }
  }

  // ----- reading characters back

  function HexDigitValue(c: char): Option<nat> {
    if '0' <= c <= '9' then Some(c as int - '0' as int)
    else if 'a' <= c <= 'f' then Some(c as int - 'a' as int + 10)
    else if 'A' <= c <= 'F' then Some(c as int - 'A' as int + 10)
    else None
  }

  /** The character that a JSON reader makes of one unit of a string, as section 7 of RFC 8259 has it. */
  function Unescape(e: string): Option<char> {
    if |e| == 1 then (if e[0] as int < 32 || e[0] == '"' || e[0] == '\\' then None else Some(e[0]))
    else if |e| < 2 || e[0] != '\\' then None
    else if |e| == 2 then
      if e[1] == '"' || e[1] == '\\' || e[1] == '/' then Some(e[1])
      else if e[1] == 'b' then Some(8 as char)
      else if e[1] == 'f' then Some(12 as char)
      else if e[1] == 'n' then Some('\n')
      else if e[1] == 'r' then Some('\r')
      else if e[1] == 't' then Some('\t')
      else None
    else if |e| == 6 && e[1] == 'u' then Unit(HexDigitValue(e[2]), HexDigitValue(e[3]), HexDigitValue(e[4]),
      HexDigitValue(e[5]))
    else None
  }

  function Unit(a: Option<nat>, b: Option<nat>, c: Option<nat>, d: Option<nat>): Option<char> {
    if a.None? || b.None? || c.None? || d.None? then None
    else
      var n := ((a.value * 16 + b.value) * 16 + c.value) * 16 + d.value;
      if n < 0xD800 then Some(n as char) else None
  }

  lemma HexReadsBack(d: nat)
    requires d < 16
    ensures HexDigitValue(LowerHex(d)) == Some(d)
  {
  }

  /** What is written for a character is read back as that character. */
  lemma EscapeReadsBack(c: char)
    ensures Unescape(EscapeChar(c)) == Some(c)
  {
    var n := c as int;
    if n < 32 {
      HexReadsBack(n / 16);
      HexReadsBack(n % 16);
    }
  }
}
