/** Jaro and Jaro-Winkler similarity (core/strings.js) over exact rationals. The loops are proved to
    compute one particular matching of equal characters; what that matching is worth is proved
    about the matching itself. */
module Jaro {

  /** Row i of the first string is matched to column m[i] of the second. */
  type Matching = map<nat, nat>

  function Max(a: int, b: int): int {
    if a >= b then a else b
  }

  function Min(a: int, b: int): int {
    if a <= b then a else b
  }

  function MatchWindow(s1: string, s2: string): nat {
    Max(0, Max(|s1|, |s2|) / 2 - 1)
  }

  /** Equal characters no further apart than the window. */
  predicate Compatible(s1: string, s2: string, i: nat, j: nat) {
    && i < |s1|
    && j < |s2|
    && s1[i] == s2[j]
    && i <= j + MatchWindow(s1, s2)
    && j <= i + MatchWindow(s1, s2)
  }

  ghost predicate IsMatching(s1: string, s2: string, m: Matching) {
    AllCompatible(s1, s2, m) && Injective(m)
  }

  ghost predicate AllCompatible(s1: string, s2: string, m: Matching) {
    forall i :: i in m ==> Compatible(s1, s2, i, m[i])
  }

  ghost predicate Injective(m: Matching) {
    forall i, k :: i in m && k in m && m[i] == m[k] ==> i == k
  }

  // ----- the matching the loops build

  /** The first column from j on that row i may take. */
  function FirstFree(s1: string, s2: string, taken: set<nat>, i: nat, j: nat): (r: nat)
    requires i < |s1|
    decreases |s2| - j
    ensures j <= r || r == |s2|
    ensures r < |s2| ==> Compatible(s1, s2, i, r) && r !in taken
    ensures forall k :: j <= k < |s2| && k < r ==> !Compatible(s1, s2, i, k) || k in taken
    ensures r <= |s2|
  {
    if j >= |s2| then |s2|
    else if Compatible(s1, s2, i, j) && j !in taken then j
    else FirstFree(s1, s2, taken, i, j + 1)
  }

  /** The first n rows, in order, each take the first free column. */
  function Greedy(s1: string, s2: string, n: nat): Matching
    requires n <= |s1|
  {
    if n == 0 then map[]
    else
      var m := Greedy(s1, s2, n - 1);
      var j := FirstFree(s1, s2, m.Values, n - 1, 0);
      if j < |s2| then m[n - 1 := j] else m
  }

  lemma AddKey(m: Matching, i: nat, j: nat)
    requires i !in m
    ensures m[i := j].Values == m.Values + {j} && |m[i := j]| == |m| + 1
  {
    var g := m[i := j];
    assert g.Keys == m.Keys + {i} && |g| == |g.Keys| && |m| == |m.Keys|;
    assert g[i] == j;
    forall k: nat | k in m
      ensures m[k] in g.Values
    {
      assert g[k] == m[k];
    }
  }

  lemma AddInjective(m: Matching, i: nat, j: nat)
    requires Injective(m) && i !in m && j !in m.Values
    ensures Injective(m[i := j])
  {
    var g := m[i := j];
    forall a: nat, b: nat | a in g && b in g && g[a] == g[b]
      ensures a == b
    {
      assert a in m ==> m[a] in m.Values;
      assert b in m ==> m[b] in m.Values;
    }
  }

  lemma AddPair(s1: string, s2: string, m: Matching, i: nat, j: nat)
    requires IsMatching(s1, s2, m) && i !in m && j !in m.Values && Compatible(s1, s2, i, j)
    ensures IsMatching(s1, s2, m[i := j])
    ensures m[i := j].Values == m.Values + {j} && |m[i := j]| == |m| + 1
    ensures |m[i := j].Values| == |m.Values| + 1
  {
    AddKey(m, i, j);
    AddInjective(m, i, j);
    AddCompatible(s1, s2, m, i, j);
  }

  lemma AddCompatible(s1: string, s2: string, m: Matching, i: nat, j: nat)
    requires AllCompatible(s1, s2, m) && Compatible(s1, s2, i, j)
    ensures AllCompatible(s1, s2, m[i := j])
  {
  }

  lemma {:induction false} GreedyRows(s1: string, s2: string, n: nat)
    requires n <= |s1|
    ensures forall i :: i in Greedy(s1, s2, n) ==> i < n
  {
    if n > 0 {
      GreedyRows(s1, s2, n - 1);
    }
  }

  lemma {:induction false} GreedyIsMatching(s1: string, s2: string, n: nat)
    requires n <= |s1|
    ensures IsMatching(s1, s2, Greedy(s1, s2, n)) && |Greedy(s1, s2, n).Values| == |Greedy(s1, s2, n)|
  {
    if n > 0 {
      GreedyRows(s1, s2, n - 1);
      GreedyIsMatching(s1, s2, n - 1);
      var m := Greedy(s1, s2, n - 1);
      var j := FirstFree(s1, s2, m.Values, n - 1, 0);
      if j < |s2| {
        AddPair(s1, s2, m, n - 1, j);
      }
    }
  }

  // ----- stability: the property that singles the matching out

  /** No compatible pair is passed over: its row has a column at or before it, or its column was
      taken by an earlier row. */
  ghost predicate Stable(s1: string, s2: string, m: Matching, n: nat) {
    forall i: nat, j: nat :: i < n && Compatible(s1, s2, i, j) ==> (i in m && m[i] <= j) || TakenBefore(m, i, j)
  }

  ghost predicate TakenBefore(m: Matching, i: nat, j: nat) {
    exists k: nat :: k < i && k in m && m[k] == j
  }

  /** One more row keeps the earlier rows' stability. */
  lemma StableRow(s1: string, s2: string, m: Matching, g: Matching, i: nat, j: nat)
    requires forall k :: k in m ==> k in g && g[k] == m[k]
    requires (i in m && m[i] <= j) || TakenBefore(m, i, j)
    ensures (i in g && g[i] <= j) || TakenBefore(g, i, j)
  {
    if TakenBefore(m, i, j) {
      var k: nat :| k < i && k in m && m[k] == j;
      assert g[k] == j;
    }
  }

  lemma LastRow(s1: string, s2: string, n: nat, j: nat)
    requires n < |s1| && Compatible(s1, s2, n, j)
    ensures var g := Greedy(s1, s2, n + 1); (n in g && g[n] <= j) || TakenBefore(g, n, j)
  {
    GreedyRows(s1, s2, n);
    var m, g := Greedy(s1, s2, n), Greedy(s1, s2, n + 1);
    if j in m.Values {
      var k :| k in m && m[k] == j;
      assert k < n && k in g && g[k] == j;
    } else {
      assert FirstFree(s1, s2, m.Values, n, 0) <= j;
    }
  }

  lemma {:induction false} GreedyIsStable(s1: string, s2: string, n: nat)
    requires n <= |s1|
    ensures Stable(s1, s2, Greedy(s1, s2, n), n)
  {
    if n > 0 {
      GreedyIsStable(s1, s2, n - 1);
      var m, g := Greedy(s1, s2, n - 1), Greedy(s1, s2, n);
      assert forall k :: k in m ==> k in g && g[k] == m[k] by {
        GreedyRows(s1, s2, n - 1);
      }
      forall i: nat, j: nat | i < n && Compatible(s1, s2, i, j)
        ensures (i in g && g[i] <= j) || TakenBefore(g, i, j)
      {
        if i < n - 1 {
          StableRow(s1, s2, m, g, i, j);
        } else {
          LastRow(s1, s2, i, j);
        }
      }
    }
  }

  /** Two stable matchings are equal: a pair in one and not in the other would lead to a smaller such
      pair, for ever. */
  lemma {:induction false} SmallerDifference(s1: string, s2: string, m: Matching, m': Matching, i: nat)
    requires IsMatching(s1, s2, m) && IsMatching(s1, s2, m')
    requires Stable(s1, s2, m, |s1|) && Stable(s1, s2, m', |s1|)
    requires i in m
    ensures i in m' && m'[i] == m[i]
    decreases i + m[i]
  {
    var j := m[i];
    assert Compatible(s1, s2, i, j);
    if !(i in m' && m'[i] == j) {
      if i in m' && m'[i] <= j {
        SmallerDifference(s1, s2, m', m, i);
      } else {
        var k: nat :| k < i && k in m' && m'[k] == j;
        SmallerDifference(s1, s2, m', m, k);
      }
    }
  }

  lemma StableUnique(s1: string, s2: string, m: Matching, m': Matching)
    requires IsMatching(s1, s2, m) && IsMatching(s1, s2, m')
    requires Stable(s1, s2, m, |s1|) && Stable(s1, s2, m', |s1|)
    ensures m == m'
  {
    forall i | i in m
      ensures i in m' && m'[i] == m[i]
    {
      SmallerDifference(s1, s2, m, m', i);
    }
    forall i | i in m'
      ensures i in m
    {
      SmallerDifference(s1, s2, m', m, i);
    }
  }

  // ----- symmetry

  ghost predicate Inverse(m: Matching, r: Matching) {
    && (forall i :: i in m ==> m[i] in r && r[m[i]] == i)
    && (forall j :: j in r ==> r[j] in m && m[r[j]] == j)
  }

  lemma InverseExists(s1: string, s2: string, m: Matching) returns (r: Matching)
    requires IsMatching(s1, s2, m)
    ensures Inverse(m, r)
  {
    r := map j | j in m.Values :: RowOf(m, j);
  }

  ghost function RowOf(m: Matching, j: nat): (i: nat)
    requires j in m.Values
    ensures i in m && m[i] == j
  {
    var i :| i in m && m[i] == j;
    i
  }

  /** Matching the strings the other way round gives the same pairs. */
  lemma GreedySymmetric(s1: string, s2: string)
    ensures Inverse(Greedy(s1, s2, |s1|), Greedy(s2, s1, |s2|))
  {
    var m := Greedy(s1, s2, |s1|);
    GreedyIsMatching(s1, s2, |s1|);
    GreedyIsStable(s1, s2, |s1|);
    GreedyIsMatching(s2, s1, |s2|);
    GreedyIsStable(s2, s1, |s2|);
    var r := InverseExists(s1, s2, m);
    assert IsMatching(s2, s1, r) by {
      forall j | j in r
        ensures Compatible(s2, s1, j, r[j])
      {
        assert Compatible(s1, s2, r[j], m[r[j]]);
      }
    }
    forall j: nat, i: nat | j < |s2| && Compatible(s2, s1, j, i)
      ensures (j in r && r[j] <= i) || TakenBefore(r, j, i)
    {
      assert Compatible(s1, s2, i, j);
      if i in m && m[i] <= j {
        assert r[m[i]] == i;
      } else {
        var k: nat :| k < i && k in m && m[k] == j;
        assert r[j] == k;
      }
    }
    StableUnique(s2, s1, r, Greedy(s2, s1, |s2|));
  }

  // ----- maximality

  ghost predicate AgreeBelow(m: Matching, g: Matching, n: nat) {
    forall i: nat :: i < n ==> (i in m <==> i in g) && (i in m ==> m[i] == g[i])
  }

  lemma SwapKeepsSize(m: Matching, i: nat, j: nat, owner: nat)
    requires i in m && owner in m
    ensures |m[i := j][owner := m[i]]| == |m|
  {
    var m' := m[i := j][owner := m[i]];
    assert m'.Keys == m.Keys;
    assert |m'| == |m'.Keys| && |m| == |m.Keys|;
  }

  /** Row i gives up its column for the smaller j, and the row that held j takes row i's column. */
  lemma SwapPairs(s1: string, s2: string, m: Matching, i: nat, j: nat, owner: nat) returns (m': Matching)
    requires IsMatching(s1, s2, m) && i in m && owner in m && m[owner] == j && i < owner && j < m[i]
    requires Compatible(s1, s2, i, j)
    ensures m' == m[i := j][owner := m[i]] && IsMatching(s1, s2, m') && |m'| == |m|
  {
    m' := m[i := j][owner := m[i]];
    SwapKeepsSize(m, i, j, owner);
    assert Compatible(s1, s2, owner, j) && Compatible(s1, s2, i, m[i]);
    assert Compatible(s1, s2, owner, m[i]);
  }

  /** Row i takes over the column of a later row. */
  lemma MovePair(s1: string, s2: string, m: Matching, i: nat, j: nat, owner: nat) returns (m': Matching)
    requires IsMatching(s1, s2, m) && i !in m && owner in m && m[owner] == j && Compatible(s1, s2, i, j)
    ensures m' == (m - {owner})[i := j] && IsMatching(s1, s2, m') && |m'| == |m|
  {
    m' := (m - {owner})[i := j];
    assert m'.Keys == m.Keys - {owner} + {i};
    assert |m'| == |m'.Keys| && |m| == |m.Keys|;
  }

  /** Row i moves to a free column. */
  lemma Repoint(s1: string, s2: string, m: Matching, i: nat, j: nat) returns (m': Matching)
    requires IsMatching(s1, s2, m) && i in m && j !in m.Values && Compatible(s1, s2, i, j)
    ensures m' == m[i := j] && IsMatching(s1, s2, m') && |m'| == |m|
  {
    m' := m[i := j];
    forall a: nat, b: nat | a in m' && b in m' && m'[a] == m'[b]
      ensures a == b
    {
      assert m[a] in m.Values && m[b] in m.Values;
    }
    assert m'.Keys == m.Keys;
    assert |m'| == |m'.Keys| && |m| == |m.Keys|;
  }

  /** Any matching that agrees with the greedy one on the first n rows can be changed to agree on one
      more row without becoming smaller. */
  lemma Exchange(s1: string, s2: string, n: nat, m: Matching) returns (m': Matching)
    requires n < |s1| && IsMatching(s1, s2, m) && AgreeBelow(m, Greedy(s1, s2, n), n)
    ensures IsMatching(s1, s2, m') && |m'| >= |m| && AgreeBelow(m', Greedy(s1, s2, n + 1), n + 1)
  {
    var g := Greedy(s1, s2, n);
    var j := FirstFree(s1, s2, g.Values, n, 0);
    assert forall i :: i in g ==> i < n by { GreedyRows(s1, s2, n); }
    m' := m;
    if n in m {
      ColumnIsFree(s1, s2, n, m, g);
      assert Compatible(s1, s2, n, m[n]);
    }
    if j < |s2| && !(n in m && m[n] == j) {
      m' := TakeColumn(s1, s2, n, m, g, j);
    }
    AgreeOneMore(m, m', g, n, j, |s2|);
  }

  lemma AgreeOneMore(m: Matching, m': Matching, g: Matching, n: nat, j: nat, columns: nat)
    requires AgreeBelow(m, g, n) && n !in g && AgreeBelow(m', m, n)
    requires if j < columns then n in m' && m'[n] == j else n !in m'
    ensures AgreeBelow(m', if j < columns then g[n := j] else g, n + 1)
  {
  }

  /** Row n, at another column or at none, is moved to the free column j. */
  lemma TakeColumn(s1: string, s2: string, n: nat, m: Matching, g: Matching, j: nat) returns (m': Matching)
    requires IsMatching(s1, s2, m) && AgreeBelow(m, g, n) && (forall i :: i in g ==> i < n)
    requires j !in g.Values && Compatible(s1, s2, n, j) && (n in m ==> j < m[n])
    ensures IsMatching(s1, s2, m') && |m'| >= |m| && AgreeBelow(m', m, n) && n in m' && m'[n] == j
  {
    if j in m.Values {
      var owner: nat :| owner in m && m[owner] == j;
      assert owner < n ==> owner in g && g[owner] == j;
      if n in m {
        m' := SwapPairs(s1, s2, m, n, j, owner);
      } else {
        m' := MovePair(s1, s2, m, n, j, owner);
      }
    } else if n in m {
      m' := Repoint(s1, s2, m, n, j);
    } else {
      AddPair(s1, s2, m, n, j);
      m' := m[n := j];
    }
  }

  lemma ColumnIsFree(s1: string, s2: string, n: nat, m: Matching, g: Matching)
    requires IsMatching(s1, s2, m) && AgreeBelow(m, g, n) && (forall i: nat :: i in g ==> i < n) && n in m
    ensures m[n] !in g.Values
  {
    forall k: nat | k in g
      ensures g[k] != m[n]
    {
      assert k in m && m[k] == g[k];
    }
  }

  lemma {:induction false} GreedyDominates(s1: string, s2: string, n: nat, m: Matching)
    requires n <= |s1| && IsMatching(s1, s2, m) && AgreeBelow(m, Greedy(s1, s2, n), n)
    ensures |m| <= |Greedy(s1, s2, |s1|)|
    decreases |s1| - n
  {
    if n < |s1| {
      var m' := Exchange(s1, s2, n, m);
      GreedyDominates(s1, s2, n + 1, m');
    } else {
      var g := Greedy(s1, s2, n);
      assert forall i :: i in g ==> i < n by { GreedyRows(s1, s2, n); }
      assert forall i :: i in m ==> i < n by { assert AllCompatible(s1, s2, m); }
      assert m.Keys == g.Keys;
      assert |m| == |m.Keys| && |g| == |g.Keys|;
    }
  }

  /** Equal characters in the same place, or so close that twice one more than their distance does not exceed
      the longer string. */
  predicate CloseEqual(s1: string, s2: string, i: nat, j: nat) {
    && i < |s1| && j < |s2| && s1[i] == s2[j]
    && (i == j || 2 * ((if i < j then j - i else i - j) + 1) <= (if |s1| < |s2| then |s2| else |s1|))
  }

  lemma CompatibleExactly(s1: string, s2: string, i: nat, j: nat)
    ensures Compatible(s1, s2, i, j) <==> CloseEqual(s1, s2, i, j)
  {
  }

  /** Pairs of close equal characters, no position used twice. */
  ghost predicate PairsUp(s1: string, s2: string, m: Matching) {
    && (forall i :: i in m ==> CloseEqual(s1, s2, i, m[i]))
    && (forall i, k :: i in m && k in m && m[i] == m[k] ==> i == k)
  }

  /** The greedy pass finds as many pairs of close equal characters as can be found at all. */
  lemma GreedyIsMaximum(s1: string, s2: string, m: Matching)
    requires PairsUp(s1, s2, m)
    ensures |m| <= |Greedy(s1, s2, |s1|)| && PairsUp(s1, s2, Greedy(s1, s2, |s1|))
  {
    var g := Greedy(s1, s2, |s1|);
    GreedyIsMatching(s1, s2, |s1|);
    forall i | i in m
      ensures Compatible(s1, s2, i, m[i])
    {
      CompatibleExactly(s1, s2, i, m[i]);
    }
    GreedyDominates(s1, s2, 0, m);
    forall i | i in g
      ensures CloseEqual(s1, s2, i, g[i])
    {
      CompatibleExactly(s1, s2, i, g[i]);
    }
  }

  // ----- the score

  function Flags(n: nat, chosen: set<nat>): (flags: seq<bool>)
    ensures |flags| == n && forall i :: 0 <= i < n ==> flags[i] == (i in chosen)
  {
    seq(n, i => i in chosen)
  }

  /** The flagged characters among the first n, in order. */
  function PickedTo(s: string, flags: seq<bool>, n: nat): string
    requires |s| == |flags| && n <= |s|
  {
    if n == 0 then ""
    else if flags[n - 1] then PickedTo(s, flags, n - 1) + [s[n - 1]]
    else PickedTo(s, flags, n - 1)
  }

  /** The flagged characters, in order. */
  function Picked(s: string, flags: seq<bool>): string
    requires |s| == |flags|
  {
    PickedTo(s, flags, |s|)
  }

  function Mismatches(a: string, b: string): (t: nat)
    requires |a| == |b|
    ensures t <= |a|
    ensures t == 0 <==> a == b
  {
    if a == [] then 0
    else
      var last := |a| - 1;
      assert a == a[..last] + [a[last]] && b == b[..last] + [b[last]];
      Mismatches(a[..last], b[..last]) + if a[last] != b[last] then 1 else 0
  }

  lemma {:induction false} PickedToSize(s: string, flags: seq<bool>, n: nat, part: set<nat>)
    requires n <= |s| == |flags| && forall i: nat :: i in part <==> i < n && flags[i]
    ensures |PickedTo(s, flags, n)| == |part|
  {
    if n == 0 {
      assert part == {};
    } else if flags[n - 1] {
      PickedToSize(s, flags, n - 1, part - {n - 1});
    } else {
      PickedToSize(s, flags, n - 1, part);
    }
  }

  lemma PickedSize(s: string, chosen: set<nat>)
    requires forall i :: i in chosen ==> i < |s|
    ensures |Picked(s, Flags(|s|, chosen))| == |chosen|
  {
    PickedToSize(s, Flags(|s|, chosen), |s|, chosen);
  }

  lemma {:induction false} PickedToShorter(s: string, flags: seq<bool>, n: nat)
    requires n <= |s| == |flags|
    ensures |PickedTo(s, flags, n)| <= n
  {
    if n > 0 {
      PickedToShorter(s, flags, n - 1);
    }
  }

  lemma {:induction false} PickedToAll(s: string, flags: seq<bool>, n: nat)
    requires n <= |s| == |flags| && |PickedTo(s, flags, n)| == n
    ensures PickedTo(s, flags, n) == s[..n]
  {
    if n > 0 {
      PickedToShorter(s, flags, n - 1);
      PickedToAll(s, flags, n - 1);
      assert s[..n] == s[..n - 1] + [s[n - 1]];
    }
  }

  lemma PickedAll(s: string, flags: seq<bool>)
    requires |s| == |flags| == |Picked(s, flags)|
    ensures Picked(s, flags) == s
  {
    PickedToAll(s, flags, |s|);
    assert s[..|s|] == s;
  }

  lemma PickedShorter(s: string, flags: seq<bool>)
    requires |s| == |flags|
    ensures |Picked(s, flags)| <= |s|
  {
    PickedToShorter(s, flags, |s|);
  }

  function MatchCount(s1: string, s2: string): nat {
    |Greedy(s1, s2, |s1|)|
  }

  function MatchedInFirst(s1: string, s2: string): string {
    Picked(s1, Flags(|s1|, Greedy(s1, s2, |s1|).Keys))
  }

  function MatchedInSecond(s1: string, s2: string): string {
    Picked(s2, Flags(|s2|, Greedy(s1, s2, |s1|).Values))
  }

  /** Both flag arrays hold exactly as many trues as there are matches. */
  lemma MatchedSizes(s1: string, s2: string)
    ensures |MatchedInFirst(s1, s2)| == MatchCount(s1, s2) == |MatchedInSecond(s1, s2)|
  {
    var g := Greedy(s1, s2, |s1|);
    GreedyRows(s1, s2, |s1|);
    GreedyIsMatching(s1, s2, |s1|);
    PickedSize(s1, g.Keys);
    forall j | j in g.Values
      ensures j < |s2|
    {
      assert exists i :: i in g && g[i] == j && Compatible(s1, s2, i, g[i]);
    }
    PickedSize(s2, g.Values);
    assert |g| == |g.Keys|;
  }

  /** The matched characters that sit out of order; half of them is the transposition count. */
  function OutOfOrder(s1: string, s2: string): nat {
    MatchedSizes(s1, s2);
    Mismatches(MatchedInFirst(s1, s2), MatchedInSecond(s1, s2))
  }

  function Score(len1: nat, len2: nat, matches: nat, outOfOrder: nat): real
    requires len1 > 0 && len2 > 0 && matches > 0
  {
    var m, transpositions := matches as real, outOfOrder as real / 2.0;
    (m / len1 as real + m / len2 as real + (m - transpositions) / m) / 3.0
  }

  function JaroScore(s1: string, s2: string): real {
    if s1 == s2 then 1.0
    else
      if |s1| == 0 || |s2| == 0 || MatchCount(s1, s2) == 0 then 0.0
      else Score(|s1|, |s2|, MatchCount(s1, s2), OutOfOrder(s1, s2))
  }

  // ----- the loops

  lemma FirstFreeIs(s1: string, s2: string, taken: set<nat>, i: nat, r: nat)
    requires i < |s1| && r <= |s2|
    requires r < |s2| ==> Compatible(s1, s2, i, r) && r !in taken
    requires forall k: nat :: k < r ==> !Compatible(s1, s2, i, k) || k in taken
    ensures FirstFree(s1, s2, taken, i, 0) == r
  {
    var f := FirstFree(s1, s2, taken, i, 0);
    assert !(f < r) && !(r < f);
  }

  /** The flagged positions. */
  function Taken(flags: seq<bool>): set<nat> {
    set j: nat | j < |flags| && flags[j]
  }

  lemma TakenOfFlags(n: nat, chosen: set<nat>)
    requires forall j: nat :: j in chosen ==> j < n
    ensures Taken(Flags(n, chosen)) == chosen
  {
  }

  /** The inner matching loop for row i: the first unflagged equal character inside the window. */
  method FindMatch(s1: string, s2: string, i: nat, flags2: array<bool>) returns (r: nat)
    requires i < |s1| && flags2.Length == |s2|
    ensures r == FirstFree(s1, s2, Taken(flags2[..]), i, 0)
  {
    ghost var taken := Taken(flags2[..]);
    var w := MatchWindow(s1, s2);
    var j := Max(0, i - w);
    var end := Min(i + w + 1, |s2|);
    while j < end
      invariant 0 <= j
      invariant forall k: nat :: k < j && k < |s2| ==> !Compatible(s1, s2, i, k) || k in taken
      decreases end - j
    {
      if !flags2[j] && s1[i] == s2[j] {
        FirstFreeIs(s1, s2, taken, i, j);
        return j;
      }
      j := j + 1;
    }
    FirstFreeIs(s1, s2, taken, i, |s2|);
    r := |s2|;
  }

  lemma GreedyGrows(s1: string, s2: string, i: nat, g: Matching, j: nat)
    requires i < |s1| && g == Greedy(s1, s2, i) && j == FirstFree(s1, s2, g.Values, i, 0)
    ensures var g' := Greedy(s1, s2, i + 1);
      if j < |s2| then g' == g[i := j] && g'.Keys == g.Keys + {i} && g'.Values == g.Values + {j} && |g'| == |g| + 1
      else g' == g
  {
    if j < |s2| {
      GreedyRows(s1, s2, i);
      AddKey(g, i, j);
    }
  }

  lemma FlagsExtend(n: nat, flags: seq<bool>, chosen: set<nat>, i: nat)
    requires flags == Flags(n, chosen) && i < n
    ensures flags[i := true] == Flags(n, chosen + {i})
  {
  }

  /** One turn of the first loop: flag row i and its column, if it has one. */
  method FlagRow(s1: string, s2: string, i: nat, flags1: array<bool>, flags2: array<bool>) returns (matched: bool)
    requires i < |s1| && flags1.Length == |s1| && flags2.Length == |s2| && flags1 != flags2
    requires flags1[..] == Flags(|s1|, Greedy(s1, s2, i).Keys) && flags2[..] == Flags(|s2|, Greedy(s1, s2, i).Values)
    modifies flags1, flags2
    ensures var g, g' := Greedy(s1, s2, i), Greedy(s1, s2, i + 1);
      && |g'| == |g| + (if matched then 1 else 0)
      && flags1[..] == Flags(|s1|, g'.Keys)
      && flags2[..] == Flags(|s2|, g'.Values)
  {
    ghost var g := Greedy(s1, s2, i);
    ghost var f1, f2 := flags1[..], flags2[..];
    GreedyValues(s1, s2, i);
    TakenOfFlags(|s2|, g.Values);
    var j := FindMatch(s1, s2, i, flags2);
    GreedyGrows(s1, s2, i, g, j);
    matched := j < |s2|;
    if matched {
      flags1[i] := true;
      flags2[j] := true;
      assert flags1[..] == f1[i := true] && flags2[..] == f2[j := true];
      FlagsExtend(|s1|, f1, g.Keys, i);
      FlagsExtend(|s2|, f2, g.Values, j);
    }
  }

  lemma GreedyValues(s1: string, s2: string, n: nat)
    requires n <= |s1|
    ensures forall j: nat :: j in Greedy(s1, s2, n).Values ==> j < |s2|
  {
    GreedyIsMatching(s1, s2, n);
  }

  /** The first loop of `jaro`: flag and count the matches. */
  method FlagMatches(s1: string, s2: string, flags1: array<bool>, flags2: array<bool>) returns (matches: nat)
    requires flags1.Length == |s1| && flags2.Length == |s2| && flags1 != flags2
    requires (forall i :: 0 <= i < |s1| ==> !flags1[i]) && (forall j :: 0 <= j < |s2| ==> !flags2[j])
    modifies flags1, flags2
    ensures matches == MatchCount(s1, s2)
    ensures flags1[..] == Flags(|s1|, Greedy(s1, s2, |s1|).Keys)
    ensures flags2[..] == Flags(|s2|, Greedy(s1, s2, |s1|).Values)
  {
    matches := 0;
    assert Greedy(s1, s2, 0) == map[];
    for i := 0 to |s1|
      invariant matches == |Greedy(s1, s2, i)|
      invariant flags1[..] == Flags(|s1|, Greedy(s1, s2, i).Keys) && flags2[..] == Flags(|s2|, Greedy(s1, s2, i).Values)
    {
      var matched := FlagRow(s1, s2, i, flags1, flags2);
      if matched {
        matches := matches + 1;
      }
    }
  }

  /** When no flag is left from k on, nothing more is picked. */
  lemma {:induction false} PickedStays(s: string, flags: seq<bool>, k: nat, n: nat)
    requires k <= n <= |s| == |flags| && forall j :: k <= j < n ==> !flags[j]
    ensures PickedTo(s, flags, n) == PickedTo(s, flags, k)
    decreases n
  {
    if k < n {
      PickedStays(s, flags, k, n - 1);
    }
  }

  lemma {:induction false} PickedGrows(s: string, flags: seq<bool>, k: nat, n: nat)
    requires k <= n <= |s| == |flags|
    ensures |PickedTo(s, flags, k)| <= |PickedTo(s, flags, n)|
    ensures |PickedTo(s, flags, k)| == |PickedTo(s, flags, n)| ==> PickedTo(s, flags, k) == PickedTo(s, flags, n)
    decreases n
  {
    if k < n {
      PickedGrows(s, flags, k, n - 1);
    }
  }

  /** The second loop of `jaro`: walk both flag arrays in step. The inner search for the next flag
      never runs off the end, because both arrays flag equally many characters. */
  method CountOutOfOrder(s1: string, s2: string, flags1: array<bool>, flags2: array<bool>) returns (count: nat)
    requires flags1.Length == |s1| && flags2.Length == |s2|
    requires |Picked(s1, flags1[..])| == |Picked(s2, flags2[..])|
    ensures count == Mismatches(Picked(s1, flags1[..]), Picked(s2, flags2[..]))
  {
    ghost var f1, f2 := flags1[..], flags2[..];
    count := 0;
    var k := 0;
    ghost var a, b := "", "";
    for i := 0 to |s1|
      invariant 0 <= k <= |s2| && |a| == |b|
      invariant a == PickedTo(s1, f1, i) && b == PickedTo(s2, f2, k)
      invariant count == Mismatches(a, b)
    {
      if !flags1[i] {
        continue;
      }
      FlagRemains(s1, s2, f1, f2, i, k);
      var next := NextFlagged(s2, flags2, k);
      PickedStays(s2, f2, k, next);
      k := next;
      MismatchesGrow(a, b, s1[i], s2[k]);
      if s1[i] != s2[k] {
        count := count + 1;
      }
      a, b, k := a + [s1[i]], b + [s2[k]], k + 1;
    }
    PickedGrows(s2, f2, k, |s2|);
  }

  lemma MismatchesGrow(a: string, b: string, x: char, y: char)
    requires |a| == |b|
    ensures Mismatches(a + [x], b + [y]) == Mismatches(a, b) + if x != y then 1 else 0
  {
    assert (a + [x])[..|a|] == a && (b + [y])[..|b|] == b;
  }

  lemma FlagRemains(s1: string, s2: string, f1: seq<bool>, f2: seq<bool>, i: nat, k: nat)
    requires |f1| == |s1| && |f2| == |s2| && i < |s1| && k <= |s2| && f1[i]
    requires |Picked(s1, f1)| == |Picked(s2, f2)| && |PickedTo(s1, f1, i)| == |PickedTo(s2, f2, k)|
    ensures exists j :: k <= j < |s2| && f2[j]
  {
    PickedGrows(s1, f1, i + 1, |s1|);
    if forall j :: k <= j < |s2| ==> !f2[j] {
      PickedStays(s2, f2, k, |s2|);
    }
  }

  method NextFlagged(s2: string, flags2: array<bool>, from: nat) returns (k: nat)
    requires flags2.Length == |s2| && exists j :: from <= j < |s2| && flags2[j]
    ensures from <= k < |s2| && flags2[k] && forall j :: from <= j < k ==> !flags2[j]
  {
    ghost var last: nat :| from <= last < |s2| && flags2[last];
    k := from;
    while !flags2[k]
      invariant from <= k <= last && forall j :: from <= j < k ==> !flags2[j]
      decreases last - k
    {
      k := k + 1;
    }
  }

  /** `jaro`, as its loops compute it. */
  method Jaro(s1: string, s2: string) returns (score: real)
    ensures score == JaroScore(s1, s2)
  {
    if s1 == s2 {
      return 1.0;
    }
    if |s1| == 0 || |s2| == 0 {
      return 0.0;
    }
    var flags1 := new bool[|s1|](_ => false);
    var flags2 := new bool[|s2|](_ => false);
    var matches := FlagMatches(s1, s2, flags1, flags2);
    if matches == 0 {
      return 0.0;
    }
    MatchedSizes(s1, s2);
    var outOfOrder := CountOutOfOrder(s1, s2, flags1, flags2);
    score := Score(|s1|, |s2|, matches, outOfOrder);
  }

  // ----- Winkler's prefix bonus

  /** How far the strings agree from position i on, up to `end`. */
  function AgreeUntil(s1: string, s2: string, i: nat, end: int): (n: nat)
    requires end <= |s1| && end <= |s2|
    decreases end - i
    ensures n == i || i < n <= end
    ensures forall k :: i <= k < n ==> s1[k] == s2[k]
  {
    if i < end && s1[i] == s2[i] then AgreeUntil(s1, s2, i + 1, end) else i
  }

  function CommonPrefix(s1: string, s2: string, cap: int): nat {
    AgreeUntil(s1, s2, 0, Min(cap, Min(|s1|, |s2|)))
  }

  function WithBonus(j: real, common: nat, prefixScale: real): real {
    if j == 0.0 then 0.0 else j + common as real * prefixScale * (1.0 - j)
  }

  function JaroWinklerScore(s1: string, s2: string, prefixScale: real, prefixCap: int): real {
    WithBonus(JaroScore(s1, s2), CommonPrefix(s1, s2, prefixCap), prefixScale)
  }

  method JaroWinkler(s1: string, s2: string, prefixScale: real, prefixCap: int) returns (score: real)
    ensures score == JaroWinklerScore(s1, s2, prefixScale, prefixCap)
  {
    var j := Jaro(s1, s2);
    var common := 0;
    var max := Min(prefixCap, Min(|s1|, |s2|));
    while common < max && s1[common] == s2[common]
      invariant 0 <= common && (common <= max || common == 0)
      invariant AgreeUntil(s1, s2, common, max) == AgreeUntil(s1, s2, 0, max)
    {
      common := common + 1;
    }
    score := WithBonus(j, common, prefixScale);
  }

  // ----- what the scores guarantee

  lemma {:induction false} MismatchesSymmetric(a: string, b: string)
    requires |a| == |b|
    ensures Mismatches(a, b) == Mismatches(b, a)
  {
    if a != [] {
      MismatchesSymmetric(a[..|a| - 1], b[..|b| - 1]);
    }
  }

  lemma InverseSides(m: Matching, r: Matching)
    requires Inverse(m, r)
    ensures m.Keys == r.Values && m.Values == r.Keys
  {
    forall i | i in m.Keys
      ensures i in r.Values
    {
      assert r[m[i]] == i;
    }
  }

  lemma MatchedSidesSwap(s1: string, s2: string)
    ensures MatchCount(s1, s2) == MatchCount(s2, s1)
    ensures MatchedInFirst(s1, s2) == MatchedInSecond(s2, s1) && MatchedInSecond(s1, s2) == MatchedInFirst(s2, s1)
  {
    GreedySymmetric(s1, s2);
    InverseSides(Greedy(s1, s2, |s1|), Greedy(s2, s1, |s2|));
    MatchedSizes(s1, s2);
    MatchedSizes(s2, s1);
  }

  lemma ScoreSymmetric(len1: nat, len2: nat, m: nat, t: nat)
    requires len1 > 0 && len2 > 0 && m > 0
    ensures Score(len1, len2, m, t) == Score(len2, len1, m, t)
  {
  }

  /** Similarity does not depend on which string comes first, and neither does the match count. */
  lemma JaroSymmetric(s1: string, s2: string)
    ensures MatchCount(s1, s2) == MatchCount(s2, s1)
    ensures JaroScore(s1, s2) == JaroScore(s2, s1)
  {
    MatchedSidesSwap(s1, s2);
    MatchedSizes(s1, s2);
    MismatchesSymmetric(MatchedInFirst(s1, s2), MatchedInSecond(s1, s2));
    assert OutOfOrder(s1, s2) == OutOfOrder(s2, s1);
    if |s1| > 0 && |s2| > 0 && MatchCount(s1, s2) > 0 {
      ScoreSymmetric(|s1|, |s2|, MatchCount(s1, s2), OutOfOrder(s1, s2));
    }
  }

  /** The score of m matches, t of them out of order, lies above 0 and reaches 1 only when everything
      is matched in order. */
  lemma ScoreBounds(len1: nat, len2: nat, m: nat, t: nat)
    requires 0 < m && t <= m <= len1 && m <= len2
    ensures 0.0 < Score(len1, len2, m, t) <= 1.0
    ensures Score(len1, len2, m, t) == 1.0 ==> m == len1 == len2 && t == 0
  {
    var a, b, c := m as real / len1 as real, m as real / len2 as real, (m as real - t as real / 2.0) / m as real;
    RatioBounds(m as real, len1 as real);
    RatioBounds(m as real, len2 as real);
    RatioBounds(m as real - t as real / 2.0, m as real);
  }

  lemma RatioBounds(x: real, y: real)
    requires 0.0 < x <= y
    ensures 0.0 < x / y <= 1.0
    ensures x / y == 1.0 ==> x == y
  {
    assert x / y * y == x;
  }

  /** Both scores lie in [0, 1], and 1 means the strings are equal. */
  lemma JaroBounds(s1: string, s2: string)
    ensures 0.0 <= JaroScore(s1, s2) <= 1.0
    ensures JaroScore(s1, s2) == 1.0 <==> s1 == s2
  {
    var m := MatchCount(s1, s2);
    if s1 != s2 && |s1| > 0 && |s2| > 0 && m > 0 {
      MatchedSizes(s1, s2);
      var g := Greedy(s1, s2, |s1|);
      PickedShorter(s1, Flags(|s1|, g.Keys));
      PickedShorter(s2, Flags(|s2|, g.Values));
      ScoreBounds(|s1|, |s2|, m, OutOfOrder(s1, s2));
      if m == |s1| == |s2| && OutOfOrder(s1, s2) == 0 {
        PickedAll(s1, Flags(|s1|, g.Keys));
        PickedAll(s2, Flags(|s2|, g.Values));
        assert false;
      }
    }
  }

  lemma Monotone(a: real, b: real, c: real)
    requires a <= b && 0.0 <= c
    ensures a * c <= b * c
  {
  }

  lemma PrefixBonus(n: real, cap: real, prefixScale: real)
    requires 0.0 <= n <= cap && 0.0 <= prefixScale && cap * prefixScale < 1.0
    ensures 0.0 <= n * prefixScale < 1.0
  {
    var x, y := n * prefixScale, cap * prefixScale;
    assert x <= y by { Monotone(n, cap, prefixScale); }
    assert 0.0 <= x by { Monotone(0.0, n, prefixScale); }
    assert x < 1.0;
  }

  lemma BonusBounds(j: real, bonus: real)
    requires 0.0 <= j <= 1.0 && 0.0 <= bonus < 1.0
    ensures j <= j + bonus * (1.0 - j) <= 1.0
    ensures j + bonus * (1.0 - j) == 1.0 <==> j == 1.0
  {
    var rest, gap := 1.0 - j, 1.0 - bonus;
    Monotone(bonus, 1.0, rest);
    Monotone(0.0, bonus, rest);
    if j < 1.0 {
      assert gap * rest > 0.0;
      assert j + bonus * rest == 1.0 - gap * rest;
    }
  }

  lemma WithBonusBounds(j: real, common: nat, prefixScale: real, prefixCap: nat)
    requires 0.0 <= j <= 1.0 && common <= prefixCap
    requires 0.0 <= prefixScale && prefixCap as real * prefixScale < 1.0
    ensures j <= WithBonus(j, common, prefixScale) <= 1.0
    ensures WithBonus(j, common, prefixScale) == 1.0 <==> j == 1.0
  {
    PrefixBonus(common as real, prefixCap as real, prefixScale);
    BonusBounds(j, common as real * prefixScale);
  }

  /** With the defaults (scale 0.1, cap 4), and with any scale and cap whose product stays below 1,
      the prefix bonus never lowers the score, never lifts it past 1, never invents an identity, and
      leaves the score symmetric. */
  lemma JaroWinklerBounds(s1: string, s2: string, prefixScale: real, prefixCap: nat)
    requires 0.0 <= prefixScale && prefixCap as real * prefixScale < 1.0
    ensures JaroScore(s1, s2) <= JaroWinklerScore(s1, s2, prefixScale, prefixCap) <= 1.0
    ensures JaroWinklerScore(s1, s2, prefixScale, prefixCap) == 1.0 <==> s1 == s2
  {
    JaroBounds(s1, s2);
    WithBonusBounds(JaroScore(s1, s2), CommonPrefix(s1, s2, prefixCap), prefixScale, prefixCap);
  }

  lemma {:induction false} AgreeSymmetric(s1: string, s2: string, i: nat, end: int)
    requires end <= |s1| && end <= |s2|
    ensures AgreeUntil(s1, s2, i, end) == AgreeUntil(s2, s1, i, end)
    decreases end - i
  {
    if i < end && s1[i] == s2[i] {
      AgreeSymmetric(s1, s2, i + 1, end);
    }
  }

  lemma JaroWinklerSymmetric(s1: string, s2: string, prefixScale: real, prefixCap: int)
    ensures JaroWinklerScore(s1, s2, prefixScale, prefixCap) == JaroWinklerScore(s2, s1, prefixScale, prefixCap)
  {
    JaroSymmetric(s1, s2);
    AgreeSymmetric(s1, s2, 0, Min(prefixCap, Min(|s1|, |s2|)));
  }

  // ----- exact scores

  /** The characters at i and i + 1 exchanged. */
  function Exchanged(s: string, i: nat): (t: string)
    requires i + 1 < |s|
    ensures |t| == |s|
  {
    s[..i] + [s[i + 1], s[i]] + s[i + 2..]
  }

  /** Where the exchange takes a position. */
  function Other(i: nat, k: nat): nat {
    if k == i then i + 1 else if k == i + 1 then i else k
  }

  lemma ExchangedAt(s: string, i: nat, k: nat)
    requires i + 1 < |s| && k < |s|
    ensures Other(i, k) < |s| && Exchanged(s, i)[k] == s[Other(i, k)]
  {
  }

  ghost predicate Different(s: string) {
    forall i, j :: 0 <= i < j < |s| ==> s[i] != s[j]
  }

  /** Row k has one column it can be matched to. */
  lemma OnlyColumn(s: string, i: nat, k: nat, j: nat)
    requires Different(s) && |s| >= 4 && i + 1 < |s| && k < |s|
    ensures Compatible(s, Exchanged(s, i), k, j) <==> j == Other(i, k)
  {
    if j < |s| {
      ExchangedAt(s, i, j);
    }
  }

  ghost predicate IsBelow(a: set<nat>, n: nat) {
    forall k: nat :: k in a <==> k < n
  }

  lemma {:induction false} BelowSize(a: set<nat>, n: nat)
    requires IsBelow(a, n)
    ensures |a| == n
  {
    if n == 0 {
      assert a == {};
    } else {
      BelowSize(a - {n - 1}, n - 1);
    }
  }

  /** The first n rows are matched to the places the exchange takes them to. */
  ghost predicate Exchanges(m: Matching, i: nat, n: nat) {
    IsBelow(m.Keys, n) && forall k :: k in m ==> m[k] == Other(i, k)
  }

  lemma {:induction false} GreedyExchanges(s: string, i: nat, n: nat)
    requires Different(s) && |s| >= 4 && i + 1 < |s| && n <= |s|
    ensures Exchanges(Greedy(s, Exchanged(s, i), n), i, n)
  {
    if n > 0 {
      var t, row := Exchanged(s, i), n - 1;
      var g := Greedy(s, t, row);
      GreedyExchanges(s, i, row);
      RowExchanges(s, i, row, g);
      GreedyGrows(s, t, row, g, Other(i, row));
      OneMoreExchange(g, i, row, Other(i, row));
    }
  }

  lemma OneMoreExchange(m: Matching, i: nat, row: nat, j: nat)
    requires Exchanges(m, i, row) && j == Other(i, row)
    ensures Exchanges(m[row := j], i, row + 1)
  {
  }

  lemma RowExchanges(s: string, i: nat, row: nat, g: Matching)
    requires Different(s) && |s| >= 4 && i + 1 < |s| && row < |s| && Exchanges(g, i, row)
    ensures FirstFree(s, Exchanged(s, i), g.Values, row, 0) == Other(i, row) < |s|
  {
    var t := Exchanged(s, i);
    forall k: nat
      ensures Compatible(s, t, row, k) <==> k == Other(i, row)
    {
      OnlyColumn(s, i, row, k);
    }
    FirstFreeIs(s, t, g.Values, row, Other(i, row));
  }

  lemma ExchangeIsOnto(m: Matching, i: nat, n: nat)
    requires i + 1 < n && Exchanges(m, i, n)
    ensures IsBelow(m.Values, n)
  {
    forall j: nat
      ensures j in m.Values <==> j < n
    {
      if j < n {
        assert m[Other(i, j)] == j;
      }
    }
  }

  lemma {:induction false} MismatchesSame(a: string, b: string, n: nat)
    requires n <= |a| == |b| && forall k :: n <= k < |a| ==> a[k] == b[k]
    ensures Mismatches(a, b) == Mismatches(a[..n], b[..n])
    decreases |a|
  {
    if n == |a| {
      assert a[..n] == a && b[..n] == b;
    } else {
      var m := |a| - 1;
      MismatchesSame(a[..m], b[..m], n);
      assert a[..m][..n] == a[..n] && b[..m][..n] == b[..n];
    }
  }

  lemma MismatchesStep(a: string, b: string, k: nat)
    requires k < |a| == |b|
    ensures Mismatches(a[..k + 1], b[..k + 1]) == Mismatches(a[..k], b[..k]) + if a[k] != b[k] then 1 else 0
  {
    assert a[..k + 1][..k] == a[..k] && b[..k + 1][..k] == b[..k];
  }

  lemma TwoOutOfPlace(s: string, t: string, i: nat)
    requires |s| == |t| && i + 1 < |s| && s[i] != t[i] && s[i + 1] != t[i + 1]
    requires forall k :: 0 <= k < |s| && k != i && k != i + 1 ==> s[k] == t[k]
    ensures Mismatches(s, t) == 2
  {
    var j := i + 1;
    MismatchesSame(s, t, j + 1);
    MismatchesStep(s, t, j);
    MismatchesStep(s, t, i);
    assert s[..i] == t[..i];
  }

  lemma TwoMismatches(s: string, i: nat)
    requires Different(s) && i + 1 < |s|
    ensures Mismatches(s, Exchanged(s, i)) == 2
  {
    forall k: nat | k < |s|
      ensures Exchanged(s, i)[k] == s[Other(i, k)]
    {
      ExchangedAt(s, i, k);
    }
    TwoOutOfPlace(s, Exchanged(s, i), i);
  }

  /** Everything is matched, two characters out of order. */
  lemma ExchangedMatches(s: string, i: nat)
    requires Different(s) && |s| >= 4 && i + 1 < |s|
    ensures MatchCount(s, Exchanged(s, i)) == |s| && OutOfOrder(s, Exchanged(s, i)) == 2
  {
    var t, g := Exchanged(s, i), Greedy(s, Exchanged(s, i), |s|);
    GreedyExchanges(s, i, |s|);
    ExchangeIsOnto(g, i, |s|);
    BelowSize(g.Keys, |s|);
    assert |g| == |g.Keys|;
    MatchedSizes(s, t);
    PickedAll(s, Flags(|s|, g.Keys));
    PickedAll(t, Flags(|s|, g.Values));
    TwoMismatches(s, i);
  }

  lemma ExchangedScore(n: nat)
    requires n > 0
    ensures Score(n, n, n, 2) == 1.0 - 1.0 / (3.0 * n as real)
  {
    var x := n as real;
    assert x / x == 1.0;
    assert (x - 1.0) / x == 1.0 - 1.0 / x;
    assert 1.0 / (3.0 * x) == 1.0 / x / 3.0;
  }

  /** Exchanging two neighbours in a string of n >= 4 different characters scores exactly 1 - 1/(3n). */
  lemma NeighboursExchanged(s: string, i: nat)
    requires Different(s) && |s| >= 4 && i + 1 < |s|
    ensures JaroScore(s, Exchanged(s, i)) == 1.0 - 1.0 / (3.0 * |s| as real)
  {
    ExchangedMatches(s, i);
    ExchangedScore(|s|);
    ExchangedAt(s, i, i);
  }

  lemma AgreesExactly(s1: string, s2: string, i: nat, end: int, n: nat)
    requires end <= |s1| && end <= |s2| && i <= n && (n <= end || n == i)
    requires (forall k :: i <= k < n ==> s1[k] == s2[k]) && (n < end ==> s1[n] != s2[n])
    ensures AgreeUntil(s1, s2, i, end) == n
    decreases n - i
  {
    if i < n {
      AgreesExactly(s1, s2, i + 1, end, n);
    }
  }

  lemma ExchangedPrefix(s: string, i: nat, cap: nat)
    requires Different(s) && i + 1 < |s|
    ensures CommonPrefix(s, Exchanged(s, i), cap) == if i < cap then i else cap
  {
    var end := Min(cap, |s|);
    forall k: nat | k < |s|
      ensures Exchanged(s, i)[k] == s[Other(i, k)]
    {
      ExchangedAt(s, i, k);
    }
    AgreesExactly(s, Exchanged(s, i), 0, end, Min(i, end));
  }

  /** With the service's own scale and cap, each of the first four characters before the exchange takes a tenth
      off what is missing to 1. */
  lemma NeighboursExchangedWinkler(s: string, i: nat)
    requires Different(s) && |s| >= 4 && i + 1 < |s|
    ensures JaroWinklerScore(s, Exchanged(s, i), 0.1, 4)
      == 1.0 - (1.0 - (if i < 4 then i else 4) as real / 10.0) / (3.0 * |s| as real)
  {
    var n, common := |s| as real, if i < 4 then i else 4;
    NeighboursExchanged(s, i);
    ExchangedPrefix(s, i, 4);
    BonusOnMissing(common, n, JaroScore(s, Exchanged(s, i)));
  }

  lemma BonusOnMissing(common: nat, n: real, j: real)
    requires n >= 4.0 && j == 1.0 - 1.0 / (3.0 * n)
    ensures WithBonus(j, common, 0.1) == 1.0 - (1.0 - common as real / 10.0) / (3.0 * n)
  {
    var missing := 1.0 / (3.0 * n);
    assert missing * (3.0 * n) == 1.0;
    assert missing < 1.0;
    BonusOnRest(missing, common as real, n);
  }


  lemma BonusOnRest(rest: real, p: real, n: real)
    requires n > 0.0 && rest == 1.0 / (3.0 * n)
    ensures (1.0 - rest) + p * 0.1 * (1.0 - (1.0 - rest)) == 1.0 - (1.0 - p / 10.0) / (3.0 * n)
  {
    var x := 1.0 - p / 10.0;
    assert x / (3.0 * n) == x * rest by { TimesReciprocal(x, 3.0 * n); }
  }

  lemma TimesReciprocal(x: real, d: real)
    requires d > 0.0
    ensures x / d == x * (1.0 / d)
  {
    assert x / d * d == x && 1.0 / d * d == 1.0;
  }

  // ----- a string and its own beginning

  lemma RowInPlace(s1: string, s2: string, taken: set<nat>, row: nat)
    requires s1 <= s2 && row < |s1| && IsBelow(taken, row)
    ensures FirstFree(s1, s2, taken, row, 0) == row
  {
    assert Compatible(s1, s2, row, row);
    FirstFreeIs(s1, s2, taken, row, row);
  }

  /** Each row of a string that begins the other is matched to its own place. */
  lemma {:induction false} GreedyInPlace(s1: string, s2: string, n: nat)
    requires s1 <= s2 && n <= |s1|
    ensures IsBelow(Greedy(s1, s2, n).Keys, n) && IsBelow(Greedy(s1, s2, n).Values, n)
  {
    if n > 0 {
      GreedyInPlace(s1, s2, n - 1);
      OneRowInPlace(s1, s2, n - 1, Greedy(s1, s2, n - 1), Greedy(s1, s2, n));
    }
  }

  lemma OneRowInPlace(s1: string, s2: string, row: nat, g: Matching, g': Matching)
    requires s1 <= s2 && row < |s1| && g == Greedy(s1, s2, row) && g' == Greedy(s1, s2, row + 1)
    requires IsBelow(g.Keys, row) && IsBelow(g.Values, row)
    ensures IsBelow(g'.Keys, row + 1) && IsBelow(g'.Values, row + 1)
  {
    RowInPlace(s1, s2, g.Values, row);
    GreedyGrows(s1, s2, row, g, row);
    OneMoreBelow(g.Keys, g'.Keys, row);
    OneMoreBelow(g.Values, g'.Values, row);
  }

  lemma OneMoreBelow(a: set<nat>, b: set<nat>, n: nat)
    requires IsBelow(a, n) && b == a + {n}
    ensures IsBelow(b, n + 1)
  {
  }

  lemma {:induction false} PickedBelow(s: string, flags: seq<bool>, n: nat, k: nat)
    requires n <= |s| == |flags| && k <= |s| && forall j :: 0 <= j < |flags| ==> flags[j] == (j < n)
    ensures PickedTo(s, flags, k) == s[..Min(k, n)]
  {
    if k > 0 {
      PickedBelow(s, flags, n, k - 1);
      if k <= n {
        assert s[..k] == s[..k - 1] + [s[k - 1]];
      }
    }
  }

  lemma PrefixMatches(s1: string, s2: string)
    requires s1 <= s2
    ensures MatchCount(s1, s2) == |s1| && OutOfOrder(s1, s2) == 0
  {
    var g := Greedy(s1, s2, |s1|);
    GreedyInPlace(s1, s2, |s1|);
    BelowSize(g.Keys, |s1|);
    assert |g| == |g.Keys|;
    MatchedSizes(s1, s2);
    PickedAll(s1, Flags(|s1|, g.Keys));
    PickedBelow(s2, Flags(|s2|, g.Values), |s1|, |s2|);
  }

  lemma PrefixRatio(m: nat, n: nat)
    requires 0 < m <= n
    ensures Score(m, n, m, 0) == (2.0 + m as real / n as real) / 3.0
  {
    assert m as real / m as real == 1.0;
  }

  /** A string and a proper beginning of it score exactly two thirds and a third of the ratio of their
      lengths. */
  lemma BeginningScore(s1: string, s2: string)
    requires s1 != "" && s1 < s2
    ensures JaroScore(s1, s2) == (2.0 + |s1| as real / |s2| as real) / 3.0
  {
    PrefixMatches(s1, s2);
    PrefixRatio(|s1|, |s2|);
  }
}
