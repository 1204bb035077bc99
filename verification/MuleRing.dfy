/** The mule-ring scanner (modules/network-graph/scanner.js): a capped backtracking search for simple
    payment cycles, over the edges that a breadth-first walk collected. */
module MuleRing {

  type Key = string

  datatype Edge = Edge(from: Key, to: Key, amount: int, currency: string)

  datatype Ring = Ring(path: seq<Key>, edges: seq<Edge>)

  /** The outgoing edges of every account. */
  type Graph = Key -> seq<Edge>

  const CYCLE_CAP := 5
  const EDGE_CAP := 200
  const DEFAULT_MAX_DEPTH := 5

  predicate Within5Pct(a: int, b: int) {
    && a != 0
    && b != 0
    && var diff, larger := if a > b then a - b else b - a, if a > b then a else b;
       diff * 20 <= larger
  }

  /** Every later amount is within 5% of the first. */
  predicate Aligned(edges: seq<Edge>) {
    && |edges| >= 2
    && forall i :: 1 <= i < |edges| ==> Within5Pct(edges[0].amount, edges[i].amount)
  }

  /** Both are above zero, and the smaller is at least nineteen twentieths of the larger. */
  lemma WithinExactly(a: int, b: int)
    ensures Within5Pct(a, b) <==> CloseAmounts(a, b)
  {
  }

  /** Being within 5% of the first amount bounds every pair: y is at least 90.25% of x. */
  lemma AlignedPairs(edges: seq<Edge>, i: nat, j: nat)
    requires Aligned(edges) && i < |edges| && j < |edges|
    ensures edges[i].amount > 0
    ensures 400 * edges[i].amount >= 361 * edges[j].amount
  {
    assert Within5Pct(edges[0].amount, edges[1].amount);
    assert i > 0 ==> Within5Pct(edges[0].amount, edges[i].amount);
    assert j > 0 ==> Within5Pct(edges[0].amount, edges[j].amount);
  }

  // ----- which rings there are

  ghost predicate Distinct<T>(s: seq<T>) {
    forall i, j :: 0 <= i < j < |s| ==> s[i] != s[j]
  }

  /** The path follows edges of the graph. */
  ghost predicate Walks(graph: Graph, path: seq<Key>, edges: seq<Edge>) {
    && |path| == |edges| + 1
    && forall i :: 0 <= i < |edges| ==> edges[i] in graph(path[i]) && edges[i].to == path[i + 1]
  }

  /** A closed walk from `start` through 3 to maxDepth + 1 edges that repeats no other account and
      whose amounts are aligned. */
  ghost predicate IsRing(graph: Graph, start: Key, maxDepth: nat, r: Ring) {
    && 3 <= |r.edges| <= maxDepth + 1
    && Walks(graph, r.path, r.edges)
    && r.path[0] == start == r.path[|r.edges|]
    && Distinct(r.path[..|r.edges|])
    && Aligned(r.edges)
  }

  ghost predicate Follows(graph: Graph, path: seq<Key>, edges: seq<Edge>)
    requires |path| == |edges| + 1
  {
    forall i :: 0 <= i < |edges| ==> edges[i] in graph(path[i]) && edges[i].to == path[i + 1]
  }

  ghost predicate DifferentBefore(path: seq<Key>, n: nat)
    requires n <= |path|
  {
    forall i, j :: 0 <= i < j < n ==> path[i] != path[j]
  }

  predicate CloseAmounts(a: int, b: int) {
    a > 0 && b > 0 && 19 * a <= 20 * b && 19 * b <= 20 * a
  }

  predicate AllClose(edges: seq<Edge>) {
    forall i :: 1 <= i < |edges| ==> CloseAmounts(edges[0].amount, edges[i].amount)
  }

  lemma AlignedExactly(edges: seq<Edge>)
    ensures Aligned(edges) <==> |edges| >= 2 && AllClose(edges)
  {
    forall i | 1 <= i < |edges|
      ensures Within5Pct(edges[0].amount, edges[i].amount) <==> CloseAmounts(edges[0].amount, edges[i].amount)
    {
      WithinExactly(edges[0].amount, edges[i].amount);
    }
  }

  lemma DistinctBefore(path: seq<Key>, n: nat)
    requires n <= |path|
    ensures Distinct(path[..n]) <==> DifferentBefore(path, n)
  {
    assert forall i :: 0 <= i < n ==> path[..n][i] == path[i];
  }

  /** What the scanner looks for, in plain terms: three to six payments that lead from the account back to it
      over different accounts, each within 5% of the first. */
  lemma RingExactly(graph: Graph, start: Key, r: Ring)
    ensures IsRing(graph, start, DEFAULT_MAX_DEPTH, r) <==>
      && 3 <= |r.edges| <= 6 && |r.path| == |r.edges| + 1 && r.path[0] == start == r.path[|r.edges|]
      && Follows(graph, r.path, r.edges) && DifferentBefore(r.path, |r.edges|) && AllClose(r.edges)
  {
    AlignedExactly(r.edges);
    if |r.path| == |r.edges| + 1 {
      DistinctBefore(r.path, |r.edges|);
    }
  }

  /** The rings that the uncapped search finds below a path, in search order, using the last
      account's edges `next`. */
  ghost function RingsVia(graph: Graph, maxDepth: nat, path: seq<Key>, edges: seq<Edge>, next: seq<Edge>): seq<Ring>
    requires path != [] && |edges| <= maxDepth
    decreases maxDepth + 1 - |edges|, 1, |next|
  {
    if next == [] then []
    else
      var front, last := next[..|next| - 1], next[|next| - 1];
      RingsVia(graph, maxDepth, path, edges, front) + RingsBy(graph, maxDepth, path, edges, last)
  }

  ghost function RingsBy(graph: Graph, maxDepth: nat, path: seq<Key>, edges: seq<Edge>, e: Edge): seq<Ring>
    requires path != [] && |edges| <= maxDepth
    decreases maxDepth + 1 - |edges|, 0, 0
  {
    if e.to == path[0] && |edges| >= 2 then
      if Aligned(edges + [e]) then [Ring(path + [e.to], edges + [e])] else []
    else if e.to in path then []
    else RingsBelow(graph, maxDepth, path + [e.to], edges + [e])
  }

  ghost function RingsBelow(graph: Graph, maxDepth: nat, path: seq<Key>, edges: seq<Edge>): seq<Ring>
    requires path != [] && |edges| <= maxDepth + 1
    decreases maxDepth + 1 - |edges|, 2, 0
  {
    if |edges| > maxDepth then []
    else RingsVia(graph, maxDepth, path, edges, graph(path[|path| - 1]))
  }

  /** The search's prefix: a simple walk from its first account. */
  ghost predicate IsPrefix(graph: Graph, path: seq<Key>, edges: seq<Edge>) {
    Walks(graph, path, edges) && Distinct(path)
  }

  ghost predicate RingWith(graph: Graph, maxDepth: nat, path: seq<Key>, edges: seq<Edge>, r: Ring)
    requires path != []
  {
    IsRing(graph, path[0], maxDepth, r) && path <= r.path && edges <= r.edges && |edges| < |r.edges|
  }

  lemma DistinctAt<T>(s: seq<T>, i: nat, j: nat)
    requires Distinct(s) && i < j < |s|
    ensures s[i] != s[j]
  {
  }

  lemma RingsByComplete(graph: Graph, maxDepth: nat, path: seq<Key>, edges: seq<Edge>, e: Edge, r: Ring)
    requires IsPrefix(graph, path, edges) && |edges| <= maxDepth && e in graph(path[|edges|])
    requires RingWith(graph, maxDepth, path, edges, r) && r.edges[|edges|] == e
    ensures e.to in path ==> e.to == path[0] && |edges| >= 2 && r == Ring(path + [e.to], edges + [e])
    ensures e.to !in path ==> |edges| < maxDepth && RingWith(graph, maxDepth, path + [e.to], edges + [e], r)
  {
    var d := |edges|;
    assert r.path[d + 1] == e.to;
    assert r.path[..d + 1] == path && r.edges[..d + 1] == edges + [e];
    if e.to in path {
      var k :| 0 <= k < |path| && path[k] == e.to;
      assert r.path[k] == path[k];
      if d + 1 < |r.edges| {
        DistinctAt(r.path[..|r.edges|], k, d + 1);
        assert false;
      }
      assert r.path == path + [e.to] && r.edges == edges + [e];
    } else {
      assert d + 1 < |r.edges|;
      assert r.path[..d + 2] == path + [e.to];
    }
  }

  /** An edge back to the start, where the walk is long enough, closes a ring or nothing. */
  lemma RingsByClosing(graph: Graph, maxDepth: nat, path: seq<Key>, edges: seq<Edge>, e: Edge, r: Ring)
    requires IsPrefix(graph, path, edges) && 2 <= |edges| <= maxDepth && e in graph(path[|edges|]) && e.to == path[0]
    ensures r in RingsBy(graph, maxDepth, path, edges, e)
       <==> RingWith(graph, maxDepth, path, edges, r) && r.edges[|edges|] == e
  {
    var d := |edges|;
    if RingWith(graph, maxDepth, path, edges, r) && r.edges[d] == e {
      RingsByComplete(graph, maxDepth, path, edges, e, r);
    }
    if r in RingsBy(graph, maxDepth, path, edges, e) {
      assert r.path[..d + 1] == path;
    }
  }

  /** A ring that continues the longer path continues the path with that edge. */
  lemma RingWithShorter(graph: Graph, maxDepth: nat, path: seq<Key>, edges: seq<Edge>, e: Edge, r: Ring)
    requires path != [] && RingWith(graph, maxDepth, path + [e.to], edges + [e], r)
    ensures RingWith(graph, maxDepth, path, edges, r) && r.edges[|edges|] == e
  {
    assert r.edges[|edges|] == (edges + [e])[|edges|];
    assert path <= path + [e.to] && edges <= edges + [e];
  }

  /** Soundness and completeness of the search over one edge: it finds exactly the rings that
      continue the path with that edge. */
  lemma {:induction false} RingsByExact(graph: Graph, maxDepth: nat, path: seq<Key>, edges: seq<Edge>, e: Edge, r: Ring)
    requires IsPrefix(graph, path, edges) && |edges| <= maxDepth && e in graph(path[|edges|])
    ensures r in RingsBy(graph, maxDepth, path, edges, e)
       <==> RingWith(graph, maxDepth, path, edges, r) && r.edges[|edges|] == e
    decreases maxDepth + 1 - |edges|, 0, 0
  {
    if e.to == path[0] && |edges| >= 2 {
      RingsByClosing(graph, maxDepth, path, edges, e, r);
    } else {
      if RingWith(graph, maxDepth, path, edges, r) && r.edges[|edges|] == e {
        RingsByComplete(graph, maxDepth, path, edges, e, r);
      }
      if e.to !in path {
        RingsBelowExact(graph, maxDepth, path + [e.to], edges + [e], r);
        if RingWith(graph, maxDepth, path + [e.to], edges + [e], r) {
          RingWithShorter(graph, maxDepth, path, edges, e, r);
        }
      }
    }
  }

  lemma {:induction false} RingsViaExact(graph: Graph, maxDepth: nat, path: seq<Key>, edges: seq<Edge>,
      next: seq<Edge>, r: Ring)
    requires IsPrefix(graph, path, edges) && |edges| <= maxDepth
    requires forall e :: e in next ==> e in graph(path[|edges|])
    ensures r in RingsVia(graph, maxDepth, path, edges, next)
       <==> RingWith(graph, maxDepth, path, edges, r) && r.edges[|edges|] in next
    decreases maxDepth + 1 - |edges|, 1, |next|
  {
    if next != [] {
      RingsViaExact(graph, maxDepth, path, edges, next[..|next| - 1], r);
      RingsByExact(graph, maxDepth, path, edges, next[|next| - 1], r);
      assert next == next[..|next| - 1] + [next[|next| - 1]];
    }
  }

  lemma {:induction false} RingsBelowExact(graph: Graph, maxDepth: nat, path: seq<Key>, edges: seq<Edge>, r: Ring)
    requires IsPrefix(graph, path, edges) && |edges| <= maxDepth + 1
    ensures r in RingsBelow(graph, maxDepth, path, edges) <==> RingWith(graph, maxDepth, path, edges, r)
    decreases maxDepth + 1 - |edges|, 2, 0
  {
    if |edges| <= maxDepth {
      RingsViaExact(graph, maxDepth, path, edges, graph(path[|edges|]), r);
      if RingWith(graph, maxDepth, path, edges, r) {
        assert r.path[|edges|] == path[|edges|];
      }
    }
  }

  /** The uncapped search from `start` returns exactly the rings through `start`. */
  lemma AllRingsExact(graph: Graph, start: Key, maxDepth: nat, r: Ring)
    ensures r in RingsBelow(graph, maxDepth, [start], []) <==> IsRing(graph, start, maxDepth, r)
  {
    RingsBelowExact(graph, maxDepth, [start], [], r);
    if IsRing(graph, start, maxDepth, r) {
      assert [start] <= r.path;
    }
  }

  // ----- each ring once

  lemma {:induction false} RingsByDistinct(graph: Graph, maxDepth: nat, path: seq<Key>, edges: seq<Edge>, e: Edge)
    requires IsPrefix(graph, path, edges) && |edges| <= maxDepth && e in graph(path[|edges|])
    requires forall k :: Distinct(graph(k))
    ensures Distinct(RingsBy(graph, maxDepth, path, edges, e))
    decreases maxDepth + 1 - |edges|, 0, 0
  {
    if e.to !in path {
      RingsBelowDistinct(graph, maxDepth, path + [e.to], edges + [e]);
    }
  }

  lemma {:induction false} RingsViaDistinct(graph: Graph, maxDepth: nat, path: seq<Key>, edges: seq<Edge>,
      next: seq<Edge>)
    requires IsPrefix(graph, path, edges) && |edges| <= maxDepth && Distinct(next)
    requires forall e :: e in next ==> e in graph(path[|edges|])
    requires forall k :: Distinct(graph(k))
    ensures Distinct(RingsVia(graph, maxDepth, path, edges, next))
    decreases maxDepth + 1 - |edges|, 1, |next|
  {
    if next != [] {
      var front, e := next[..|next| - 1], next[|next| - 1];
      RingsViaDistinct(graph, maxDepth, path, edges, front);
      RingsByDistinct(graph, maxDepth, path, edges, e);
      var rs, ts := RingsVia(graph, maxDepth, path, edges, front), RingsBy(graph, maxDepth, path, edges, e);
      forall i, j | 0 <= i < |rs| && 0 <= j < |ts|
        ensures rs[i] != ts[j]
      {
        RingsViaExact(graph, maxDepth, path, edges, front, rs[i]);
        RingsByExact(graph, maxDepth, path, edges, e, ts[j]);
      }
    }
  }

  lemma {:induction false} RingsBelowDistinct(graph: Graph, maxDepth: nat, path: seq<Key>, edges: seq<Edge>)
    requires IsPrefix(graph, path, edges) && |edges| <= maxDepth + 1
    requires forall k :: Distinct(graph(k))
    ensures Distinct(RingsBelow(graph, maxDepth, path, edges))
    decreases maxDepth + 1 - |edges|, 2, 0
  {
    if |edges| <= maxDepth {
      RingsViaDistinct(graph, maxDepth, path, edges, graph(path[|edges|]));
    }
  }

  // ----- the capped search

  function Take<T>(s: seq<T>, n: nat): seq<T> {
    if |s| <= n then s else s[..n]
  }

  /** The capped search agrees with the full list: it has the full list's first CYCLE_CAP entries, and
      nothing (counting repetitions) that the full list lacks. */
  ghost predicate CappedTo(found: seq<Ring>, full: seq<Ring>) {
    Take(found, CYCLE_CAP) == Take(full, CYCLE_CAP) && multiset(found) <= multiset(full)
  }

  lemma CappedAppend(found: seq<Ring>, full: seq<Ring>, more: seq<Ring>)
    requires CappedTo(found, full)
    ensures CappedTo(found + more, full + more)
  {
    if |found| > CYCLE_CAP {
      assert Take(found + more, CYCLE_CAP) == found[..CYCLE_CAP] == Take(full + more, CYCLE_CAP);
    }
  }

  lemma CapReached(found: seq<Ring>, more: seq<Ring>)
    requires |found| >= CYCLE_CAP
    ensures CappedTo(found, found + more)
  {
    assert Take(found + more, CYCLE_CAP) == Take(found, CYCLE_CAP);
    assert multiset(found + more) == multiset(found) + multiset(more);
  }

  lemma CappedTransitive(a: seq<Ring>, b: seq<Ring>, c: seq<Ring>)
    requires CappedTo(a, b) && CappedTo(b, c)
    ensures CappedTo(a, c)
  {
  }

  lemma CappedStep(start: seq<Ring>, full: seq<Ring>, found: seq<Ring>, more: seq<Ring>, after: seq<Ring>)
    requires CappedTo(found, start + full) && CappedTo(after, found + more)
    ensures CappedTo(after, start + (full + more))
  {
    CappedAppend(found, start + full, more);
    CappedTransitive(after, found + more, start + full + more);
    assert start + full + more == start + (full + more);
  }

  lemma RingsViaStep(graph: Graph, maxDepth: nat, path: seq<Key>, edges: seq<Edge>, next: seq<Edge>, i: nat)
    requires path != [] && |edges| <= maxDepth && i < |next|
    ensures RingsVia(graph, maxDepth, path, edges, next[..i + 1])
         == RingsVia(graph, maxDepth, path, edges, next[..i]) + RingsBy(graph, maxDepth, path, edges, next[i])
  {
    assert next[..i + 1][..i] == next[..i];
  }

  function AsGraph(adjacency: map<Key, seq<Edge>>): Graph {
    (k: Key) => if k in adjacency then adjacency[k] else []
  }

  method AmountsAligned(edges: seq<Edge>) returns (aligned: bool)
    ensures aligned == Aligned(edges)
  {
    aligned := |edges| >= 2;
    var i := 1;
    while i < |edges| && aligned
      invariant 1 <= i
      invariant aligned
        == (|edges| >= 2 && forall k :: 1 <= k < i && k < |edges| ==> Within5Pct(edges[0].amount, edges[k].amount))
    {
      if !Within5Pct(edges[0].amount, edges[i].amount) {
        aligned := false;
      }
      i := i + 1;
    }
  }

  /** The state that `findCyclesFrom` closes over: pushed and popped around every recursive call. */
  class CycleFinder {
    const start: Key
    const adjacency: map<Key, seq<Edge>>
    const maxDepth: nat
    var cycles: seq<Ring>
    var path: seq<Key>
    var pathEdges: seq<Edge>
    var visited: set<Key>

    constructor (start: Key, adjacency: map<Key, seq<Edge>>, maxDepth: nat)
      ensures this.start == start && this.adjacency == adjacency && this.maxDepth == maxDepth
      ensures Valid() && cycles == [] && path == [start] && pathEdges == []
    {
      this.start, this.adjacency, this.maxDepth := start, adjacency, maxDepth;
      cycles, path, pathEdges, visited := [], [start], [], {start};
    }

    ghost predicate Valid()
      reads this
    {
      && |path| == |pathEdges| + 1
      && path[0] == start
      && visited == (set k | k in path)
    }

    /** The body of the loop over a node's edges: close a ring, skip a visited account, or recurse
        between a push and a pop. */
    method TryEdge(edge: Edge, depth: nat)
      requires Valid() && depth == |pathEdges| <= maxDepth
      modifies this
      ensures path == old(path) && pathEdges == old(pathEdges) && visited == old(visited)
      ensures CappedTo(cycles, old(cycles) + RingsBy(AsGraph(adjacency), maxDepth, path, pathEdges, edge))
      decreases maxDepth + 1 - depth, 0
    {
      var next := edge.to;
      assert cycles + [] == cycles;
      if next == start && depth >= 2 {
        var aligned := AmountsAligned(pathEdges + [edge]);
        if aligned {
          cycles := cycles + [Ring(path + [next], pathEdges + [edge])];
        }
        return;
      }
      if next in visited {
        return;
      }
      visited := visited + {next};
      path := path + [next];
      pathEdges := pathEdges + [edge];
      Dfs(next, depth + 1);
      path := path[..|path| - 1];
      pathEdges := pathEdges[..|pathEdges| - 1];
      visited := visited - {next};
    }

    /** One call of `dfs`: the path, its edges and the visited set come back as they were, and the
        rings added are the full search's, up to the cap tested on entry. */
    method Dfs(current: Key, depth: nat)
      requires Valid() && current == path[|path| - 1] && depth == |pathEdges| <= maxDepth + 1
      modifies this
      ensures path == old(path) && pathEdges == old(pathEdges) && visited == old(visited)
      ensures CappedTo(cycles, old(cycles) + RingsBelow(AsGraph(adjacency), maxDepth, path, pathEdges))
      decreases maxDepth + 1 - depth, 1
    {
      ghost var graph := AsGraph(adjacency);
      if |cycles| >= CYCLE_CAP {
        CapReached(cycles, RingsBelow(graph, maxDepth, path, pathEdges));
        return;
      }
      if depth > maxDepth {
        assert cycles + [] == cycles;
        return;
      }
      var edges := if current in adjacency then adjacency[current] else [];
      ghost var cycles0 := cycles;
      assert cycles0 + RingsVia(graph, maxDepth, path, pathEdges, edges[..0]) == cycles0;
      for i := 0 to |edges|
        invariant path == old(path) && pathEdges == old(pathEdges) && visited == old(visited)
        invariant CappedTo(cycles, cycles0 + RingsVia(graph, maxDepth, path, pathEdges, edges[..i]))
      {
        ghost var found := cycles;
        TryEdge(edges[i], depth);
        RingsViaStep(graph, maxDepth, path, pathEdges, edges, i);
        CappedStep(cycles0, RingsVia(graph, maxDepth, path, pathEdges, edges[..i]), found,
          RingsBy(graph, maxDepth, path, pathEdges, edges[i]), cycles);
      }
      assert edges[..|edges|] == edges;
    }
  }

  /** `findCyclesFrom`: what it returns is rings only, none twice, and when it returns fewer than the
      cap it returns every ring through `start`. */
  method FindCyclesFrom(start: Key, adjacency: map<Key, seq<Edge>>, maxDepth: nat) returns (cycles: seq<Ring>)
    ensures CappedTo(cycles, RingsBelow(AsGraph(adjacency), maxDepth, [start], []))
    ensures forall r :: r in cycles ==> IsRing(AsGraph(adjacency), start, maxDepth, r)
    ensures |cycles| < CYCLE_CAP ==> forall r :: IsRing(AsGraph(adjacency), start, maxDepth, r) ==> r in cycles
    ensures (forall k :: Distinct(AsGraph(adjacency)(k))) ==> forall r :: r in cycles ==> multiset(cycles)[r] == 1
  {
    var finder := new CycleFinder(start, adjacency, maxDepth);
    finder.Dfs(start, 0);
    cycles := finder.cycles;
    ghost var graph := AsGraph(adjacency);
    ghost var full := RingsBelow(graph, maxDepth, [start], []);
    assert [] + full == full;
    CappedMembers(cycles, full);
    forall r
      ensures r in full <==> IsRing(graph, start, maxDepth, r)
    {
      AllRingsExact(graph, start, maxDepth, r);
    }
    if forall k :: Distinct(graph(k)) {
      RingsBelowDistinct(graph, maxDepth, [start], []);
      DistinctOnce(full);
    }
  }

  lemma CappedMembers(found: seq<Ring>, full: seq<Ring>)
    requires CappedTo(found, full)
    ensures forall r :: r in found ==> r in full
    ensures |found| < CYCLE_CAP ==> found == full
  {
    forall r | r in found
      ensures r in full
    {
      assert r in multiset(found);
    }
  }

  lemma {:induction false} DistinctOnce<T>(s: seq<T>)
    requires Distinct(s)
    ensures forall x :: x in s ==> multiset(s)[x] == 1
  {
    if s != [] {
      var front, last := s[..|s| - 1], s[|s| - 1];
      assert s == front + [last];
      DistinctOnce(front);
      assert last !in front;
      assert last !in multiset(front);
    }
  }

  // ----- collecting the edges

  /** Every edge leaves the account it is listed under, as the query by from_account_key returns it. */
  ghost predicate WellFormed(graph: Graph) {
    forall k, e :: e in graph(k) ==> e.from == k
  }

  ghost function Gather(graph: Graph, keys: seq<Key>): seq<Edge> {
    if keys == [] then [] else Gather(graph, keys[..|keys| - 1]) + graph(keys[|keys| - 1])
  }

  ghost predicate Closed(graph: Graph, start: Key, keys: seq<Key>) {
    start in keys && forall k, e :: k in keys && e in graph(k) ==> e.to in keys
  }

  ghost predicate IsTarget(edges: seq<Edge>, k: Key) {
    exists e :: e in edges && e.to == k
  }

  /** Some edge of the first n accounts leads to k. */
  ghost predicate LeadsTo(graph: Graph, keys: seq<Key>, n: nat, k: Key)
    requires n <= |keys|
  {
    exists j :: 0 <= j < n && IsTarget(graph(keys[j]), k)
  }

  /** The accounts are reached from `start`, each by an edge of an earlier one. */
  ghost predicate ReachedFrom(graph: Graph, start: Key, keys: seq<Key>) {
    && (keys != [] ==> keys[0] == start)
    && forall i :: 0 < i < |keys| ==> LeadsTo(graph, keys, i, keys[i])
  }

  /** What the walk from `start` expands: accounts reached from there, none twice. It goes on until it has
      all of them or the last one expanded reaches the edge cap. */
  ghost predicate Walked(graph: Graph, start: Key, keys: seq<Key>) {
    && keys != [] && ReachedFrom(graph, start, keys) && Distinct(keys)
    && |Gather(graph, keys[..|keys| - 1])| < 200
    && (|Gather(graph, keys)| < 200 ==> Closed(graph, start, keys))
  }

  /** The walk from `start` meets the edge cap. */
  ghost predicate EdgeCapMet(graph: Graph, start: Key) {
    exists keys: seq<Key> :: Walked(graph, start, keys) && |Gather(graph, keys)| >= 200
  }

  lemma ReachedAppend(graph: Graph, start: Key, keys: seq<Key>, k: Key)
    requires ReachedFrom(graph, start, keys)
    requires if keys == [] then k == start else LeadsTo(graph, keys, |keys|, k)
    ensures ReachedFrom(graph, start, keys + [k])
  {
    var more := keys + [k];
    forall i | 0 < i < |more|
      ensures LeadsTo(graph, more, i, more[i])
    {
      assert LeadsTo(graph, keys, i, more[i]);
      var j :| 0 <= j < i && IsTarget(graph(keys[j]), more[i]);
      assert more[j] == keys[j];
    }
  }

  /** Every queued account is the start, before anything is expanded, or led to by an expanded account. */
  ghost predicate QueueReached(graph: Graph, start: Key, expanded: seq<Key>, queue: seq<Key>) {
    forall x :: x in queue ==> if expanded == [] then x == start else LeadsTo(graph, expanded, |expanded|, x)
  }

  lemma QueueStaysReached(graph: Graph, start: Key, expanded: seq<Key>, k: Key, rest: seq<Key>, queued: seq<Key>)
    requires QueueReached(graph, start, expanded, rest) && (expanded == [] ==> rest == [])
    requires forall x :: x in queued ==> x in rest || IsTarget(graph(k), x)
    ensures QueueReached(graph, start, expanded + [k], queued)
  {
    var more := expanded + [k];
    forall x | x in queued
      ensures LeadsTo(graph, more, |more|, x)
    {
      if x in rest {
        var j :| 0 <= j < |expanded| && IsTarget(graph(expanded[j]), x);
        assert more[j] == expanded[j];
      } else {
        assert more[|expanded|] == k;
      }
    }
  }

  /** The queue with the edges' targets added, apart from those seen. */
  ghost predicate QueuedUp(out: seq<Edge>, seen: set<Key>, stack: seq<Key>, queued: seq<Key>) {
    && stack <= queued
    && (forall e :: e in out ==> e.to in seen || e.to in queued)
    && (forall x :: x in queued ==> x in stack || IsTarget(out, x))
  }

  /** The inner loop of the walk: queue the accounts not yet expanded. */
  method Enqueue(out: seq<Edge>, seen: set<Key>, stack: seq<Key>) returns (queued: seq<Key>)
    ensures QueuedUp(out, seen, stack, queued) && (out == [] ==> queued == stack)
  {
    queued := stack;
    for i := 0 to |out|
      invariant stack <= queued && (i == 0 ==> queued == stack)
      invariant forall j :: 0 <= j < i ==> out[j].to in seen || out[j].to in queued
      invariant forall x :: x in queued ==> x in stack || IsTarget(out, x)
    {
      if out[i].to !in seen {
        queued := queued + [out[i].to];
      }
    }
  }

  lemma Unstack(stack: seq<Key>, k: Key, rest: seq<Key>)
    requires stack != [] && k == stack[0] && rest == stack[1..]
    ensures forall x :: x in stack <==> x == k || x in rest
  {
    assert stack == [k] + rest;
  }

  lemma OneMoreGathered(graph: Graph, keys: seq<Key>, k: Key)
    ensures Gather(graph, keys + [k]) == Gather(graph, keys) + graph(k)
  {
    assert (keys + [k])[..|keys|] == keys;
  }

  ghost predicate Covered(graph: Graph, expanded: seq<Key>, queue: seq<Key>) {
    forall k, e :: k in expanded && e in graph(k) ==> e.to in expanded || e.to in queue
  }

  lemma CoveredGrows(graph: Graph, expanded: seq<Key>, seen: set<Key>, queue: seq<Key>, queued: seq<Key>)
    requires queue != [] && Covered(graph, expanded, queue) && SameKeys(seen, expanded)
    requires QueuedUp(graph(queue[0]), seen + {queue[0]}, queue[1..], queued)
    ensures Covered(graph, expanded + [queue[0]], queued)
  {
    var more := expanded + [queue[0]];
    Unstack(queue, queue[0], queue[1..]);
    forall k, e | k in more && e in graph(k)
      ensures e.to in more || e.to in queued
    {
      if k in expanded && e.to !in expanded && e.to != queue[0] {
        assert e.to in queue[1..];
      } else {
        assert queue[0] == more[|expanded|];
      }
    }
  }

  /** The walk so far: whatever the expanded accounts lead to is expanded or queued. */
  ghost predicate Walking(graph: Graph, start: Key, expanded: seq<Key>, queue: seq<Key>) {
    Reaching(graph, start, expanded, queue) && Covered(graph, expanded, queue)
    && (start in expanded || start in queue)
  }

  ghost predicate Reaching(graph: Graph, start: Key, expanded: seq<Key>, queue: seq<Key>) {
    && Distinct(expanded) && ReachedFrom(graph, start, expanded) && QueueReached(graph, start, expanded, queue)
    && (if expanded == [] then queue == [start] else |Gather(graph, expanded[..|expanded| - 1])| < EDGE_CAP)
  }

  lemma ReachingGrows(graph: Graph, start: Key, expanded: seq<Key>, queue: seq<Key>, queued: seq<Key>)
    requires Reaching(graph, start, expanded, queue) && queue != [] && queue[0] !in expanded
    requires |Gather(graph, expanded)| < EDGE_CAP
    requires forall x :: x in queued ==> x in queue[1..] || IsTarget(graph(queue[0]), x)
    ensures Reaching(graph, start, expanded + [queue[0]], queued)
  {
    var more := expanded + [queue[0]];
    Unstack(queue, queue[0], queue[1..]);
    ReachedAppend(graph, start, expanded, queue[0]);
    QueueStaysReached(graph, start, expanded, queue[0], queue[1..], queued);
    assert more[..|more| - 1] == expanded;
  }

  ghost predicate SameKeys(seen: set<Key>, expanded: seq<Key>) {
    forall k :: k in seen <==> k in expanded
  }

  lemma WalkSkips(graph: Graph, start: Key, expanded: seq<Key>, seen: set<Key>, queue: seq<Key>)
    requires Walking(graph, start, expanded, queue) && SameKeys(seen, expanded) && queue != [] && queue[0] in seen
    ensures Walking(graph, start, expanded, queue[1..])
  {
    Unstack(queue, queue[0], queue[1..]);
  }

  lemma WalkExpands(graph: Graph, start: Key, expanded: seq<Key>, seen: set<Key>, queue: seq<Key>, queued: seq<Key>)
    requires Walking(graph, start, expanded, queue) && SameKeys(seen, expanded) && queue != [] && queue[0] !in seen
    requires |Gather(graph, expanded)| < EDGE_CAP
    requires QueuedUp(graph(queue[0]), seen + {queue[0]}, queue[1..], queued)
    ensures SameKeys(seen + {queue[0]}, expanded + [queue[0]])
    ensures Gather(graph, expanded + [queue[0]]) == Gather(graph, expanded) + graph(queue[0])
    ensures Walking(graph, start, expanded + [queue[0]], queued)
  {
    var k, more := queue[0], expanded + [queue[0]];
    OneMoreGathered(graph, expanded, k);
    CoveredGrows(graph, expanded, seen, queue, queued);
    ReachingGrows(graph, start, expanded, queue, queued);
    Unstack(queue, k, queue[1..]);
    assert k == more[|expanded|] && (start in expanded ==> start in more);
  }

  /** The breadth-first walk of `scanMuleRings`. It stops early only when the edge cap is reached. */
  method CollectEdges(graph: Graph, startKey: Key) returns (allEdges: seq<Edge>, ghost expanded: seq<Key>)
    ensures Walked(graph, startKey, expanded) && allEdges == Gather(graph, expanded)
  {
    allEdges, expanded := [], [];
    var stack: seq<Key> := [startKey];
    var seen: set<Key> := {};
    while |stack| > 0 && |allEdges| < EDGE_CAP
      invariant SameKeys(seen, expanded) && Walking(graph, startKey, expanded, stack)
      invariant allEdges == Gather(graph, expanded)
      decreases if |allEdges| < EDGE_CAP then EDGE_CAP - |allEdges| else 0, |stack|
    {
      var k := stack[0];
      ghost var before := stack;
      stack := stack[1..];
      if k in seen {
        WalkSkips(graph, startKey, expanded, seen, before);
        continue;
      }
      var out := graph(k);
      allEdges := allEdges + out;
      stack := Enqueue(out, seen + {k}, stack);
      WalkExpands(graph, startKey, expanded, seen, before, stack);
      seen := seen + {k};
      expanded := expanded + [k];
    }
    WalkDone(graph, startKey, expanded, stack);
  }

  lemma WalkDone(graph: Graph, start: Key, expanded: seq<Key>, queue: seq<Key>)
    requires Walking(graph, start, expanded, queue) && (queue == [] || |Gather(graph, expanded)| >= EDGE_CAP)
    ensures Walked(graph, start, expanded)
  {
  }

  ghost function EdgesFrom(edges: seq<Edge>, k: Key): seq<Edge> {
    if edges == [] then []
    else EdgesFrom(edges[..|edges| - 1], k) + if edges[|edges| - 1].from == k then [edges[|edges| - 1]] else []
  }

  /** `buildAdjacency` groups the edges by their source, keeping their order. */
  method BuildAdjacency(edges: seq<Edge>) returns (out: map<Key, seq<Edge>>)
    ensures forall k :: AsGraph(out)(k) == EdgesFrom(edges, k)
  {
    out := map[];
    for i := 0 to |edges|
      invariant forall k :: AsGraph(out)(k) == EdgesFrom(edges[..i], k)
    {
      assert edges[..i + 1][..i] == edges[..i];
      var e := edges[i];
      if e.from !in out {
        out := out[e.from := []];
      }
      out := out[e.from := out[e.from] + [e]];
    }
    assert edges[..|edges|] == edges;
  }

  lemma {:induction false} EdgesFromAppend(a: seq<Edge>, b: seq<Edge>, k: Key)
    ensures EdgesFrom(a + b, k) == EdgesFrom(a, k) + EdgesFrom(b, k)
  {
    if b == [] {
      assert a + b == a;
    } else {
      assert (a + b)[..|a + b| - 1] == a + b[..|b| - 1];
      EdgesFromAppend(a, b[..|b| - 1], k);
    }
  }

  lemma {:induction false} EdgesFromUniform(edges: seq<Edge>, from: Key, k: Key)
    requires forall e :: e in edges ==> e.from == from
    ensures EdgesFrom(edges, k) == if k == from then edges else []
  {
    if edges != [] {
      var front, last := edges[..|edges| - 1], edges[|edges| - 1];
      assert edges == front + [last] && last.from == from;
      EdgesFromUniform(front, from, k);
    }
  }

  /** Grouping the collected edges gives back each expanded account's own list. */
  lemma {:induction false} GatherGrouped(graph: Graph, keys: seq<Key>, k: Key)
    requires WellFormed(graph) && Distinct(keys)
    ensures EdgesFrom(Gather(graph, keys), k) == if k in keys then graph(k) else []
  {
    if keys != [] {
      var front, last := keys[..|keys| - 1], keys[|keys| - 1];
      assert keys == front + [last];
      GatherGrouped(graph, front, k);
      EdgesFromAppend(Gather(graph, front), graph(last), k);
      EdgesFromUniform(graph(last), last, k);
    }
  }

  /** A walk from `start` never leaves a closed set of accounts. */
  lemma {:induction false} WalkStaysClosed(graph: Graph, keys: seq<Key>, path: seq<Key>, edges: seq<Edge>, i: nat)
    requires path != [] && Closed(graph, path[0], keys) && Walks(graph, path, edges) && i < |path|
    ensures path[i] in keys
  {
    if i > 0 {
      WalkStaysClosed(graph, keys, path, edges, i - 1);
      assert edges[i - 1] in graph(path[i - 1]);
    }
  }

  /** Cutting the graph down to a closed set of expanded accounts keeps every ring through `start`,
      and cutting it down to any set of accounts adds none. */
  lemma RingsOfPart(graph: Graph, part: Graph, keys: seq<Key>, start: Key, maxDepth: nat, r: Ring)
    requires forall k :: part(k) == if k in keys then graph(k) else []
    ensures IsRing(part, start, maxDepth, r) ==> IsRing(graph, start, maxDepth, r)
    ensures Closed(graph, start, keys) && IsRing(graph, start, maxDepth, r) ==> IsRing(part, start, maxDepth, r)
  {
    if Closed(graph, start, keys) && IsRing(graph, start, maxDepth, r) {
      forall i | 0 <= i < |r.edges|
        ensures r.edges[i] in part(r.path[i])
      {
        WalkStaysClosed(graph, keys, r.path, r.edges, i);
      }
    }
  }

  /** What the scan of one account finds: rings through it only, none twice, and every ring of up to six
      edges, unless five rings are found or the walk from there meets the edge cap. */
  ghost predicate Scanned(graph: Graph, k: Key, cycles: seq<Ring>) {
    && (forall r :: r in cycles ==> IsRing(graph, k, 5, r))
    && ((forall x :: Distinct(graph(x))) ==> forall r :: r in cycles ==> multiset(cycles)[r] == 1)
    && (|cycles| < 5 && !EdgeCapMet(graph, k) ==> forall r :: IsRing(graph, k, 5, r) ==> r in cycles)
  }

  /** One hot account's scan. */
  method ScanFrom(graph: Graph, startKey: Key) returns (cycles: seq<Ring>)
    requires WellFormed(graph)
    ensures Scanned(graph, startKey, cycles)
  {
    var allEdges;
    ghost var expanded;
    allEdges, expanded := CollectEdges(graph, startKey);
    var adjacency := BuildAdjacency(allEdges);
    cycles := FindCyclesFrom(startKey, adjacency, DEFAULT_MAX_DEPTH);
    forall k
      ensures AsGraph(adjacency)(k) == if k in expanded then graph(k) else []
    {
      GatherGrouped(graph, expanded, k);
    }
    PartScanned(graph, AsGraph(adjacency), startKey, expanded, cycles);
  }

  /** Searching what the walk collected is as good as searching the graph, below the edge cap. */
  lemma PartScanned(graph: Graph, part: Graph, start: Key, keys: seq<Key>, cycles: seq<Ring>)
    requires Walked(graph, start, keys) && forall k :: part(k) == if k in keys then graph(k) else []
    requires forall r :: r in cycles ==> IsRing(part, start, DEFAULT_MAX_DEPTH, r)
    requires |cycles| < CYCLE_CAP ==> forall r :: IsRing(part, start, DEFAULT_MAX_DEPTH, r) ==> r in cycles
    requires (forall k :: Distinct(part(k))) ==> forall r :: r in cycles ==> multiset(cycles)[r] == 1
    ensures Scanned(graph, start, cycles)
  {
    forall r
      ensures IsRing(part, start, DEFAULT_MAX_DEPTH, r) ==> IsRing(graph, start, DEFAULT_MAX_DEPTH, r)
      ensures Closed(graph, start, keys) && IsRing(graph, start, DEFAULT_MAX_DEPTH, r) ==>
        IsRing(part, start, DEFAULT_MAX_DEPTH, r)
    {
      RingsOfPart(graph, part, keys, start, DEFAULT_MAX_DEPTH, r);
    }
  }

  datatype Alert = Alert(accountKeys: seq<Key>, cycleLength: nat, edges: seq<Edge>, compositeScore: nat)

  function AlertFor(r: Ring): Alert {
    var score := 50 + |r.path| * 10;
    Alert(r.path, if |r.path| > 0 then |r.path| - 1 else 0, r.edges, if score < 100 then score else 100)
  }

  ghost predicate AlertOn(graph: Graph, hotKeys: seq<Key>, a: Alert) {
    && a.accountKeys != []
    && a.accountKeys[0] in hotKeys
    && IsRing(graph, a.accountKeys[0], 5, Ring(a.accountKeys, a.edges))
    && a.cycleLength == |a.edges|
    && a.compositeScore == if a.cycleLength == 3 then 90 else 100
  }

  function Alerts(cycles: seq<Ring>): seq<Alert> {
    seq(|cycles|, i requires 0 <= i < |cycles| => AlertFor(cycles[i]))
  }

  /** The alerts of all scans, in their order. */
  function AllAlerts(scans: seq<seq<Ring>>): seq<Alert> {
    if scans == [] then [] else AllAlerts(scans[..|scans| - 1]) + Alerts(scans[|scans| - 1])
  }

  /** The alerts of one scan. */
  method Report(cycles: seq<Ring>) returns (alerts: seq<Alert>)
    ensures alerts == Alerts(cycles)
  {
    alerts := [];
    for c := 0 to |cycles|
      invariant alerts == Alerts(cycles)[..c]
    {
      alerts := alerts + [AlertFor(cycles[c])];
    }
  }

  /** `scanMuleRings`: the alerts are those of one scan for each hot account, in their order. */
  method ScanMuleRings(graph: Graph, hotKeys: seq<Key>) returns (alerts: seq<Alert>, ghost scans: seq<seq<Ring>>)
    requires WellFormed(graph)
    ensures |scans| == |hotKeys| && forall h :: 0 <= h < |hotKeys| ==> Scanned(graph, hotKeys[h], scans[h])
    ensures alerts == AllAlerts(scans)
  {
    alerts, scans := [], [];
    for h := 0 to |hotKeys|
      invariant |scans| == h && forall i :: 0 <= i < h ==> Scanned(graph, hotKeys[i], scans[i])
      invariant alerts == AllAlerts(scans)
    {
      var cycles := ScanFrom(graph, hotKeys[h]);
      var found := Report(cycles);
      alerts := alerts + found;
      assert (scans + [cycles])[..h] == scans;
      scans := scans + [cycles];
    }
  }

  /** Every ring through the account is among the alerts. */
  ghost predicate AllReported(graph: Graph, k: Key, alerts: seq<Alert>) {
    forall r :: IsRing(graph, k, 5, r) ==> AlertFor(r) in alerts
  }

  /** What the alerts of the scans mean: each is a ring through one of the hot accounts, scored 90 when it is
      a triangle and 100 when it is longer; and every ring through a hot account is among them, unless its
      scan found five or the walk from there met the edge cap. */
  lemma {:induction false} AlertsExact(graph: Graph, hotKeys: seq<Key>, scans: seq<seq<Ring>>)
    requires |scans| == |hotKeys| && forall h :: 0 <= h < |hotKeys| ==> Scanned(graph, hotKeys[h], scans[h])
    ensures forall a :: a in AllAlerts(scans) ==> AlertOn(graph, hotKeys, a)
    ensures forall h :: 0 <= h < |hotKeys| && |scans[h]| < 5 && !EdgeCapMet(graph, hotKeys[h]) ==>
      AllReported(graph, hotKeys[h], AllAlerts(scans))
  {
    if scans != [] {
      var n := |scans| - 1;
      AlertsExact(graph, hotKeys[..n], scans[..n]);
      ScanAlerts(graph, hotKeys[n], scans[n]);
      OneMoreScan(graph, hotKeys, n, AllAlerts(scans[..n]), Alerts(scans[n]));
      forall h | 0 <= h < |hotKeys| && |scans[h]| < 5 && !EdgeCapMet(graph, hotKeys[h])
        ensures AllReported(graph, hotKeys[h], AllAlerts(scans))
      {
        if h < n {
          assert AllReported(graph, hotKeys[..n][h], AllAlerts(scans[..n]));
        }
      }
    }
  }

  lemma ScanAlerts(graph: Graph, k: Key, cycles: seq<Ring>)
    requires Scanned(graph, k, cycles)
    ensures forall a :: a in Alerts(cycles) ==> AlertOn(graph, [k], a)
    ensures |cycles| < 5 && !EdgeCapMet(graph, k) ==> AllReported(graph, k, Alerts(cycles))
  {
    forall a | a in Alerts(cycles)
      ensures AlertOn(graph, [k], a)
    {
      var i :| 0 <= i < |cycles| && Alerts(cycles)[i] == a;
      assert IsRing(graph, k, 5, cycles[i]);
      assert k in [k];
    }
    forall r | r in cycles
      ensures AlertFor(r) in Alerts(cycles)
    {
      var i :| 0 <= i < |cycles| && cycles[i] == r;
      assert Alerts(cycles)[i] == AlertFor(r);
    }
  }

  lemma OneMoreScan(graph: Graph, hotKeys: seq<Key>, n: nat, before: seq<Alert>, found: seq<Alert>)
    requires n == |hotKeys| - 1
    requires forall a :: a in before ==> AlertOn(graph, hotKeys[..n], a)
    requires forall a :: a in found ==> AlertOn(graph, [hotKeys[n]], a)
    ensures forall a :: a in before + found ==> AlertOn(graph, hotKeys, a)
  {
    forall a | a in before + found
      ensures AlertOn(graph, hotKeys, a)
    {
      if a in found {
        assert AlertOn(graph, [hotKeys[n]], a);
      } else {
        assert a in before && AlertOn(graph, hotKeys[..n], a);
      }
    }
  }
}
