/** The hash chain that the ledger, the audit log and the evidence store each build (core/crypto.js):
    every row carries its predecessor's hash, and hashes it together with the hash of its own text.
    The hash function is a parameter. */
module HashChain {

  type Hash = string -> string

  datatype Link = Link(prev: string, text: string, hash: string)

  /** `chainHash` */
  function ChainHash(h: Hash, prev: string, text: string): string {
    h(prev + h(text))
  }

  datatype Verdict = Verified(count: nat) | Broken(at: nat, reason: BreakReason)

  datatype BreakReason = PrevMismatch | HashMismatch

  /** What the verification loop answers from the i-th link on, with `prev` carried over. */
  function VerifyFrom(h: Hash, links: seq<Link>, i: nat, prev: string): Verdict
    requires i <= |links|
    decreases |links| - i
  {
    if i == |links| then Verified(|links|)
    else if links[i].prev != prev then Broken(i, PrevMismatch)
    else if links[i].hash != ChainHash(h, prev, links[i].text) then Broken(i, HashMismatch)
    else VerifyFrom(h, links, i + 1, links[i].hash)
  }

  method VerifyChain(h: Hash, genesis: string, links: seq<Link>) returns (v: Verdict)
    ensures v == VerifyFrom(h, links, 0, genesis)
  {
    var prev := genesis;
    var i := 0;
    while i < |links|
      invariant 0 <= i <= |links|
      invariant VerifyFrom(h, links, 0, genesis) == VerifyFrom(h, links, i, prev)
    {
      if links[i].prev != prev {
        return Broken(i, PrevMismatch);
      }
      if links[i].hash != ChainHash(h, prev, links[i].text) {
        return Broken(i, HashMismatch);
      }
      prev := links[i].hash;
      i := i + 1;
    }
    return Verified(|links|);
  }

  /** The hash a new link would refer to. */
  function EndOf(genesis: string, links: seq<Link>): string {
    if links == [] then genesis else links[|links| - 1].hash
  }

  function Appended(h: Hash, genesis: string, links: seq<Link>, text: string): seq<Link> {
    var prev := EndOf(genesis, links);
    links + [Link(prev, text, ChainHash(h, prev, text))]
  }

  /** The chain that recording the texts one after the other builds. */
  function Built(h: Hash, genesis: string, texts: seq<string>): seq<Link> {
    if texts == [] then []
    else Appended(h, genesis, Built(h, genesis, texts[..|texts| - 1]), texts[|texts| - 1])
  }

  function TextsOf(links: seq<Link>): (ts: seq<string>)
    ensures |ts| == |links|
  {
    seq(|links|, i requires 0 <= i < |links| => links[i].text)
  }

  /** Every link refers to its predecessor and carries its own chain hash. */
  ghost predicate Chained(h: Hash, genesis: string, links: seq<Link>) {
    links == [] ||
    (var front, last := links[..|links| - 1], links[|links| - 1];
    && Chained(h, genesis, front)
    && last.prev == EndOf(genesis, front)
    && last.hash == ChainHash(h, last.prev, last.text))
  }

  /** The chains are exactly what recording builds. */
  lemma {:induction false} ChainedIsBuilt(h: Hash, genesis: string, links: seq<Link>)
    ensures Chained(h, genesis, links) <==> links == Built(h, genesis, TextsOf(links))
  {
    if links != [] {
      var front, last := links[..|links| - 1], links[|links| - 1];
      ChainedIsBuilt(h, genesis, front);
      var texts := TextsOf(links);
      assert texts[..|texts| - 1] == TextsOf(front) && texts[|texts| - 1] == last.text;
      assert links == front + [last];
      AppendedIs(h, genesis, Built(h, genesis, TextsOf(front)), front, last);
      BuiltLength(h, genesis, TextsOf(front));
    }
  }

  lemma AppendedIs(h: Hash, genesis: string, built: seq<Link>, front: seq<Link>, last: Link)
    ensures |built| == |front| ==> (front + [last] == Appended(h, genesis, built, last.text) <==>
      front == built && last.prev == EndOf(genesis, front) && last.hash == ChainHash(h, last.prev, last.text))
  {
    var more := Appended(h, genesis, built, last.text);
    if |built| == |front| && front + [last] == more {
      assert front == (front + [last])[..|front|] == more[..|built|] == built;
      assert last == (front + [last])[|front|] == more[|built|];
    }
  }

  lemma {:induction false} BuiltLength(h: Hash, genesis: string, texts: seq<string>)
    ensures |Built(h, genesis, texts)| == |texts|
  {
    if texts != [] {
      BuiltLength(h, genesis, texts[..|texts| - 1]);
    }
  }

  /** The loop carries the hash of the link before. */
  lemma {:induction false} VerifyExactFrom(h: Hash, genesis: string, links: seq<Link>, i: nat)
    requires i <= |links| && Chained(h, genesis, links[..i])
    ensures VerifyFrom(h, links, i, EndOf(genesis, links[..i])).Verified? <==> Chained(h, genesis, links)
    decreases |links| - i
  {
    if i == |links| {
      assert links[..i] == links;
    } else {
      assert links[..i + 1][..i] == links[..i];
      if links[i].prev == EndOf(genesis, links[..i]) && links[i].hash == ChainHash(h, links[i].prev, links[i].text) {
        VerifyExactFrom(h, genesis, links, i + 1);
      } else {
        assert !Chained(h, genesis, links[..i + 1]);
        PrefixChained(h, genesis, links, i + 1);
      }
    }
  }

  lemma {:induction false} PrefixChained(h: Hash, genesis: string, links: seq<Link>, i: nat)
    requires i <= |links|
    ensures Chained(h, genesis, links) ==> Chained(h, genesis, links[..i])
    decreases |links| - i
  {
    if i == |links| {
      assert links[..i] == links;
    } else {
      PrefixChained(h, genesis, links, i + 1);
      assert links[..i + 1][..i] == links[..i];
    }
  }

  /** Verification accepts exactly the rows that recording some texts builds. */
  lemma VerifyExact(h: Hash, genesis: string, links: seq<Link>)
    ensures VerifyFrom(h, links, 0, genesis).Verified? <==> links == Built(h, genesis, TextsOf(links))
  {
    assert links[..0] == [];
    VerifyExactFrom(h, genesis, links, 0);
    ChainedIsBuilt(h, genesis, links);
  }

  lemma {:induction false} VerdictCounts(h: Hash, links: seq<Link>, i: nat, prev: string)
    requires i <= |links|
    ensures VerifyFrom(h, links, i, prev).Verified? ==> VerifyFrom(h, links, i, prev) == Verified(|links|)
    decreases |links| - i
  {
    if i < |links| {
      VerdictCounts(h, links, i + 1, links[i].hash);
    }
  }

  /** A chained sequence is accepted in full. */
  lemma ChainedVerifies(h: Hash, genesis: string, links: seq<Link>)
    requires Chained(h, genesis, links)
    ensures VerifyFrom(h, links, 0, genesis) == Verified(|links|)
  {
    ChainedIsBuilt(h, genesis, links);
    VerifyExact(h, genesis, links);
    VerdictCounts(h, links, 0, genesis);
  }

  // ----- two chains with one end

  /** Every text that hashing these links applies the hash function to is in the set. */
  ghost predicate HashesOnly(h: Hash, links: seq<Link>, texts: set<string>) {
    links == [] ||
    (var front, last := links[..|links| - 1], links[|links| - 1];
    HashesOnly(h, front, texts) && last.text in texts && last.prev + h(last.text) in texts)
  }

  ghost predicate NoCollision(h: Hash, texts: set<string>) {
    forall x, y :: x in texts && y in texts && h(x) == h(y) ==> x == y
  }

  ghost predicate FixedLength(h: Hash) {
    forall x, y :: |h(x)| == |h(y)|
  }

  ghost predicate NeverHashesTo(h: Hash, genesis: string, texts: set<string>) {
    forall x :: x in texts ==> h(x) != genesis
  }

  lemma SplitEnd(a: string, b: string, c: string, d: string)
    requires a + b == c + d && |b| == |d|
    ensures a == c && b == d
  {
    assert a == (a + b)[..|a|] && c == (c + d)[..|c|];
    assert b == (a + b)[|a|..] && d == (c + d)[|c|..];
  }

  lemma SameHashSameLink(h: Hash, x: Link, y: Link, texts: set<string>)
    requires x.hash == ChainHash(h, x.prev, x.text) && y.hash == ChainHash(h, y.prev, y.text) && x.hash == y.hash
    requires x.text in texts && x.prev + h(x.text) in texts && y.text in texts && y.prev + h(y.text) in texts
    requires FixedLength(h) && NoCollision(h, texts)
    ensures x == y
  {
    SplitEnd(x.prev, h(x.text), y.prev, h(y.text));
  }

  /** Two verified chains with the same last hash are the same chain, provided that no two of the texts
      hashed along them collide and none of these hashes is the genesis value. */
  lemma {:induction false} SameEndSameChain(h: Hash, genesis: string, a: seq<Link>, b: seq<Link>, texts: set<string>)
    requires Chained(h, genesis, a) && Chained(h, genesis, b) && EndOf(genesis, a) == EndOf(genesis, b)
    requires HashesOnly(h, a, texts) && HashesOnly(h, b, texts)
    requires FixedLength(h) && NoCollision(h, texts) && NeverHashesTo(h, genesis, texts)
    ensures a == b
    decreases |a| + |b|
  {
    if a != [] && b != [] {
      var x, y := a[|a| - 1], b[|b| - 1];
      SameHashSameLink(h, x, y, texts);
      SameEndSameChain(h, genesis, a[..|a| - 1], b[..|b| - 1], texts);
      assert a == a[..|a| - 1] + [x] && b == b[..|b| - 1] + [y];
    }
  }
}
