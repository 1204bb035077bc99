/** Bulk runs conserve lines and amounts, pay no line twice, always come back, and end closed with a
    result that does not depend on the batch size. */
module BulkConservation {
  import opened Sums
  import opened Bulk

  // ----- counts

  lemma {:induction false} CountsPartition(lines: seq<Line>)
    ensures Count(lines, Pending) + Count(lines, Processing) + Count(lines, Succeeded) + Count(lines, Failed) == |lines|
    ensures AmountOf(lines, Pending) + AmountOf(lines, Processing) + AmountOf(lines, Succeeded)
      + AmountOf(lines, Failed)
      == SumOf(lines, AnyAmount())
  {
    if lines != [] {
      CountsPartition(lines[..|lines| - 1]);
    }
  }

  lemma CountNonNegative(lines: seq<Line>, state: LineState)
    ensures Count(lines, state) >= 0
  {
    SumNonNegative(lines, OneIn(state));
  }

  lemma {:induction false} CountZero(lines: seq<Line>, state: LineState)
    ensures Count(lines, state) == 0 <==> forall i :: 0 <= i < |lines| ==> lines[i].state != state
    ensures Count(lines, state) == 0 ==> AmountOf(lines, state) == 0
  {
    if lines != [] {
      CountZero(lines[..|lines| - 1], state);
      CountNonNegative(lines[..|lines| - 1], state);
      assert forall i :: 0 <= i < |lines| - 1 ==> lines[i] == lines[..|lines| - 1][i];
    }
  }

  lemma {:induction false} SameAmounts(a: seq<Line>, b: seq<Line>)
    requires |a| == |b| && forall i :: 0 <= i < |a| ==> a[i].amount == b[i].amount
    ensures SumOf(a, AnyAmount()) == SumOf(b, AnyAmount())
  {
    if a != [] {
      SameAmounts(a[..|a| - 1], b[..|b| - 1]);
    }
  }

  // ----- the invariant

  /** A closed run's totals are those of its lines, every line has succeeded or failed, and which of the
      three closed states it is in is decided by the counts. */
  ghost predicate Balanced(r: Run) {
    && r.succeededCount == Count(r.lines, Succeeded) && r.failedCount == Count(r.lines, Failed)
    && r.succeededCount + r.failedCount == r.totalLines
    && r.succeededAmount + r.failedAmount == r.totalAmount
    && (r.state == Completed <==> r.succeededCount == r.totalLines)
    && (r.state == AllFailed <==> r.failedCount == r.totalLines && r.totalLines > 0)
    && (forall i :: 0 <= i < |r.lines| ==> r.lines[i].state == Succeeded || r.lines[i].state == Failed)
  }

  /** Lines handed to the orchestrator were handed over once, and are no longer pending. */
  ghost predicate SubmittedOnce(r: Run) {
    && (forall j, k :: 0 <= j < k < |r.submitted| ==> r.submitted[j] != r.submitted[k])
    && (forall k :: 0 <= k < |r.submitted| ==> r.submitted[k] < |r.lines| && r.lines[r.submitted[k]].state != Pending)
  }

  ghost predicate Sound(r: Run) {
    && r.totalLines == |r.lines|
    && r.totalAmount == SumOf(r.lines, AnyAmount())
    && SubmittedOnce(r)
    && (IsClosed(r.state) ==> Balanced(r))
  }

  lemma {:induction false} NewLines(items: seq<Item>)
    ensures |LinesOf(items)| == |items| && SumOf(LinesOf(items), AnyAmount()) == ItemsAmount(items)
  {
    if items != [] {
      NewLines(items[..|items| - 1]);
      SumAppend(LinesOf(items[..|items| - 1]), LineOf(items[|items| - 1]), AnyAmount());
    }
  }

  lemma NewRunSound(originator: string, sha: string, items: seq<Item>)
    ensures Sound(NewRun(originator, sha, items))
  {
    NewLines(items);
  }

  // ----- what a batch does to the lines

  /** Strictly increasing numbers of pending lines. */
  ghost predicate Batchable(lines: seq<Line>, picked: seq<nat>) {
    && InRange(picked, |lines|)
    && (forall j, k :: 0 <= j < k < |picked| ==> picked[j] < picked[k])
    && (forall k :: 0 <= k < |picked| ==> lines[picked[k]].state == Pending)
  }

  lemma {:induction false} PickBatchable(lines: seq<Line>, i: nat, limit: nat)
    requires i <= |lines|
    ensures Batchable(lines, Pick(lines, i, limit))
    ensures limit > 0 && Pick(lines, i, limit) == [] ==> forall k :: i <= k < |lines| ==> lines[k].state != Pending
    decreases |lines| - i
  {
    if i < |lines| && limit > 0 {
      PickBatchable(lines, i + 1, if lines[i].state == Pending then limit - 1 else limit);
    }
  }

  lemma {:induction false} MarkedAt(lines: seq<Line>, picked: seq<nat>, k: nat, i: nat)
    requires k <= |picked| && Batchable(lines, picked) && i < |lines|
    ensures Marked(lines, picked, k)[i] == if i in picked[..k] then lines[i].(state := Processing) else lines[i]
  {
    if k > 0 {
      MarkedAt(lines, picked, k - 1, i);
      assert picked[..k] == picked[..k - 1] + [picked[k - 1]];
    }
  }

  ghost predicate Refused(picked: seq<nat>, k: nat, reply: nat -> Reply) {
    exists j :: k <= j < |picked| && reply(picked[j]) == EnvelopeRefused
  }

  /** Paying changes the states of the picked lines only, and logs each of them once. */
  lemma {:induction false} PaidLines(r: Run, picked: seq<nat>, k: nat, reply: nat -> Reply)
    requires k <= |picked| && InRange(picked, |r.lines|)
    requires forall i, j :: 0 <= i < j < |picked| ==> picked[i] < picked[j]
    ensures var (after, done) := PayFrom(r, picked, k, reply);
      && after == r.(lines := after.lines, submitted := after.submitted) && |after.lines| == |r.lines|
      && (done <==> !Refused(picked, k, reply))
      && (forall i :: 0 <= i < |r.lines| && i !in picked[k..] ==> after.lines[i] == r.lines[i])
      && (forall i :: 0 <= i < |r.lines| && i in picked[k..] ==>
           after.lines[i] == r.lines[i] || after.lines[i] == r.lines[i].(state := OutcomeOf(reply(i))))
      && (done ==> forall i :: 0 <= i < |r.lines| && i in picked[k..] ==>
        after.lines[i] == r.lines[i].(state := OutcomeOf(reply(i))))
    decreases |picked| - k
  {
    if k < |picked| && reply(picked[k]) != EnvelopeRefused {
      var r1 := Paid(r, picked[k], reply);
      PaidLines(r1, picked, k + 1, reply);
      assert picked[k..] == [picked[k]] + picked[k + 1..];
      assert picked[k] !in picked[k + 1..];
    }
  }

  /** The log after a batch: distinct, and without pending lines. */
  lemma {:induction false} PaidLog(r: Run, picked: seq<nat>, k: nat, reply: nat -> Reply)
    requires k <= |picked| && InRange(picked, |r.lines|)
    requires forall i, j :: 0 <= i < j < |picked| ==> picked[i] < picked[j]
    requires SubmittedOnce(r) && forall j :: k <= j < |picked| ==> picked[j] !in r.submitted
    ensures SubmittedOnce(PayFrom(r, picked, k, reply).0)
    decreases |picked| - k
  {
    if k < |picked| && reply(picked[k]) != EnvelopeRefused {
      var r1 := Paid(r, picked[k], reply);
      forall j | 0 <= j < |r1.submitted|
        ensures r1.submitted[j] < |r1.lines| && r1.lines[r1.submitted[j]].state != Pending
      {
        if j < |r.submitted| {
          assert r1.submitted[j] == r.submitted[j];
        }
      }
      PaidLog(r1, picked, k + 1, reply);
    }
  }

  // ----- every batch keeps the invariant

  lemma ClosedBalanced(r: Run, s: int, f: int)
    requires r.totalLines == |r.lines| && r.totalAmount == SumOf(r.lines, AnyAmount())
    requires s == Count(r.lines, Succeeded) && f == Count(r.lines, Failed) && s + f == r.totalLines
    ensures Balanced(Aggregated(r, ClosedState(s, f, r.totalLines)))
  {
    CountsPartition(r.lines);
    CountNonNegative(r.lines, Pending);
    CountNonNegative(r.lines, Processing);
    CountZero(r.lines, Pending);
    CountZero(r.lines, Processing);
  }

  lemma AllOne(r: Run)
    requires r.totalLines == |r.lines|
    ensures Count(r.lines, Succeeded) == r.totalLines ==> Count(r.lines, Failed) == 0
    ensures Count(r.lines, Failed) == r.totalLines ==> Count(r.lines, Succeeded) == 0
  {
    CountsPartition(r.lines);
    CountNonNegative(r.lines, Pending);
    CountNonNegative(r.lines, Processing);
    CountNonNegative(r.lines, Succeeded);
    CountNonNegative(r.lines, Failed);
  }

  lemma ClosingSound(r: Run, found: RunState)
    requires Sound(r) && !IsClosed(found)
    ensures Sound(Closing(r, found))
  {
    AllOne(r);
    var s, f := Count(r.lines, Succeeded), Count(r.lines, Failed);
    if s + f == r.totalLines {
      ClosedBalanced(r, s, f);
    }
  }

  lemma AfterBatchSound(r: Run)
    requires r.totalLines == |r.lines| && r.totalAmount == SumOf(r.lines, AnyAmount()) && SubmittedOnce(r)
    ensures Sound(AfterBatch(r))
  {
    CountsPartition(r.lines);
    if Count(r.lines, Pending) == 0 && Count(r.lines, Processing) == 0 {
      ClosedBalanced(r, Count(r.lines, Succeeded), Count(r.lines, Failed));
    }
  }

  /** The run with its picked lines marked. */
  lemma MarkedRun(r: Run, picked: seq<nat>) returns (marked: Run)
    requires Sound(r) && Batchable(r.lines, picked)
    ensures marked == r.(lines := Marked(r.lines, picked, |picked|)) && SubmittedOnce(marked)
    ensures forall i :: 0 <= i < |r.lines| ==>
      marked.lines[i] == if i in picked then r.lines[i].(state := Processing) else r.lines[i]
    ensures forall j :: 0 <= j < |picked| ==> picked[j] !in r.submitted
  {
    marked := r.(lines := Marked(r.lines, picked, |picked|));
    assert picked[..|picked|] == picked;
    forall i | 0 <= i < |r.lines|
      ensures marked.lines[i] == if i in picked then r.lines[i].(state := Processing) else r.lines[i]
    {
      MarkedAt(r.lines, picked, |picked|, i);
    }
    forall j | 0 <= j < |picked|
      ensures picked[j] !in r.submitted
    {
      assert r.lines[picked[j]].state == Pending;
    }
  }

  lemma BatchOverSound(r: Run, picked: seq<nat>, reply: nat -> Reply)
    requires Sound(r) && !IsClosed(r.state) && Batchable(r.lines, picked)
    ensures Sound(BatchOver(r, picked, reply).run)
  {
    var marked := MarkedRun(r, picked);
    PaidLines(marked, picked, 0, reply);
    PaidLog(marked, picked, 0, reply);
    var paid := PayFrom(marked, picked, 0, reply).0;
    SameAmounts(paid.lines, r.lines);
    AfterBatchSound(paid);
  }

  /** Whatever the replies and the batch size, a batch keeps lines, amounts and log in step. */
  lemma BatchSound(r: Run, batchSize: nat, reply: nat -> Reply)
    requires Sound(r)
    ensures Sound(ProcessBatch(r, batchSize, reply).run)
  {
    if !IsClosed(r.state) {
      PickBatchable(r.lines, 0, batchSize);
      var picked := Pick(r.lines, 0, batchSize);
      if picked == [] {
        ClosingSound(Started(r), r.state);
      } else {
        BatchOverSound(Started(r), picked, reply);
      }
    }
  }

  /** A batch leaves the lines it did not pick, and none of the picked ones pending. */
  lemma BatchOverLines(r: Run, picked: seq<nat>, reply: nat -> Reply)
    requires Sound(r) && Batchable(r.lines, picked)
    ensures var after := BatchOver(r, picked, reply).run;
      && |after.lines| == |r.lines|
      && forall i :: 0 <= i < |r.lines| ==>
        if i in picked then after.lines[i].state != Pending else after.lines[i] == r.lines[i]
  {
    var marked := MarkedRun(r, picked);
    PaidLines(marked, picked, 0, reply);
    assert picked[0..] == picked;
  }

  /** A line that is no longer pending keeps its state. */
  lemma ResultsStay(r: Run, batchSize: nat, reply: nat -> Reply, i: nat)
    requires Sound(r) && i < |r.lines| && r.lines[i].state != Pending
    ensures var after := ProcessBatch(r, batchSize, reply).run; i < |after.lines| && after.lines[i] == r.lines[i]
  {
    if !IsClosed(r.state) {
      PickBatchable(r.lines, 0, batchSize);
      var picked := Pick(r.lines, 0, batchSize);
      if picked != [] {
        BatchOverLines(Started(r), picked, reply);
        assert i !in picked;
      }
    }
  }

  // ----- running to completion

  /** What is left to do. */
  function Left(r: Run): nat {
    CountNonNegative(r.lines, Pending);
    Count(r.lines, Pending)
  }

  lemma {:induction false} FewerPending(a: seq<Line>, b: seq<Line>)
    requires |a| == |b| && forall i :: 0 <= i < |a| ==> b[i].state == Pending ==> a[i].state == Pending
    ensures Count(b, Pending) <= Count(a, Pending)
    ensures (exists i :: 0 <= i < |a| && a[i].state == Pending && b[i].state != Pending) ==>
      Count(b, Pending) < Count(a, Pending)
  {
    if a != [] {
      FewerPending(a[..|a| - 1], b[..|b| - 1]);
      if i :| 0 <= i < |a| && a[i].state == Pending && b[i].state != Pending {
        if i < |a| - 1 {
          assert a[..|a| - 1][i].state == Pending && b[..|b| - 1][i].state != Pending;
        }
      }
    }
  }

  /** A batch that neither ends the run nor throws leaves fewer pending lines: the driver comes back for
      every batch size. */
  lemma BatchProgress(r: Run, batchSize: nat, reply: nat -> Reply)
    requires Sound(r) && !ProcessBatch(r, batchSize, reply).terminal && !ProcessBatch(r, batchSize, reply).threw
    ensures Left(ProcessBatch(r, batchSize, reply).run) < Left(r)
  {
    PickBatchable(r.lines, 0, batchSize);
    var picked := Pick(r.lines, 0, batchSize);
    BatchOverLines(Started(r), picked, reply);
    var after := ProcessBatch(r, batchSize, reply).run;
    assert picked[0] in picked && r.lines[picked[0]].state == Pending && after.lines[picked[0]].state != Pending;
    FewerPending(r.lines, after.lines);
  }

  /** What the driver comes to: the run, and whether a batch threw. */
  function CompletionOf(r: Run, batchSize: nat, reply: nat -> Reply): (Run, bool)
    requires Sound(r)
    decreases Left(r)
  {
    var b := ProcessBatch(r, batchSize, reply);
    BatchSound(r, batchSize, reply);
    if b.threw then (b.run, true)
    else if b.terminal then (b.run, false)
    else
      BatchProgress(r, batchSize, reply);
      CompletionOf(b.run, batchSize, reply)
  }

  /** Every pending line with the result its reply gives it. */
  function Final(lines: seq<Line>, reply: nat -> Reply): (after: seq<Line>)
    ensures |after| == |lines|
  {
    seq(|lines|, i requires 0 <= i < |lines| =>
      if lines[i].state == Pending then lines[i].(state := OutcomeOf(reply(i))) else lines[i])
  }

  ghost predicate NoneRefused(lines: seq<Line>, reply: nat -> Reply) {
    forall i: nat :: i < |lines| && lines[i].state == Pending ==> reply(i) != EnvelopeRefused
  }

  ghost predicate NoneProcessing(lines: seq<Line>) {
    forall i :: 0 <= i < |lines| ==> lines[i].state != Processing
  }

  /** A line paid in a batch, or one that was not pending, is as far as it will get. */
  predicate Forward(before: Line, after: Line, reply: Reply) {
    after == before || (before.state == Pending && after == before.(state := OutcomeOf(reply)))
  }

  lemma ForwardKeepsFinal(before: seq<Line>, after: seq<Line>, reply: nat -> Reply)
    requires |before| == |after| && NoneRefused(before, reply) && NoneProcessing(before)
    requires forall i :: 0 <= i < |before| ==> Forward(before[i], after[i], reply(i))
    ensures Final(after, reply) == Final(before, reply) && NoneRefused(after, reply) && NoneProcessing(after)
  {
    forall i | 0 <= i < |before|
      ensures Final(after, reply)[i] == Final(before, reply)[i] && after[i].state != Processing
    {
      assert Forward(before[i], after[i], reply(i));
    }
    forall i: nat | i < |after| && after[i].state == Pending
      ensures reply(i) != EnvelopeRefused
    {
      assert Forward(before[i], after[i], reply(i));
    }
  }

  /** A batch moves the lines towards their final states and no further. */
  lemma BatchTowardsFinal(r: Run, picked: seq<nat>, reply: nat -> Reply)
    requires Sound(r) && Batchable(r.lines, picked) && NoneRefused(r.lines, reply) && NoneProcessing(r.lines)
    ensures var b := BatchOver(r, picked, reply);
      && !b.threw && Final(b.run.lines, reply) == Final(r.lines, reply)
      && NoneRefused(b.run.lines, reply) && NoneProcessing(b.run.lines)
  {
    var marked := MarkedRun(r, picked);
    PaidLines(marked, picked, 0, reply);
    assert picked[0..] == picked;
    var paid := PayFrom(marked, picked, 0, reply).0;
    forall i | 0 <= i < |r.lines|
      ensures Forward(r.lines[i], paid.lines[i], reply(i))
    {
      if i in picked {
        assert r.lines[i].state == Pending;
      }
    }
    ForwardKeepsFinal(r.lines, paid.lines, reply);
  }

  lemma NothingPendingCloses(r: Run, found: RunState)
    requires Sound(r) && NoneProcessing(r.lines) && forall i :: 0 <= i < |r.lines| ==> r.lines[i].state != Pending
    ensures IsClosed(Closing(r, found).state)
  {
    CountsPartition(r.lines);
    CountZero(r.lines, Pending);
    CountZero(r.lines, Processing);
  }

  /** One batch on the way to the final lines: it ends the run closed, or leaves it open with less to do. */
  lemma BatchCloses(r: Run, batchSize: nat, reply: nat -> Reply)
    requires Sound(r) && !IsClosed(r.state) && batchSize >= 1
    requires NoneRefused(r.lines, reply) && NoneProcessing(r.lines)
    ensures var b := ProcessBatch(r, batchSize, reply);
      && !b.threw && Final(b.run.lines, reply) == Final(r.lines, reply)
      && NoneRefused(b.run.lines, reply) && NoneProcessing(b.run.lines) && (b.terminal <==> IsClosed(b.run.state))
  {
    PickBatchable(r.lines, 0, batchSize);
    var picked := Pick(r.lines, 0, batchSize);
    if picked == [] {
      NothingPendingCloses(Started(r), r.state);
    } else {
      BatchTowardsFinal(Started(r), picked, reply);
    }
  }

  lemma ClosedIsFinal(r: Run, reply: nat -> Reply)
    requires Sound(r) && IsClosed(r.state)
    ensures Final(r.lines, reply) == r.lines
  {
  }

  /** With a batch size of at least one, no line stuck in processing and no envelope refused, the driver
      closes the run, and each line ends as its own reply says, whatever the batch size. */
  lemma {:induction false} CompletionExact(r: Run, batchSize: nat, reply: nat -> Reply)
    requires Sound(r) && !IsClosed(r.state) && batchSize >= 1
    requires NoneRefused(r.lines, reply) && NoneProcessing(r.lines)
    ensures var (after, threw) := CompletionOf(r, batchSize, reply);
      !threw && IsClosed(after.state) && Sound(after) && after.lines == Final(r.lines, reply)
    decreases Left(r)
  {
    var b := ProcessBatch(r, batchSize, reply);
    BatchSound(r, batchSize, reply);
    BatchCloses(r, batchSize, reply);
    if b.terminal {
      ClosedIsFinal(b.run, reply);
    } else {
      BatchProgress(r, batchSize, reply);
      CompletionExact(b.run, batchSize, reply);
    }
  }

  /** With a batch size of zero the driver reports the end at once and pending lines stay pending; the run
      is closed exactly when every line was done. */
  lemma ZeroBatchSize(r: Run, reply: nat -> Reply)
    requires Sound(r) && !IsClosed(r.state)
    ensures CompletionOf(r, 0, reply) == (Closing(Started(r), r.state), false)
    ensures CompletionOf(r, 0, reply).0.lines == r.lines && CompletionOf(r, 0, reply).0.submitted == r.submitted
    ensures IsClosed(CompletionOf(r, 0, reply).0.state) <==> NoneProcessing(r.lines) && NonePending(r.lines)
  {
    ClosingSound(Started(r), r.state);
    if NoneProcessing(r.lines) && NonePending(r.lines) {
      NothingPendingCloses(Started(r), r.state);
    }
  }

  ghost predicate NonePending(lines: seq<Line>) {
    forall i :: 0 <= i < |lines| ==> lines[i].state != Pending
  }

  /** A line left in processing is never picked again, and keeps its run from being closed. */
  lemma StuckLine(r: Run, batchSize: nat, reply: nat -> Reply, i: nat)
    requires Sound(r) && !IsClosed(r.state) && i < |r.lines| && r.lines[i].state == Processing
    ensures var after := ProcessBatch(r, batchSize, reply).run;
      i < |after.lines| && after.lines[i] == r.lines[i] && !IsClosed(after.state)
  {
    var after := ProcessBatch(r, batchSize, reply).run;
    ResultsStay(r, batchSize, reply, i);
    BatchSound(r, batchSize, reply);
    assert after.lines[i].state == Processing;
  }

  /** And so for as long as the driver runs: the line stays in processing and the run open. */
  lemma {:induction false} StuckRun(r: Run, batchSize: nat, reply: nat -> Reply, i: nat)
    requires Sound(r) && !IsClosed(r.state) && i < |r.lines| && r.lines[i].state == Processing
    ensures var after := CompletionOf(r, batchSize, reply).0;
      i < |after.lines| && after.lines[i] == r.lines[i] && !IsClosed(after.state)
    decreases Left(r)
  {
    var b := ProcessBatch(r, batchSize, reply);
    StuckLine(r, batchSize, reply, i);
    if !b.threw && !b.terminal {
      BatchSound(r, batchSize, reply);
      BatchProgress(r, batchSize, reply);
      StuckRun(b.run, batchSize, reply, i);
    }
  }

  /** A batch throws when it picks the line, and otherwise leaves it pending. */
  lemma RefusedLine(r: Run, batchSize: nat, reply: nat -> Reply, i: nat)
    requires Sound(r) && !IsClosed(r.state) && i < |r.lines| && r.lines[i].state == Pending
    requires reply(i) == EnvelopeRefused
    ensures var b := ProcessBatch(r, batchSize, reply);
      b.threw || (i < |b.run.lines| && b.run.lines[i] == r.lines[i] && !IsClosed(b.run.state))
  {
    var picked := Pick(r.lines, 0, batchSize);
    PickBatchable(r.lines, 0, batchSize);
    if i in picked {
      RefusedThrows(Started(r), picked, reply, i);
    } else {
      NotPicked(r, batchSize, reply, i);
      BatchSound(r, batchSize, reply);
      PendingOpen(ProcessBatch(r, batchSize, reply).run, i);
    }
  }

  lemma NotPicked(r: Run, batchSize: nat, reply: nat -> Reply, i: nat)
    requires Sound(r) && i < |r.lines| && i !in Pick(r.lines, 0, batchSize)
    ensures var after := ProcessBatch(r, batchSize, reply).run; i < |after.lines| && after.lines[i] == r.lines[i]
  {
    PickBatchable(r.lines, 0, batchSize);
    if Pick(r.lines, 0, batchSize) != [] {
      BatchOverLines(Started(r), Pick(r.lines, 0, batchSize), reply);
    }
  }

  lemma PendingOpen(r: Run, i: nat)
    requires Sound(r) && i < |r.lines| && r.lines[i].state == Pending
    ensures !IsClosed(r.state)
  {
  }

  lemma RefusedThrows(r: Run, picked: seq<nat>, reply: nat -> Reply, i: nat)
    requires Sound(r) && Batchable(r.lines, picked) && i in picked && reply(i) == EnvelopeRefused
    ensures BatchOver(r, picked, reply).threw
  {
    var marked := MarkedRun(r, picked);
    PaidLines(marked, picked, 0, reply);
    var j :| 0 <= j < |picked| && picked[j] == i;
    assert Refused(picked, 0, reply);
  }

  /** A pending line whose envelope is refused: the driver throws, or ends with the run open. */
  lemma {:induction false} RefusedRun(r: Run, batchSize: nat, reply: nat -> Reply, i: nat)
    requires Sound(r) && !IsClosed(r.state) && i < |r.lines| && r.lines[i].state == Pending
    requires reply(i) == EnvelopeRefused
    ensures var (after, threw) := CompletionOf(r, batchSize, reply); threw || !IsClosed(after.state)
    decreases Left(r)
  {
    var b := ProcessBatch(r, batchSize, reply);
    RefusedLine(r, batchSize, reply, i);
    if !b.threw && !b.terminal {
      BatchSound(r, batchSize, reply);
      BatchProgress(r, batchSize, reply);
      RefusedRun(b.run, batchSize, reply, i);
    }
  }

  /** Exactly when the driver closes an open run without throwing: no line was left in processing before,
      and the batch size is at least one and no pending line's envelope is refused, or the batch size is
      zero and no line is pending. */
  lemma ClosesExactly(r: Run, batchSize: nat, reply: nat -> Reply)
    requires Sound(r) && !IsClosed(r.state)
    ensures var (after, threw) := CompletionOf(r, batchSize, reply);
      !threw && IsClosed(after.state) <==>
        NoneProcessing(r.lines) && if batchSize >= 1 then NoneRefused(r.lines, reply) else NonePending(r.lines)
  {
    if i :| 0 <= i < |r.lines| && r.lines[i].state == Processing {
      StuckRun(r, batchSize, reply, i);
    } else if batchSize == 0 {
      ZeroBatchSize(r, reply);
    } else if i: nat :| i < |r.lines| && r.lines[i].state == Pending && reply(i) == EnvelopeRefused {
      RefusedRun(r, batchSize, reply, i);
    } else {
      CompletionExact(r, batchSize, reply);
    }
  }

  // ----- what the driver reports

  /** The lines the driver says it processed, summed over its batches. */
  function ProcessedOf(r: Run, batchSize: nat, reply: nat -> Reply): nat
    requires Sound(r)
    decreases Left(r)
  {
    var b := ProcessBatch(r, batchSize, reply);
    BatchSound(r, batchSize, reply);
    if b.threw then 0
    else if b.terminal then b.processed
    else
      BatchProgress(r, batchSize, reply);
      b.processed + ProcessedOf(b.run, batchSize, reply)
  }

  lemma {:induction false} PaidCount(r: Run, picked: seq<nat>, k: nat, reply: nat -> Reply)
    requires k <= |picked| && InRange(picked, |r.lines|)
    ensures var (after, done) := PayFrom(r, picked, k, reply);
      done ==> |after.submitted| == |r.submitted| + |picked| - k
    decreases |picked| - k
  {
    if k < |picked| && reply(picked[k]) != EnvelopeRefused {
      PaidCount(Paid(r, picked[k], reply), picked, k + 1, reply);
    }
  }

  lemma BatchCount(r: Run, batchSize: nat, reply: nat -> Reply)
    requires Sound(r)
    ensures var b := ProcessBatch(r, batchSize, reply);
      !b.threw ==> |b.run.submitted| == |r.submitted| + b.processed
  {
    var picked := Pick(r.lines, 0, batchSize);
    PickBatchable(r.lines, 0, batchSize);
    if !IsClosed(r.state) && picked != [] {
      var started := Started(r);
      PaidCount(started.(lines := Marked(started.lines, picked, |picked|)), picked, 0, reply);
    }
  }

  /** A driver that does not throw reports exactly the number of lines it handed to the orchestrator. */
  lemma {:induction false} ProcessedIsSubmitted(r: Run, batchSize: nat, reply: nat -> Reply)
    requires Sound(r)
    ensures var (after, threw) := CompletionOf(r, batchSize, reply);
      !threw ==> |after.submitted| == |r.submitted| + ProcessedOf(r, batchSize, reply)
    decreases Left(r)
  {
    var b := ProcessBatch(r, batchSize, reply);
    BatchCount(r, batchSize, reply);
    if !b.threw && !b.terminal {
      BatchSound(r, batchSize, reply);
      BatchProgress(r, batchSize, reply);
      ProcessedIsSubmitted(b.run, batchSize, reply);
    }
  }
}
