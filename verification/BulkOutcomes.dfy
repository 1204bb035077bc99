/** What becomes of a bulk run, from the outside: what a file's rows become, what one batch makes of every line
    and of the run, and what each line ends as. */
module BulkOutcomes {
  import opened Sums
  import opened Bulk
  import opened BulkConservation

  // ----- the file

  lemma {:induction false} RowsExactly(items: seq<Item>, i: nat)
    requires i < |items|
    ensures |LinesOf(items)| == |items|
    ensures LinesOf(items)[i] == match items[i]
      case Envelope(amount) => Line(Pending, amount)
      case ParseError => Line(Failed, 0)
  {
    LinesSize(items);
    var n := |items| - 1;
    LinesSize(items[..n]);
    if i < n {
      RowsExactly(items[..n], i);
    }
  }

  lemma {:induction false} LinesSize(items: seq<Item>)
    ensures |LinesOf(items)| == |items|
  {
    if items != [] {
      LinesSize(items[..|items| - 1]);
    }
  }

  /** A new run waits, with one line for each row of the file: pending for its amount, or failed if the row could
      not be parsed; nothing is counted and nothing submitted yet. */
  lemma NewRunExactly(originator: string, sha: string, items: seq<Item>)
    ensures var r := NewRun(originator, sha, items);
      && r.originator == originator && r.sha == sha && r.state == Queued && r.totalLines == |items|
      && (r.succeededCount, r.failedCount, r.succeededAmount, r.failedAmount) == (0, 0, 0, 0) && r.submitted == []
      && |r.lines| == |items|
      && forall i :: 0 <= i < |items| ==>
        r.lines[i] == match items[i] case Envelope(amount) => Line(Pending, amount) case ParseError => Line(Failed, 0)
  {
    LinesSize(items);
    forall i | 0 <= i < |items|
      ensures LinesOf(items)[i] ==
        match items[i] case Envelope(amount) => Line(Pending, amount) case ParseError => Line(Failed, 0)
    {
      RowsExactly(items, i);
    }
  }

  // ----- which lines a batch takes

  /** How many lines from k on and before i are pending. */
  function PendingBetween(lines: seq<Line>, k: nat, i: nat): nat
    requires k <= i <= |lines|
    decreases i - k
  {
    if k == i then 0 else (if lines[k].state == Pending then 1 else 0) + PendingBetween(lines, k + 1, i)
  }

  /** The line is among the first pending ones, as many as the batch holds. */
  predicate Due(lines: seq<Line>, limit: nat, i: nat) {
    i < |lines| && lines[i].state == Pending && PendingBetween(lines, 0, i) < limit
  }

  lemma {:induction false} PickFrom(lines: seq<Line>, k: nat, limit: nat, i: nat)
    requires k <= |lines|
    ensures i in Pick(lines, k, limit) <==>
      k <= i < |lines| && lines[i].state == Pending && PendingBetween(lines, k, i) < limit
    decreases |lines| - k
  {
    if k < |lines| && limit > 0 {
      var rest := if lines[k].state == Pending then limit - 1 else limit;
      PickFrom(lines, k + 1, rest, i);
      assert i != k ==> (i in Pick(lines, k, limit) <==> i in Pick(lines, k + 1, rest));
    }
  }

  // ----- what a batch makes of them

  /** A line of the batch at or before this one was refused an envelope. */
  ghost predicate RefusedBy(lines: seq<Line>, limit: nat, reply: nat -> Reply, i: nat) {
    exists j :: 0 <= j <= i && Due(lines, limit, j) && reply(j) == EnvelopeRefused
  }

  /** What a batch makes of a line: paid ones succeed if the orchestrator confirmed and fail otherwise, and those
      from the first refused envelope on are left in processing. */
  ghost function LineAfter(lines: seq<Line>, limit: nat, reply: nat -> Reply, i: nat): Line
    requires i < |lines|
  {
    if !Due(lines, limit, i) then lines[i]
    else if RefusedBy(lines, limit, reply, i) then Line(Processing, lines[i].amount)
    else if reply(i) == TxConfirmed then Line(Succeeded, lines[i].amount)
    else Line(Failed, lines[i].amount)
  }

  ghost predicate RefusedUpTo(picked: seq<nat>, k: nat, j: nat, reply: nat -> Reply)
    requires j < |picked|
  {
    exists m :: k <= m <= j && reply(picked[m]) == EnvelopeRefused
  }

  /** Paying goes through the picked lines in order, up to the first refused envelope. */
  lemma {:induction false} PaidExactly(r: Run, picked: seq<nat>, k: nat, reply: nat -> Reply, j: nat)
    requires k <= j < |picked| && InRange(picked, |r.lines|)
    requires forall a, b :: 0 <= a < b < |picked| ==> picked[a] < picked[b]
    ensures var after := PayFrom(r, picked, k, reply).0;
      && |after.lines| == |r.lines|
      && after.lines[picked[j]] ==
        if RefusedUpTo(picked, k, j, reply) then r.lines[picked[j]]
        else r.lines[picked[j]].(state := if reply(picked[j]) == TxConfirmed then Succeeded else Failed)
    decreases |picked| - k
  {
    if reply(picked[k]) == EnvelopeRefused {
      assert RefusedUpTo(picked, k, j, reply);
    } else {
      var r1 := Paid(r, picked[k], reply);
      if k == j {
        PaidLines(r1, picked, k + 1, reply);
        assert picked[k] !in picked[k + 1..];
      } else {
        PaidExactly(r1, picked, k + 1, reply, j);
        assert RefusedUpTo(picked, k, j, reply) <==> RefusedUpTo(picked, k + 1, j, reply);
      }
    }
  }

  lemma RefusedSame(lines: seq<Line>, limit: nat, picked: seq<nat>, reply: nat -> Reply, j: nat)
    requires picked == Pick(lines, 0, limit) && Batchable(lines, picked) && j < |picked|
    ensures RefusedUpTo(picked, 0, j, reply) <==> RefusedBy(lines, limit, reply, picked[j])
  {
    if m :| 0 <= m <= j && reply(picked[m]) == EnvelopeRefused {
      PickFrom(lines, 0, limit, picked[m]);
      assert picked[m] in picked && picked[m] <= picked[j];
    }
    if i: nat :| i <= picked[j] && Due(lines, limit, i) && reply(i) == EnvelopeRefused {
      PickFrom(lines, 0, limit, i);
      var m :| 0 <= m < |picked| && picked[m] == i;
      assert m <= j;
    }
  }

  /** One batch on every line. */
  lemma BatchLine(r: Run, limit: nat, reply: nat -> Reply, i: nat)
    requires Sound(r) && !IsClosed(r.state) && i < |r.lines|
    ensures var after := ProcessBatch(r, limit, reply).run;
      |after.lines| == |r.lines| && after.lines[i] == LineAfter(r.lines, limit, reply, i)
  {
    var picked := Pick(r.lines, 0, limit);
    PickBatchable(r.lines, 0, limit);
    PickFrom(r.lines, 0, limit, i);
    if picked != [] {
      OverLine(Started(r), limit, picked, reply, i);
    }
  }

  lemma OverLine(r: Run, limit: nat, picked: seq<nat>, reply: nat -> Reply, i: nat)
    requires Sound(r) && picked == Pick(r.lines, 0, limit) && Batchable(r.lines, picked) && i < |r.lines|
    ensures var after := BatchOver(r, picked, reply).run;
      |after.lines| == |r.lines| && after.lines[i] == LineAfter(r.lines, limit, reply, i)
  {
    PickFrom(r.lines, 0, limit, i);
    if i in picked {
      var j :| 0 <= j < |picked| && picked[j] == i;
      OverPicked(r, limit, picked, reply, j);
    } else {
      BatchOverLines(r, picked, reply);
    }
  }

  lemma OverPicked(r: Run, limit: nat, picked: seq<nat>, reply: nat -> Reply, j: nat)
    requires Sound(r) && picked == Pick(r.lines, 0, limit) && Batchable(r.lines, picked) && j < |picked|
    requires Due(r.lines, limit, picked[j])
    ensures var after := BatchOver(r, picked, reply).run;
      |after.lines| == |r.lines| && after.lines[picked[j]] == LineAfter(r.lines, limit, reply, picked[j])
  {
    var marked := MarkedRun(r, picked);
    assert picked[j] in picked;
    PaidExactly(marked, picked, 0, reply, j);
    RefusedSame(r.lines, limit, picked, reply, j);
  }

  /** The batch throws exactly when one of its lines is refused an envelope. */
  lemma ThrowsExactly(r: Run, limit: nat, reply: nat -> Reply)
    requires Sound(r) && !IsClosed(r.state)
    ensures ProcessBatch(r, limit, reply).threw <==>
      exists i :: 0 <= i < |r.lines| && Due(r.lines, limit, i) && reply(i) == EnvelopeRefused
  {
    PickBatchable(r.lines, 0, limit);
    if i: nat :| i < |r.lines| && Due(r.lines, limit, i) && reply(i) == EnvelopeRefused {
      PickFrom(r.lines, 0, limit, i);
      RefusedThrows(Started(r), Pick(r.lines, 0, limit), reply, i);
    }
    if ProcessBatch(r, limit, reply).threw {
      var i := ThrownBy(r, limit, Pick(r.lines, 0, limit), reply);
    }
  }

  lemma ThrownBy(r: Run, limit: nat, picked: seq<nat>, reply: nat -> Reply) returns (i: nat)
    requires Sound(r) && picked == Pick(r.lines, 0, limit) && Batchable(r.lines, picked)
    requires BatchOver(Started(r), picked, reply).threw
    ensures Due(r.lines, limit, i) && reply(i) == EnvelopeRefused
  {
    var marked := MarkedRun(Started(r), picked);
    PaidLines(marked, picked, 0, reply);
    var j :| 0 <= j < |picked| && reply(picked[j]) == EnvelopeRefused;
    i := picked[j];
    PickFrom(r.lines, 0, limit, i);
    assert picked[j] in picked;
  }

  // ----- what a batch makes of the run

  ghost predicate AllIn(lines: seq<Line>, state: LineState) {
    forall i :: 0 <= i < |lines| ==> lines[i].state == state
  }

  ghost predicate AllDone(lines: seq<Line>) {
    forall i :: 0 <= i < |lines| ==> lines[i].state == Succeeded || lines[i].state == Failed
  }

  lemma CountAll(lines: seq<Line>, state: LineState)
    ensures Count(lines, state) == |lines| <==> AllIn(lines, state)
  {
    CountsPartition(lines);
    CountNonNegative(lines, Pending);
    CountNonNegative(lines, Processing);
    CountNonNegative(lines, Succeeded);
    CountNonNegative(lines, Failed);
    CountZero(lines, Pending);
    CountZero(lines, Processing);
    CountZero(lines, Succeeded);
    CountZero(lines, Failed);
  }

  lemma DoneExactly(lines: seq<Line>)
    ensures Count(lines, Succeeded) + Count(lines, Failed) == |lines| <==> AllDone(lines)
    ensures Count(lines, Pending) == 0 && Count(lines, Processing) == 0 <==> AllDone(lines)
  {
    CountsPartition(lines);
    CountNonNegative(lines, Pending);
    CountNonNegative(lines, Processing);
    CountZero(lines, Pending);
    CountZero(lines, Processing);
  }

  /** The state of a run whose batch did not throw: closed as its lines are if they are all done; otherwise
      running, or as it was found if there was nothing to take. */
  ghost function RunStateAfter(lines: seq<Line>, took: bool, found: RunState): RunState {
    if AllIn(lines, Succeeded) then Completed
    else if AllIn(lines, Failed) then AllFailed
    else if AllDone(lines) then PartlyFailed
    else if took then Running
    else found
  }

  lemma AggregatesRight(r: Run, state: RunState)
    ensures CountsRight(Aggregated(r, state)) && Aggregated(r, state).lines == r.lines
  {
  }

  /** The run's counts and amounts are those of its lines. */
  predicate CountsRight(r: Run) {
    && r.succeededCount == SumOf(r.lines, OneIn(Succeeded)) && r.failedCount == SumOf(r.lines, OneIn(Failed))
    && r.succeededAmount == SumOf(r.lines, AmountIn(Succeeded)) && r.failedAmount == SumOf(r.lines, AmountIn(Failed))
  }

  lemma ClosingState(r: Run, found: RunState)
    requires r.totalLines == |r.lines|
    ensures Closing(r, found).state == RunStateAfter(r.lines, false, found)
  {
    CountAll(r.lines, Succeeded);
    CountAll(r.lines, Failed);
    DoneExactly(r.lines);
  }

  lemma AfterBatchState(r: Run)
    requires r.totalLines == |r.lines| && r.lines != []
    ensures AfterBatch(r).state == RunStateAfter(r.lines, true, Running)
  {
    CountAll(r.lines, Succeeded);
    CountAll(r.lines, Failed);
    DoneExactly(r.lines);
  }

  /** What a batch makes of the run: one that throws only leaves it running, and any other stores the counts of
      its lines and the state they are in. */
  lemma RunExactly(r: Run, limit: nat, reply: nat -> Reply)
    requires Sound(r) && !IsClosed(r.state)
    ensures var b := ProcessBatch(r, limit, reply);
      if b.threw then b.run.state == (if r.state == Queued then Running else r.state)
      else
        && CountsRight(b.run)
        && b.run.state == RunStateAfter(b.run.lines, exists i :: 0 <= i < |r.lines| && Due(r.lines, limit, i), r.state)
  {
    var picked := Pick(r.lines, 0, limit);
    PickBatchable(r.lines, 0, limit);
    if picked == [] {
      forall i | 0 <= i < |r.lines|
        ensures !Due(r.lines, limit, i)
      {
        PickFrom(r.lines, 0, limit, i);
      }
      ClosingState(Started(r), r.state);
    } else {
      PickFrom(r.lines, 0, limit, picked[0]);
      assert picked[0] in picked && Due(r.lines, limit, picked[0]);
      OverState(Started(r), picked, reply);
    }
  }

  lemma OverState(r: Run, picked: seq<nat>, reply: nat -> Reply)
    requires Sound(r) && picked != [] && Batchable(r.lines, picked)
    ensures var b := BatchOver(r, picked, reply);
      if b.threw then b.run.state == r.state
      else CountsRight(b.run) && b.run.state == RunStateAfter(b.run.lines, true, Running)
  {
    var marked := MarkedRun(r, picked);
    PaidLines(marked, picked, 0, reply);
    AfterBatchState(PayFrom(marked, picked, 0, reply).0);
  }

  // ----- what the driver makes of a line

  /** When the driver closes the run, every line that was pending succeeded exactly if its own payment was
      confirmed, and every other line is as it was. */
  lemma DriverLine(r: Run, batchSize: nat, reply: nat -> Reply, i: nat)
    requires Sound(r) && !IsClosed(r.state) && batchSize >= 1 && NoneRefused(r.lines, reply) && NoneProcessing(r.lines)
    requires i < |r.lines|
    ensures var after := CompletionOf(r, batchSize, reply).0.lines;
      && |after| == |r.lines|
      && after[i] ==
        if r.lines[i].state != Pending then r.lines[i]
        else Line(if reply(i) == TxConfirmed then Succeeded else Failed, r.lines[i].amount)
  {
    CompletionExact(r, batchSize, reply);
  }
}
