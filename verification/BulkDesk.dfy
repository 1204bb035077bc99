/** The bulk service as it updates its tables (modules/overlays-bulk/service.js). */
module BulkDesk {
  import opened Bulk
  import opened BulkConservation

  datatype UploadError = BufferRequired

  datatype Upload = Uploaded(id: nat, deduped: bool) | Refusal(error: UploadError)

  /** This run is of the same file from the same originator. */
  predicate IsRunOf(runs: seq<Run>, originator: string, sha: string, id: nat) {
    id < |runs| && runs[id].originator == originator && runs[id].sha == sha
  }

  class Desk {
    var runs: seq<Run>

    constructor ()
      ensures runs == []
    {
      runs := [];
    }

    /** `findRunBySha` */
    method FindRunBySha(originator: string, sha: string) returns (found: bool, id: nat)
      ensures found ==> IsRunOf(runs, originator, sha, id)
      ensures !found ==> forall k: nat :: !IsRunOf(runs, originator, sha, k)
    {
      id := 0;
      while id < |runs|
        invariant 0 <= id <= |runs|
        invariant forall k: nat :: k < id ==> !IsRunOf(runs, originator, sha, k)
      {
        if runs[id].originator == originator && runs[id].sha == sha {
          return true, id;
        }
        id := id + 1;
      }
      return false, 0;
    }

    /** The total and the lines of a file's items. */
    method LayOut(items: seq<Item>) returns (total: int, lines: seq<Line>)
      ensures total == ItemsAmount(items) && lines == LinesOf(items)
    {
      total, lines := 0, [];
      var i := 0;
      while i < |items|
        invariant 0 <= i <= |items| && total == ItemsAmount(items[..i]) && lines == LinesOf(items[..i])
      {
        assert items[..i + 1][..i] == items[..i];
        match items[i] {
          case Envelope(amount) =>
            total := total + amount;
            lines := lines + [Line(Pending, amount)];
          case ParseError =>
            lines := lines + [Line(Failed, 0)];
        }
        i := i + 1;
      }
      assert items[..i] == items;
    }

    /** `upload`: the same file from the same originator gives back its run. */
    method UploadFile(originator: string, sha: string, bufferEmpty: bool, items: seq<Item>) returns (r: Upload)
      modifies this`runs
      ensures bufferEmpty ==> r == Refusal(BufferRequired)
      ensures r.Refusal? ==> runs == old(runs)
      ensures r.Uploaded? && r.deduped ==> runs == old(runs) && IsRunOf(old(runs), originator, sha, r.id)
      ensures r.Uploaded? && !r.deduped ==>
        && (forall k: nat :: !IsRunOf(old(runs), originator, sha, k))
        && r.id == |old(runs)| && runs == old(runs) + [NewRun(originator, sha, items)]
    {
      if bufferEmpty {
        return Refusal(BufferRequired);
      }
      var found, id := FindRunBySha(originator, sha);
      if found {
        return Uploaded(id, true);
      }
      var total, lines := LayOut(items);
      runs := runs + [Run(originator, sha, Queued, |items|, total, 0, 0, 0, 0, lines, [])];
      return Uploaded(|runs| - 1, false);
    }

    method SetRun(id: nat, r: Run)
      requires id < |runs|
      modifies this`runs
      ensures runs == old(runs)[id := r]
    {
      runs := runs[id := r];
    }

    /** The picked lines marked as being processed. */
    method MarkLines(id: nat, picked: seq<nat>)
      requires id < |runs| && InRange(picked, |runs[id].lines|)
      modifies this`runs
      ensures runs == old(runs)[id := old(runs)[id].(lines := Marked(old(runs)[id].lines, picked, |picked|))]
    {
      ghost var before := runs[id];
      var k := 0;
      while k < |picked|
        invariant 0 <= k <= |picked|
        invariant runs == old(runs)[id := before.(lines := Marked(before.lines, picked, k))]
      {
        var r := runs[id];
        SetRun(id, r.(lines := WithState(r.lines, picked[k], Processing)));
        k := k + 1;
      }
    }

    /** The picked lines are paid one after the other; a refused envelope throws out of the loop. */
    method PayLines(id: nat, picked: seq<nat>, reply: nat -> Reply) returns (done: bool)
      requires id < |runs| && InRange(picked, |runs[id].lines|)
      modifies this`runs
      ensures var (after, finished) := PayFrom(old(runs)[id], picked, 0, reply);
        runs == old(runs)[id := after] && done == finished
    {
      ghost var start := runs[id];
      var k := 0;
      assert runs == old(runs)[id := start];
      while k < |picked|
        invariant 0 <= k <= |picked| && |runs| == |old(runs)|
        invariant |runs[id].lines| == |start.lines|
        invariant runs == old(runs)[id := runs[id]]
        invariant PayFrom(start, picked, 0, reply) == PayFrom(runs[id], picked, k, reply)
      {
        if reply(picked[k]) == EnvelopeRefused {
          return false;
        }
        var paid := Paid(runs[id], picked[k], reply);
        SetRun(id, paid);
        k := k + 1;
      }
      return true;
    }

    /** `processBatch` */
    method ProcessOne(id: nat, batchSize: nat, reply: nat -> Reply)
        returns (processed: nat, terminal: bool, threw: bool)
      requires id < |runs|
      modifies this`runs
      ensures var b := ProcessBatch(old(runs)[id], batchSize, reply);
        runs == old(runs)[id := b.run] && processed == b.processed && terminal == b.terminal && threw == b.threw
    {
      var run := runs[id];
      if IsClosed(run.state) {
        return 0, true, false;
      }
      if run.state == Queued {
        SetRun(id, run.(state := Running));
      }
      assert runs == old(runs)[id := Started(run)];
      var picked := Pick(run.lines, 0, batchSize);
      if picked == [] {
        SetRun(id, Closing(runs[id], run.state));
        return 0, true, false;
      }
      MarkLines(id, picked);
      var done := PayLines(id, picked, reply);
      if !done {
        return 0, false, true;
      }
      var after := AfterBatch(runs[id]);
      SetRun(id, after);
      return |picked|, after.state != Running, false;
    }

    /** `runToCompletion` */
    method RunToCompletion(id: nat, batchSize: nat, reply: nat -> Reply) returns (processed: nat, threw: bool)
      requires id < |runs| && Sound(runs[id])
      modifies this`runs
      ensures var (after, raised) := CompletionOf(old(runs)[id], batchSize, reply);
        runs == old(runs)[id := after] && threw == raised
      ensures !threw ==> processed == ProcessedOf(old(runs)[id], batchSize, reply)
    {
      processed := 0;
      while true
        invariant |runs| == |old(runs)| && Sound(runs[id])
        invariant runs == old(runs)[id := runs[id]]
        invariant CompletionOf(old(runs)[id], batchSize, reply) == CompletionOf(runs[id], batchSize, reply)
        invariant ProcessedOf(old(runs)[id], batchSize, reply) == processed + ProcessedOf(runs[id], batchSize, reply)
        decreases Left(runs[id])
      {
        BatchSound(runs[id], batchSize, reply);
        ghost var before := runs[id];
        var n, terminal, failed := ProcessOne(id, batchSize, reply);
        if failed {
          return processed, true;
        }
        processed := processed + n;
        if terminal {
          return processed, false;
        }
        BatchProgress(before, batchSize, reply);
      }
    }
  }
}
