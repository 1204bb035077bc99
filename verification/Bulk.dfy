/** Bulk payment runs (modules/overlays-bulk/service.js): a file becomes a run of numbered lines, batches
    of pending lines are paid one by one, and the run is closed when none is left. What paying a line
    comes to is given by `reply`, which stands for the envelope builder and the orchestrator. */
module Bulk {
  import opened Sums

  datatype LineState = Pending | Processing | Succeeded | Failed

  datatype Line = Line(state: LineState, amount: int)

  datatype RunState = Queued | Running | Completed | AllFailed | PartlyFailed

  predicate IsClosed(s: RunState) {
    s == Completed || s == AllFailed || s == PartlyFailed
  }

  /** A run, its lines, and the numbers of the lines handed to the orchestrator, in order. */
  datatype Run = Run(
    originator: string, sha: string, state: RunState, totalLines: int, totalAmount: int,
    succeededCount: int, failedCount: int, succeededAmount: int, failedAmount: int,
    lines: seq<Line>, submitted: seq<nat>)

  /** What a row of the file parses to. */
  datatype Item = Envelope(amount: int) | ParseError

  /** What comes of one line: the envelope is refused before anything is sent, or the orchestrator
      confirms the payment, ends it otherwise, or throws. */
  datatype Reply = EnvelopeRefused | TxConfirmed | TxOther | Threw

  // ----- counting

  function OneIn(state: LineState): Line -> int {
    (l: Line) => if l.state == state then 1 else 0
  }

  function AmountIn(state: LineState): Line -> int {
    (l: Line) => if l.state == state then l.amount else 0
  }

  function AnyAmount(): Line -> int {
    (l: Line) => l.amount
  }

  function Count(lines: seq<Line>, state: LineState): int {
    SumOf(lines, OneIn(state))
  }

  function AmountOf(lines: seq<Line>, state: LineState): int {
    SumOf(lines, AmountIn(state))
  }

  // ----- upload

  function LineOf(item: Item): Line {
    match item
    case Envelope(amount) => Line(Pending, amount)
    case ParseError => Line(Failed, 0)
  }

  function LinesOf(items: seq<Item>): seq<Line> {
    if items == [] then [] else LinesOf(items[..|items| - 1]) + [LineOf(items[|items| - 1])]
  }

  function ItemsAmount(items: seq<Item>): int {
    if items == [] then 0
    else ItemsAmount(items[..|items| - 1]) + LineOf(items[|items| - 1]).amount
  }

  function NewRun(originator: string, sha: string, items: seq<Item>): Run {
    Run(originator, sha, Queued, |items|, ItemsAmount(items), 0, 0, 0, 0, LinesOf(items), [])
  }

  // ----- one batch

  /** `pickPendingLines`: the first pending lines from the i-th on, at most `limit` of them. */
  function Pick(lines: seq<Line>, i: nat, limit: nat): (picked: seq<nat>)
    requires i <= |lines|
    ensures |picked| <= limit
    ensures forall k :: 0 <= k < |picked| ==> i <= picked[k] < |lines| && lines[picked[k]].state == Pending
    decreases |lines| - i
  {
    if i == |lines| || limit == 0 then []
    else if lines[i].state == Pending then [i] + Pick(lines, i + 1, limit - 1)
    else Pick(lines, i + 1, limit)
  }

  function WithState(lines: seq<Line>, i: nat, state: LineState): (after: seq<Line>)
    requires i < |lines|
    ensures |after| == |lines|
  {
    lines[i := lines[i].(state := state)]
  }

  predicate InRange(picked: seq<nat>, size: nat) {
    forall k :: 0 <= k < |picked| ==> picked[k] < size
  }

  /** The first k picked lines marked as being processed. */
  function Marked(lines: seq<Line>, picked: seq<nat>, k: nat): (after: seq<Line>)
    requires k <= |picked| && InRange(picked, |lines|)
    ensures |after| == |lines|
  {
    if k == 0 then lines else WithState(Marked(lines, picked, k - 1), picked[k - 1], Processing)
  }

  function OutcomeOf(reply: Reply): LineState {
    if reply == TxConfirmed then Succeeded else Failed
  }

  /** The picked lines from the k-th on are paid; a refused envelope ends the batch where it is. */
  function PayFrom(r: Run, picked: seq<nat>, k: nat, reply: nat -> Reply): (Run, bool)
    requires k <= |picked| && InRange(picked, |r.lines|)
    decreases |picked| - k
  {
    if k == |picked| then (r, true)
    else if reply(picked[k]) == EnvelopeRefused then (r, false)
    else PayFrom(Paid(r, picked[k], reply), picked, k + 1, reply)
  }

  function Paid(r: Run, i: nat, reply: nat -> Reply): (after: Run)
    requires i < |r.lines|
    ensures |after.lines| == |r.lines|
  {
    r.(lines := WithState(r.lines, i, OutcomeOf(reply(i))), submitted := r.submitted + [i])
  }

  /** The state of a run whose lines are all done. */
  function ClosedState(succeeded: int, failed: int, total: int): RunState {
    if succeeded == total then Completed else if failed == total then AllFailed else PartlyFailed
  }

  function Aggregated(r: Run, state: RunState): Run {
    r.(state := state, succeededCount := Count(r.lines, Succeeded), failedCount := Count(r.lines, Failed),
       succeededAmount := AmountOf(r.lines, Succeeded), failedAmount := AmountOf(r.lines, Failed))
  }

  /** With nothing pending, the run is closed if every line is done, and otherwise left in the state it was
      found in. */
  function Closing(r: Run, found: RunState): Run {
    var s, f := Count(r.lines, Succeeded), Count(r.lines, Failed);
    var done := s == r.totalLines || f == r.totalLines || s + f == r.totalLines;
    Aggregated(r, if done then ClosedState(s, f, r.totalLines) else found)
  }

  /** After a batch. */
  function AfterBatch(r: Run): Run {
    if Count(r.lines, Pending) == 0 && Count(r.lines, Processing) == 0
    then Aggregated(r, ClosedState(Count(r.lines, Succeeded), Count(r.lines, Failed), r.totalLines))
    else Aggregated(r, Running)
  }

  /** What `processBatch` returns, or that it threw. */
  datatype Batch = Batch(run: Run, processed: nat, terminal: bool, threw: bool)

  function Started(r: Run): Run {
    if r.state == Queued then r.(state := Running) else r
  }

  /** The batch over the lines picked. */
  function BatchOver(r: Run, picked: seq<nat>, reply: nat -> Reply): Batch
    requires InRange(picked, |r.lines|)
  {
    var (paid, done) := PayFrom(r.(lines := Marked(r.lines, picked, |picked|)), picked, 0, reply);
    if !done then Batch(paid, 0, false, true)
    else
      var after := AfterBatch(paid);
      Batch(after, |picked|, after.state != Running, false)
  }

  /** `processBatch` */
  function ProcessBatch(r: Run, batchSize: nat, reply: nat -> Reply): Batch {
    if IsClosed(r.state) then Batch(r, 0, true, false)
    else
      var picked := Pick(r.lines, 0, batchSize);
      if picked == [] then Batch(Closing(Started(r), r.state), 0, true, false)
      else BatchOver(Started(r), picked, reply)
  }
}
