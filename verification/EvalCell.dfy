/**
 The durable state of one case and repetition of an eval matrix, and the updates the runner makes to it.
 `Cell` is a snapshot, as the manifest file holds it; `EvalCell` is the object the worker threads update
 in place, and each of its methods is one update under the manifest lock.
 */
module EvalCells {
  import opened Options
  import Decimal

  datatype CellStatus = Pending | Running | Ran | Completed | InfrastructureError

  /** The execution envelope of a run; when present, its cost and duration win over the run's own. */
  datatype Execution = Execution(effectiveModel: Option<string>, fingerprint: string,
                                 durationMs: int, costUsd: real, costSource: string)

  datatype RunResult = RunResult(runId: string, status: string, tracePath: string,
                                 costUsd: real, durationMs: int, execution: Option<Execution>)

  /** What the metric store answers: how many rows it was given, how many were new, how many it had already. */
  datatype Ingestion = Ingestion(received: nat, inserted: nat, duplicates: nat)

  /** The scorers' answer; the metrics are ingested only for a run that kept its trace. */
  datatype Scoring = Scoring(status: string, metrics: nat, ingestion: Option<Ingestion>)

  /** `metric_ingestion`: nothing yet, what the store answered, or that the run had no trace to ingest for. */
  datatype MetricIngestion = NotScored | Ingested(counts: Ingestion) | TraceDisabled(received: nat)

  /** What a cell keeps of its run's execution: model, fingerprint, duration and cost. */
  datatype Receipt = Receipt(effectiveModel: Option<string>, fingerprint: string,
                             durationMs: int, costUsd: real, costSource: string)

  /** `error_phase` and `error_type`; the message text is not kept. */
  datatype CellError = NoError | CellError(phase: string, kind: string)

  datatype Cell = Cell(
    status: CellStatus, runId: string, attemptRunIds: seq<string>, attempts: nat,
    runStatus: string, scorerStatus: string, ingestion: MetricIngestion,
    receipt: Receipt, tracePath: string, traceDisabled: bool, error: CellError)

  /** A cell as the manifest is first written, before any attempt. */
  function FreshCell(base: string): (c: Cell)
    ensures c.status == Pending && c.attempts == 0 && c.attemptRunIds == [] && c.error == NoError
    ensures c.runStatus == "" && c.tracePath == "" && !c.traceDisabled && c.ingestion == NotScored
  {
    Cell(Pending, base, [], 0, "", "not_run", NotScored, Receipt(None, "", 0, 0.0, "none"), "", false, NoError)
  }

  /** The first attempt runs under the bare id, a retry under the id with its attempt number. */
  function RunId(base: string, attempt: nat): string {
    if attempt == 1 then base else base + "-a" + Decimal.Print(attempt)
  }

  function TracePath(root: string, runId: string): string {
    root + "/" + runId + ".jsonl"
  }

  /** The ids of the first `n` attempts, in order. */
  function AttemptIds(base: string, n: nat): (ids: seq<string>)
    ensures |ids| == n
  {
    if n == 0 then [] else AttemptIds(base, n - 1) + [RunId(base, n)]
  }

  /** Attempts of cells with different bases of one length, and different attempts of one cell, have different ids. */
  lemma RunIdInjective(base1: string, n1: nat, base2: string, n2: nat)
    requires |base1| == |base2|
    requires RunId(base1, n1) == RunId(base2, n2)
    ensures base1 == base2 && n1 == n2
  {
    var id1, id2 := RunId(base1, n1), RunId(base2, n2);
    assert id1[..|base1|] == base1 && id2[..|base2|] == base2;
    if n1 != 1 && n2 != 1 {
      assert id1[|base1| + 2..] == Decimal.Print(n1) && id2[|base1| + 2..] == Decimal.Print(n2);
      Decimal.PrintInjective(n1, n2);
    }
  }

  lemma TracePathInjective(root: string, id1: string, id2: string)
    requires TracePath(root, id1) == TracePath(root, id2)
    ensures id1 == id2
  {
    var p1, p2 := TracePath(root, id1), TracePath(root, id2);
    assert p1[|root| + 1..|p1| - 6] == id1 && p2[|root| + 1..|p2| - 6] == id2;
  }

  /** The attempt ids a manifest records never repeat. */
  lemma {:induction false} AttemptIdsDistinct(base: string, n: nat)
    ensures forall k :: 0 <= k < n ==> AttemptIds(base, n)[k] == RunId(base, k + 1)
    ensures forall j, k :: 0 <= j < k < n ==> AttemptIds(base, n)[j] != AttemptIds(base, n)[k]
  {
    if n > 0 {
      AttemptIdsDistinct(base, n - 1);
      forall j | 0 <= j < n - 1
        ensures AttemptIds(base, n)[j] != AttemptIds(base, n)[n - 1]
      {
        if RunId(base, j + 1) == RunId(base, n) {
          RunIdInjective(base, j + 1, base, n);
        }
      }
    }
  }

  function Begun(c: Cell, base: string, root: string): Cell {
    var id := RunId(base, c.attempts + 1);
    c.(attempts := c.attempts + 1, runId := id, attemptRunIds := c.attemptRunIds + [id],
       tracePath := TracePath(root, id), traceDisabled := false, status := Running, error := NoError)
  }

  /** The envelope's receipt where there is one; else only the duration and cost of the run change. */
  function ReceiptOf(before: Receipt, r: RunResult): Receipt {
    if r.execution.Some? then
      var x := r.execution.value;
      Receipt(x.effectiveModel, x.fingerprint, x.durationMs, x.costUsd, x.costSource)
    else
      before.(durationMs := r.durationMs, costUsd := r.costUsd)
  }

  function WithResult(c: Cell, r: RunResult): Cell {
    c.(runId := if r.runId != "" then r.runId else c.runId, runStatus := r.status,
       tracePath := r.tracePath, traceDisabled := r.tracePath == "",
       receipt := ReceiptOf(c.receipt, r), status := Ran, error := NoError)
  }

  function WithScoring(c: Cell, s: Scoring): Cell {
    c.(scorerStatus := s.status,
       ingestion := if s.ingestion.Some? then Ingested(s.ingestion.value) else TraceDisabled(s.metrics),
       status := Completed)
  }

  /**
   What a cell says of a run, field by field. With an execution envelope the model, fingerprint, duration, cost and
   source are the envelope's; without one the duration and the cost are the run's, and the other three stay.
   */
  predicate Receipted(before: Receipt, r: RunResult, after: Receipt) {
    match r.execution
    case Some(x) =>
      && after.effectiveModel == x.effectiveModel && after.fingerprint == x.fingerprint
      && after.durationMs == x.durationMs && after.costUsd == x.costUsd && after.costSource == x.costSource
    case None =>
      && after.durationMs == r.durationMs && after.costUsd == r.costUsd
      && after.effectiveModel == before.effectiveModel && after.fingerprint == before.fingerprint
      && after.costSource == before.costSource
  }

  lemma ResultIsRecorded(c: Cell, r: RunResult)
    ensures var d := WithResult(c, r);
            && d.status == Ran && d.runStatus == r.status && d.error == NoError
            && d.runId == (if r.runId == "" then c.runId else r.runId)
            && d.tracePath == r.tracePath && (d.traceDisabled <==> r.tracePath == "")
            && Receipted(c.receipt, r, d.receipt)
            && d.attempts == c.attempts && d.attemptRunIds == c.attemptRunIds
            && d.scorerStatus == c.scorerStatus && d.ingestion == c.ingestion
  {
  }

  lemma ScoringIsRecorded(c: Cell, s: Scoring)
    ensures var d := WithScoring(c, s);
            && d.status == Completed && d.scorerStatus == s.status
            && (s.ingestion.Some? ==> d.ingestion == Ingested(s.ingestion.value))
            && (s.ingestion.None? ==> d.ingestion == TraceDisabled(s.metrics))
            && d.receipt == c.receipt && d.runStatus == c.runStatus && d.runId == c.runId && d.error == c.error
            && d.tracePath == c.tracePath && d.traceDisabled == c.traceDisabled
            && d.attempts == c.attempts && d.attemptRunIds == c.attemptRunIds
  {
  }

  function WithInfrastructureError(c: Cell, phase: string, kind: string): Cell {
    c.(status := InfrastructureError, error := CellError(phase, kind))
  }

  /** A scorer's failure is recorded beside the run; the cell stays `ran`. */
  function WithScoringError(c: Cell, kind: string): Cell {
    c.(error := CellError("scoring", kind))
  }

  class EvalCell {
    const base: string
    var status: CellStatus
    var runId: string
    var attemptRunIds: seq<string>
    var attempts: nat
    var runStatus: string
    var scorerStatus: string
    var ingestion: MetricIngestion
    var receipt: Receipt
    var tracePath: string
    var traceDisabled: bool
    var error: CellError

    /** What a save of the manifest writes for this cell. */
    function Value(): Cell
      reads this
    {
      Cell(status, runId, attemptRunIds, attempts, runStatus, scorerStatus, ingestion,
           receipt, tracePath, traceDisabled, error)
    }

    constructor Load(base: string, c: Cell)
      ensures Value() == c && this.base == base
    {
      this.base := base;
      status, runId, attemptRunIds, attempts := c.status, c.runId, c.attemptRunIds, c.attempts;
      runStatus, scorerStatus, ingestion := c.runStatus, c.scorerStatus, c.ingestion;
      receipt, tracePath, traceDisabled, error := c.receipt, c.tracePath, c.traceDisabled, c.error;
    }

    method BeginAttempt(root: string)
      modifies this
      ensures Value() == Begun(old(Value()), base, root)
      ensures attempts == old(attempts) + 1 && attemptRunIds == old(attemptRunIds) + [runId]
      ensures runId == if attempts == 1 then base else base + "-a" + Decimal.Print(attempts)
      ensures tracePath == root + "/" + runId + ".jsonl" && !traceDisabled
      ensures status == Running && error == NoError
      ensures receipt == old(receipt) && runStatus == old(runStatus)
      ensures scorerStatus == old(scorerStatus) && ingestion == old(ingestion)
    {
      attempts := attempts + 1;
      runId := if attempts == 1 then base else base + "-a" + Decimal.Print(attempts);
      attemptRunIds := attemptRunIds + [runId];
      tracePath := TracePath(root, runId);
      traceDisabled := false;
      status := Running;
      error := NoError;
    }

    method ApplyResult(r: RunResult)
      modifies this
      ensures Value() == WithResult(old(Value()), r)
      ensures status == Ran && runStatus == r.status && error == NoError
      ensures runId == if r.runId == "" then old(runId) else r.runId
      ensures tracePath == r.tracePath && (traceDisabled <==> r.tracePath == "")
      ensures Receipted(old(receipt), r, receipt)
    {
      runId := if r.runId != "" then r.runId else runId;
      runStatus := r.status;
      tracePath := r.tracePath;
      traceDisabled := r.tracePath == "";
      receipt := receipt.(durationMs := r.durationMs, costUsd := r.costUsd);
      if r.execution.Some? {
        var x := r.execution.value;
        receipt := Receipt(x.effectiveModel, x.fingerprint, x.durationMs, x.costUsd, x.costSource);
      }
      status := Ran;
      error := NoError;
    }

    method ApplyScoring(s: Scoring)
      modifies this
      ensures Value() == WithScoring(old(Value()), s)
      ensures status == Completed && scorerStatus == s.status
      ensures s.ingestion.Some? ==> ingestion == Ingested(s.ingestion.value)
      ensures s.ingestion.None? ==> ingestion == TraceDisabled(s.metrics)
      ensures receipt == old(receipt) && runStatus == old(runStatus) && tracePath == old(tracePath)
    {
      scorerStatus := s.status;
      ingestion := if s.ingestion.Some? then Ingested(s.ingestion.value) else TraceDisabled(s.metrics);
      status := Completed;
    }

    method FailInfrastructure(phase: string, kind: string)
      modifies this
      ensures Value() == WithInfrastructureError(old(Value()), phase, kind)
      ensures status == InfrastructureError && error == CellError(phase, kind)
    {
      status := InfrastructureError;
      error := CellError(phase, kind);
    }

    method FailScoring(kind: string)
      modifies this
      ensures Value() == WithScoringError(old(Value()), kind)
      ensures status == old(status) && error == CellError("scoring", kind)
    {
      error := CellError("scoring", kind);
    }
  }
}
