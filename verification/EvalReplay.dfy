/**
 When `execute` and the scorers answer deterministically, the results a cell records do not depend on the history. What
 the metric store answered does: it counts rows it already had, and `EvalIngestion` says when that shows.
 */
module EvalReplay {
  import opened Options
  import opened EvalCells
  import opened EvalMachine
  import opened EvalGuarantees

  /** What `execute` and the scorers answer for each cell, whenever they are asked: its run, and the scorers' status. */
  datatype Answers = Answers(run: seq<RunResult>, score: seq<string>)

  /** The same run under another attempt's id and trace. */
  predicate SameRun(r: RunResult, p: RunResult) {
    r.(runId := p.runId, tracePath := p.tracePath) == p
  }

  /**
   The step gives the cell's own answer, whenever it is asked: what a call returns, or leaves in its trace, is the
   cell's run, reported under the cell's own trace path or with the trace disabled. Calls and scorers may raise.
   */
  predicate Deterministic(a: Answers, s: State, step: Step) {
    step.Work? && step.cell < |a.run| && step.cell < |a.score| && step.cell < |s.cells| ==>
      match step.act
      case Return(r) =>
        SameRun(r, a.run[step.cell]) && (r.tracePath == "" || r.tracePath == s.cells[step.cell].tracePath)
      case WriteTrace(r) => SameRun(r, a.run[step.cell])
      case Score(q) => q.status == a.score[step.cell]
      case _ => true
  }

  function AnsweredBy(a: Answers): (State, Step) -> bool {
    (s, step) => Deterministic(a, s, step)
  }

  ghost predicate DeterministicHistory(cfg: Config, a: Answers, steps: seq<Step>) {
    && ValidConfig(cfg) && |a.run| == |a.score| == |cfg.bases|
    && Obeys(cfg, steps, AnsweredBy(a))
  }

  /** What a completed cell records of its run and of its scoring. */
  datatype Outcome = Outcome(runStatus: string, receipt: Receipt, scorerStatus: string)

  function OutcomeOf(c: Cell): Outcome {
    Outcome(c.runStatus, c.receipt, c.scorerStatus)
  }

  /** A cell has no receipt before its first result. */
  const NO_RECEIPT := Receipt(None, "", 0, 0.0, "none")

  /** Whatever a cell already records, it records what its answers say. */
  ghost predicate Agrees(p: RunResult, q: string, c: Cell) {
    && (c.receipt == NO_RECEIPT || Receipted(NO_RECEIPT, p, c.receipt))
    && (c.status == Ran || c.status == Completed ==> c.runStatus == p.status && Receipted(NO_RECEIPT, p, c.receipt))
    && (c.status == Completed ==> c.scorerStatus == q)
  }

  ghost predicate WorkerAgrees(p: RunResult, q: string, c: Cell, pc: Pc) {
    && Agrees(p, q, c)
    && (pc.SaveResult? || pc.AboutToScore? ==> SameRun(pc.result, p) && c.status == Ran)
  }

  ghost predicate TracesAgree(cfg: Config, a: Answers, traces: map<string, RunResult>)
    requires |a.run| == |cfg.bases|
  {
    forall i, k :: 0 <= i < |cfg.bases| && 1 <= k && AttemptPath(cfg, i, k) in traces ==>
      SameRun(traces[AttemptPath(cfg, i, k)], a.run[i])
  }

  ghost predicate CellsAgree(a: Answers, cells: seq<Cell>, pcs: seq<Pc>, disk: seq<Cell>) {
    && |a.run| == |a.score| == |cells| == |pcs| == |disk|
    && (forall i :: 0 <= i < |cells| ==>
          Agrees(a.run[i], a.score[i], disk[i]) && WorkerAgrees(a.run[i], a.score[i], cells[i], pcs[i]))
  }

  /** A cell points at the trace of its latest attempt, or at none. */
  predicate PathKnown(cfg: Config, i: nat, c: Cell)
    requires i < |cfg.bases|
  {
    c.tracePath == "" || (c.attempts >= 1 && c.tracePath == AttemptPath(cfg, i, c.attempts))
  }

  ghost predicate PathsKnown(cfg: Config, s: State) {
    && CallPaths(cfg, s)
    && (forall i :: 0 <= i < |cfg.bases| ==> PathKnown(cfg, i, s.cells[i]) && PathKnown(cfg, i, s.disk[i]))
  }

  ghost predicate AnswersInv(cfg: Config, a: Answers, s: State) {
    && |a.run| == |a.score| == |cfg.bases|
    && PathsKnown(cfg, s)
    && TracesAgree(cfg, a, s.traces)
    && CellsAgree(a, s.cells, s.pcs, s.disk)
  }

  lemma StepPathKnown(cfg: Config, i: nat, c: Cell, pc: Pc, recovered: Option<RunResult>, act: Act)
    requires i < |cfg.bases| && CallPath(cfg, i, c, pc) && PathKnown(cfg, i, c)
    requires recovered.Some? ==> recovered.value.tracePath == c.tracePath
    requires act.Return? ==> act.result.tracePath == "" || act.result.tracePath == c.tracePath
    requires WorkerStep(cfg, cfg.bases[i], c, pc, recovered, act).Some?
    ensures PathKnown(cfg, i, WorkerStep(cfg, cfg.bases[i], c, pc, recovered, act).value.cell)
  {
  }

  lemma ApplyPathsKnown(cfg: Config, s: State, j: nat, l: Local)
    requires PathsKnown(cfg, s) && j < |cfg.bases|
    requires CallPath(cfg, j, l.cell, l.pc) && PathKnown(cfg, j, l.cell)
    ensures PathsKnown(cfg, Apply(s, j, l))
  {
    ApplyCallPaths(cfg, s, j, l);
  }

  /** A call that returns reports the cell's own trace path, or that the trace was disabled. */
  predicate ReportsOwnTrace(s: State, step: Step) {
    step.Work? && step.act.Return? && step.cell < |s.cells| ==>
      step.act.result.tracePath == "" || step.act.result.tracePath == s.cells[step.cell].tracePath
  }

  lemma NextPathsKnown(cfg: Config, s: State, step: Step)
    requires PathsKnown(cfg, s) && Next(cfg, s, step).Some? && ReportsOwnTrace(s, step)
    ensures PathsKnown(cfg, Next(cfg, s, step).value)
  {
    if step.Work? {
      var j := step.cell;
      var recovered := ResultFromTrace(s.traces, s.cells[j].tracePath);
      StepCallPath(cfg, j, s.cells[j], s.pcs[j], recovered, step.act);
      StepPathKnown(cfg, j, s.cells[j], s.pcs[j], recovered, step.act);
      ApplyPathsKnown(cfg, s, j, WorkerStep(cfg, cfg.bases[j], s.cells[j], s.pcs[j], recovered, step.act).value);
    } else {
      NextCallPaths(cfg, s, step);
    }
  }

  lemma ReceiptAgain(c: Cell, r: RunResult, p: RunResult, q: string)
    requires Agrees(p, q, c) && SameRun(r, p)
    ensures Agrees(p, q, WithResult(c, r))
    ensures WithResult(c, r).status == Ran
  {
  }

  lemma WorkerStepAgrees(cfg: Config, base: string, c: Cell, pc: Pc, recovered: Option<RunResult>, act: Act,
                         p: RunResult, q: string)
    requires WorkerAgrees(p, q, c, pc)
    requires recovered.Some? ==> SameRun(recovered.value, p)
    requires act.Return? ==> SameRun(act.result, p)
    requires act.Score? ==> act.scoring.status == q
    requires WorkerStep(cfg, base, c, pc, recovered, act).Some?
    ensures var l := WorkerStep(cfg, base, c, pc, recovered, act).value;
            WorkerAgrees(p, q, l.cell, l.pc)
  {
    if pc.Entry? && recovered.Some? {
      ReceiptAgain(c, recovered.value, p, q);
    }
    if act.Return? {
      ReceiptAgain(c, act.result, p, q);
    }
  }

  lemma WorkAgrees(cfg: Config, a: Answers, s: State, j: nat, act: Act)
    requires ValidConfig(cfg) && AnswersInv(cfg, a, s) && Next(cfg, s, Work(j, act)).Some?
    requires Deterministic(a, s, Work(j, act))
    ensures AnswersInv(cfg, a, Next(cfg, s, Work(j, act)).value)
  {
    NextPathsKnown(cfg, s, Work(j, act));
    assert CallPath(cfg, j, s.cells[j], s.pcs[j]) && PathKnown(cfg, j, s.cells[j]);
    var recovered := ResultFromTrace(s.traces, s.cells[j].tracePath);
    WorkerStepAgrees(cfg, cfg.bases[j], s.cells[j], s.pcs[j], recovered, act, a.run[j], a.score[j]);
    ApplyAgrees(cfg, a, s, j, WorkerStep(cfg, cfg.bases[j], s.cells[j], s.pcs[j], recovered, act).value);
  }

  lemma ApplyAgrees(cfg: Config, a: Answers, s: State, j: nat, l: Local)
    requires ValidConfig(cfg) && AnswersInv(cfg, a, s) && j < |cfg.bases|
    requires WorkerAgrees(a.run[j], a.score[j], l.cell, l.pc)
    requires l.effect.Trace? ==>
               l.cell.tracePath == AttemptPath(cfg, j, l.cell.attempts) && SameRun(l.effect.result, a.run[j])
    ensures var t := Apply(s, j, l);
            TracesAgree(cfg, a, t.traces) && CellsAgree(a, t.cells, t.pcs, t.disk)
  {
    StepCellsAgree(a, s.cells, s.pcs, s.disk, j, l);
    if l.effect.Trace? {
      TraceAgrees(cfg, a, s.traces, j, l.cell.attempts, l.effect.result);
    }
  }

  lemma StepCellsAgree(a: Answers, cells: seq<Cell>, pcs: seq<Pc>, disk: seq<Cell>, j: nat, l: Local)
    requires CellsAgree(a, cells, pcs, disk) && j < |cells|
    requires WorkerAgrees(a.run[j], a.score[j], l.cell, l.pc)
    ensures CellsAgree(a, cells[j := l.cell], pcs[j := l.pc], disk)
    ensures CellsAgree(a, cells[j := l.cell], pcs[j := l.pc], cells[j := l.cell])
  {
  }

  lemma TraceAgrees(cfg: Config, a: Answers, traces: map<string, RunResult>, j: nat, n: nat, r: RunResult)
    requires ValidConfig(cfg) && |a.run| == |cfg.bases| && TracesAgree(cfg, a, traces)
    requires j < |cfg.bases| && SameRun(r, a.run[j])
    ensures TracesAgree(cfg, a, traces[AttemptPath(cfg, j, n) := r])
  {
    forall i, k | 0 <= i < |cfg.bases| && 1 <= k && AttemptPath(cfg, i, k) == AttemptPath(cfg, j, n)
      ensures i == j
    {
      AttemptPathInjective(cfg, i, k, j, n);
    }
  }

  lemma NextAgrees(cfg: Config, a: Answers, s: State, step: Step)
    requires ValidConfig(cfg) && AnswersInv(cfg, a, s) && Next(cfg, s, step).Some?
    requires Deterministic(a, s, step)
    ensures AnswersInv(cfg, a, Next(cfg, s, step).value)
  {
    if step.Work? {
      WorkAgrees(cfg, a, s, step.cell, step.act);
    } else {
      var t := Next(cfg, s, step).value;
      NextPathsKnown(cfg, s, step);
      assert t.traces == s.traces && |t.cells| == |t.pcs| == |t.disk| == |cfg.bases|;
      forall i | 0 <= i < |cfg.bases|
        ensures Agrees(a.run[i], a.score[i], t.disk[i]) && WorkerAgrees(a.run[i], a.score[i], t.cells[i], t.pcs[i])
      {
        assert Agrees(a.run[i], a.score[i], s.disk[i]) && WorkerAgrees(a.run[i], a.score[i], s.cells[i], s.pcs[i]);
      }
    }
  }

  lemma {:induction false} HistoryAgrees(cfg: Config, a: Answers, steps: seq<Step>)
    requires DeterministicHistory(cfg, a, steps)
    ensures AnswersInv(cfg, a, After(cfg, steps))
  {
    if steps != [] {
      var front := steps[..|steps| - 1];
      HistoryAgrees(cfg, a, front);
      NextAgrees(cfg, a, After(cfg, front), steps[|steps| - 1]);
    }
  }

  /**
   A completed cell records exactly its own answers, however often the process crashed on the way: the run's status,
   the scorers', and of the execution what the envelope says where there is one, else what the run says.
   */
  lemma CompletedAsAnswered(cfg: Config, a: Answers, steps: seq<Step>, i: nat)
    requires DeterministicHistory(cfg, a, steps) && i < |cfg.bases|
    requires After(cfg, steps).disk[i].status == Completed
    ensures var c, p := After(cfg, steps).disk[i], a.run[i];
            && c.runStatus == p.status && c.scorerStatus == a.score[i]
            && (p.execution.Some? ==>
                  var x := p.execution.value;
                  && c.receipt.costUsd == x.costUsd && c.receipt.costSource == x.costSource
                  && c.receipt.durationMs == x.durationMs
                  && c.receipt.effectiveModel == x.effectiveModel && c.receipt.fingerprint == x.fingerprint)
            && (p.execution.None? ==>
                  && c.receipt.costUsd == p.costUsd && c.receipt.durationMs == p.durationMs
                  && c.receipt.costSource == "none" && c.receipt.effectiveModel == None
                  && c.receipt.fingerprint == "")
  {
    HistoryAgrees(cfg, a, steps);
  }

  /** Two histories that both complete the matrix, crashed and resumed or not, record the same results. */
  lemma CrashesDoNotChangeResults(cfg: Config, a: Answers, crashed: seq<Step>, straight: seq<Step>)
    requires DeterministicHistory(cfg, a, crashed) && DeterministicHistory(cfg, a, straight)
    requires AllCompleted(After(cfg, crashed).disk) && AllCompleted(After(cfg, straight).disk)
    ensures forall i :: 0 <= i < |cfg.bases| ==>
              OutcomeOf(After(cfg, crashed).disk[i]) == OutcomeOf(After(cfg, straight).disk[i])
  {
    forall i | 0 <= i < |cfg.bases|
      ensures OutcomeOf(After(cfg, crashed).disk[i]) == OutcomeOf(After(cfg, straight).disk[i])
    {
      CompletedAsAnswered(cfg, a, crashed, i);
      CompletedAsAnswered(cfg, a, straight, i);
    }
  }
}
