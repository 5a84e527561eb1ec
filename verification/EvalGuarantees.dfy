/**
 What the eval runner guarantees over every history: bounded billing, no second execution of a run whose
 trace finished, completion that nothing undoes, and results that do not depend on where it crashed.
 */
module EvalGuarantees {
  import opened Options
  import opened EvalCells
  import opened EvalMachine

  ghost predicate History(cfg: Config, steps: seq<Step>) {
    Run(cfg, Init(cfg), steps).Some?
  }

  ghost function After(cfg: Config, steps: seq<Step>): (s: State)
    requires History(cfg, steps)
    ensures Shape(cfg, s)
  {
    Run(cfg, Init(cfg), steps).value
  }

  lemma Reachable(cfg: Config, steps: seq<Step>)
    requires History(cfg, steps)
    ensures Inv(cfg, After(cfg, steps))
  {
    InitInv(cfg);
    RunInv(cfg, Init(cfg), steps);
  }

  /** Going on from a history is the longer history. */
  lemma {:induction false} Continue(cfg: Config, before: seq<Step>, after: seq<Step>)
    requires History(cfg, before + after)
    ensures History(cfg, before)
    ensures Run(cfg, After(cfg, before), after) == Some(After(cfg, before + after))
  {
    RunConcat(cfg, Init(cfg), before, after);
  }

  /**
   Over every history `execute` is called for a cell at most `retries + 1` times and at most once per
   attempt, never more often than the manifest on disk already admits; the saved ids are one per attempt.
   */
  lemma BoundedBilling(cfg: Config, steps: seq<Step>, i: nat)
    requires History(cfg, steps) && i < |cfg.bases|
    ensures var s := After(cfg, steps);
            && |s.started[i]| <= s.disk[i].attempts <= cfg.retries + 1
            && (forall j, k :: 0 <= j < k < |s.started[i]| ==> s.started[i][j] < s.started[i][k])
            && |s.disk[i].attemptRunIds| == s.disk[i].attempts
            && (forall k :: 0 <= k < s.disk[i].attempts ==> s.disk[i].attemptRunIds[k] == RunId(cfg.bases[i], k + 1))
            && (forall j, k :: 0 <= j < k < s.disk[i].attempts ==>
                  s.disk[i].attemptRunIds[j] != s.disk[i].attemptRunIds[k])
  {
    Reachable(cfg, steps);
    var s := After(cfg, steps);
    OnceEachBound(s.started[i], s.disk[i].attempts);
    AttemptIdsDistinct(cfg.bases[i], s.disk[i].attempts);
  }

  // ------------------------------------------------------------------ completion

  lemma CompletedStep(cfg: Config, s: State, step: Step, i: nat)
    requires Inv(cfg, s) && Next(cfg, s, step).Some?
    requires i < |cfg.bases| && s.disk[i].status == Completed
    ensures var t := Next(cfg, s, step).value;
            t.disk[i] == s.disk[i] && t.started[i] == s.started[i] && !Scores(step, i)
  {
    StepFrame(cfg, s, step, i);
    assert CellInv(cfg, cfg.bases[i], s.disk[i], s.cells[i], s.pcs[i], s.started[i]);
  }

  lemma {:induction false} CompletedRun(cfg: Config, s: State, steps: seq<Step>, i: nat)
    requires Inv(cfg, s) && Run(cfg, s, steps).Some?
    requires i < |cfg.bases| && s.disk[i].status == Completed
    ensures var t := Run(cfg, s, steps).value;
            t.disk[i] == s.disk[i] && t.started[i] == s.started[i]
    ensures forall k :: 0 <= k < |steps| ==> !Scores(steps[k], i)
  {
    if steps != [] {
      var front := steps[..|steps| - 1];
      CompletedRun(cfg, s, front, i);
      RunInv(cfg, s, front);
      CompletedStep(cfg, Run(cfg, s, front).value, steps[|steps| - 1], i);
      assert forall k :: 0 <= k < |front| ==> front[k] == steps[k];
    }
  }

  /** Once saved as completed, a cell is never changed, executed or scored again, whatever happens. */
  lemma CompletedIsFinal(cfg: Config, before: seq<Step>, after: seq<Step>, i: nat)
    requires History(cfg, before + after) && i < |cfg.bases|
    requires History(cfg, before) && After(cfg, before).disk[i].status == Completed
    ensures After(cfg, before + after).disk[i] == After(cfg, before).disk[i]
    ensures After(cfg, before + after).started[i] == After(cfg, before).started[i]
    ensures forall k :: 0 <= k < |after| ==> !Scores(after[k], i)
  {
    Reachable(cfg, before);
    Continue(cfg, before, after);
    CompletedRun(cfg, After(cfg, before), after, i);
  }

  /** A manifest saved as completed has every cell completed; a session that ends says so exactly then. */
  lemma CompletedManifest(cfg: Config, steps: seq<Step>)
    requires History(cfg, steps)
    ensures var s := After(cfg, steps);
            s.diskStatus == MatrixCompleted ==> AllCompleted(s.disk)
    ensures var s := After(cfg, steps);
            steps != [] && steps[|steps| - 1].SaveFinish? ==>
              && (s.diskStatus == MatrixCompleted <==> AllCompleted(s.disk))
              && (s.diskStatus == MatrixIncomplete <==> !AllCompleted(s.disk))
  {
    Reachable(cfg, steps);
    if steps != [] && steps[|steps| - 1].SaveFinish? {
      var front := steps[..|steps| - 1];
      assert front + steps[|steps| - 1..] == steps;
      Continue(cfg, front, steps[|steps| - 1..]);
      Reachable(cfg, front);
    }
  }

  // ------------------------------------------------------------------ no second execution

  function AttemptPath(cfg: Config, i: nat, attempt: nat): string
    requires i < |cfg.bases|
  {
    TracePath(cfg.root, RunId(cfg.bases[i], attempt))
  }

  lemma AttemptPathInjective(cfg: Config, i: nat, m: nat, j: nat, n: nat)
    requires ValidConfig(cfg) && i < |cfg.bases| && j < |cfg.bases|
    requires AttemptPath(cfg, i, m) == AttemptPath(cfg, j, n)
    ensures i == j && m == n
  {
    TracePathInjective(cfg.root, RunId(cfg.bases[i], m), RunId(cfg.bases[j], n));
    RunIdInjective(cfg.bases[i], m, cfg.bases[j], n);
  }

  /** `execute` kept cell `i`'s trace: a result it returns names the cell's own trace, which has finished. */
  predicate KeepsTrace(s: State, step: Step, i: nat) {
    step.Work? && step.cell == i && step.act.Return? && i < |s.cells| ==>
      step.act.result.tracePath == s.cells[i].tracePath && step.act.result.tracePath in s.traces
  }

  function KeepsTraceOf(i: nat): (State, Step) -> bool {
    (s, step) => KeepsTrace(s, step, i)
  }

  /** A history each of whose steps obeys `rule` in the state it is taken from. */
  ghost predicate Obeys(cfg: Config, steps: seq<Step>, rule: (State, Step) -> bool) {
    && History(cfg, steps)
    && (steps != [] ==>
          var front := steps[..|steps| - 1];
          Obeys(cfg, front, rule) && rule(After(cfg, front), steps[|steps| - 1]))
  }

  /** From the save of an attempt until `execute` ends, the cell's trace path is that attempt's. */
  predicate CallPath(cfg: Config, i: nat, m: Cell, pc: Pc)
    requires i < |cfg.bases|
  {
    pc.SaveBegun? || pc.Launch? || pc.Executing? ==> m.attempts >= 1 && m.tracePath == AttemptPath(cfg, i, m.attempts)
  }

  ghost predicate CallPaths(cfg: Config, s: State) {
    && Shape(cfg, s)
    && (forall i :: 0 <= i < |cfg.bases| ==> CallPath(cfg, i, s.cells[i], s.pcs[i]))
  }

  lemma StepCallPath(cfg: Config, i: nat, m: Cell, pc: Pc, recovered: Option<RunResult>, act: Act)
    requires i < |cfg.bases| && CallPath(cfg, i, m, pc)
    requires WorkerStep(cfg, cfg.bases[i], m, pc, recovered, act).Some?
    ensures var l := WorkerStep(cfg, cfg.bases[i], m, pc, recovered, act).value;
            && CallPath(cfg, i, l.cell, l.pc)
            && (l.effect.Trace? ==> l.cell.tracePath == AttemptPath(cfg, i, l.cell.attempts))
  {
  }

  lemma ApplyCallPaths(cfg: Config, s: State, j: nat, l: Local)
    requires CallPaths(cfg, s) && j < |cfg.bases| && CallPath(cfg, j, l.cell, l.pc)
    ensures CallPaths(cfg, Apply(s, j, l))
  {
  }

  lemma NextCallPaths(cfg: Config, s: State, step: Step)
    requires CallPaths(cfg, s) && Next(cfg, s, step).Some?
    ensures CallPaths(cfg, Next(cfg, s, step).value)
  {
    if step.Work? {
      var j := step.cell;
      var recovered := ResultFromTrace(s.traces, s.cells[j].tracePath);
      StepCallPath(cfg, j, s.cells[j], s.pcs[j], recovered, step.act);
      ApplyCallPaths(cfg, s, j, WorkerStep(cfg, cfg.bases[j], s.cells[j], s.pcs[j], recovered, step.act).value);
    }
  }

  predicate OwnPath(cfg: Config, i: nat, c: Cell)
    requires i < |cfg.bases|
  {
    c.tracePath == if c.attempts == 0 then "" else AttemptPath(cfg, i, c.attempts)
  }

  /** Only the latest attempt of a cell can have a finished trace, and a worker about to retry knows it has none. */
  ghost predicate TraceInv(cfg: Config, i: nat, d: Cell, m: Cell, pc: Pc, started: seq<nat>,
                           traces: map<string, RunResult>)
    requires i < |cfg.bases|
  {
    && OwnPath(cfg, i, m) && OwnPath(cfg, i, d)
    && (forall k :: 1 <= k < m.attempts ==> AttemptPath(cfg, i, k) !in traces)
    && (forall k :: 1 <= k && AttemptPath(cfg, i, k) in traces ==> k in started)
    && (pc.SaveMissing? || pc.Loop? || pc.SaveFailed? || pc.SaveInterrupted? ==> m.tracePath !in traces)
  }

  /** What holds of cell `i` in a history that keeps its trace, whatever becomes of the other cells'. */
  ghost predicate TracesInv(cfg: Config, s: State, i: nat) {
    && Inv(cfg, s) && CallPaths(cfg, s)
    && "" !in s.traces && i < |cfg.bases|
    && TraceInv(cfg, i, s.disk[i], s.cells[i], s.pcs[i], s.started[i], s.traces)
  }

  /** A worker's own step, for its own cell; `traces` are those after the step. */
  lemma OwnStepTraces(cfg: Config, i: nat, d: Cell, m: Cell, pc: Pc, started: seq<nat>,
                      traces: map<string, RunResult>, act: Act)
    requires ValidConfig(cfg) && i < |cfg.bases|
    requires CellInv(cfg, cfg.bases[i], d, m, pc, started)
    requires TraceInv(cfg, i, d, m, pc, started, traces) && "" !in traces
    requires act.Return? ==> act.result.tracePath == m.tracePath
    requires WorkerStep(cfg, cfg.bases[i], m, pc, ResultFromTrace(traces, m.tracePath), act).Some?
    ensures var l := WorkerStep(cfg, cfg.bases[i], m, pc, ResultFromTrace(traces, m.tracePath), act).value;
            TraceInv(cfg, i, if l.effect.Save? then l.cell else d, l.cell, l.pc,
                     if l.effect.Call? then started + [l.cell.attempts] else started,
                     if l.effect.Trace? then traces[l.cell.tracePath := l.effect.result] else traces)
  {
    if act.WriteTrace? {
      OwnTrace(cfg, i, d, m, pc, started, traces, act.result);
    } else if pc.Loop? && act.Advance? && m.attempts < cfg.retries + 1 {
      OwnAttempt(cfg, i, d, m, started, traces);
    } else if pc.Launch? && act.Advance? {
      StartedMore(cfg, i, started, m.attempts, traces);
    } else {
      OtherwiseTraces(cfg, i, d, m, pc, started, traces, act);
    }
  }

  /** A step that neither leaves a trace nor starts an attempt. */
  lemma OtherwiseTraces(cfg: Config, i: nat, d: Cell, m: Cell, pc: Pc, started: seq<nat>,
                        traces: map<string, RunResult>, act: Act)
    requires i < |cfg.bases|
    requires CellInv(cfg, cfg.bases[i], d, m, pc, started)
    requires TraceInv(cfg, i, d, m, pc, started, traces) && "" !in traces
    requires act.Return? ==> act.result.tracePath == m.tracePath
    requires WorkerStep(cfg, cfg.bases[i], m, pc, ResultFromTrace(traces, m.tracePath), act).Some?
    requires !act.WriteTrace? && !(act.Advance? && (pc.Launch? || (pc.Loop? && m.attempts < cfg.retries + 1)))
    ensures var l := WorkerStep(cfg, cfg.bases[i], m, pc, ResultFromTrace(traces, m.tracePath), act).value;
            && (l.effect.Quiet? || l.effect.Save?)
            && TraceInv(cfg, i, if l.effect.Save? then l.cell else d, l.cell, l.pc, started, traces)
  {
    OtherwiseStep(cfg, i, d, m, pc, started, traces, act);
  }

  /** It leaves the attempt and its path, and a worker that can start another knows that this one has no trace. */
  lemma OtherwiseStep(cfg: Config, i: nat, d: Cell, m: Cell, pc: Pc, started: seq<nat>,
                      traces: map<string, RunResult>, act: Act)
    requires i < |cfg.bases|
    requires CellInv(cfg, cfg.bases[i], d, m, pc, started)
    requires pc.SaveMissing? || pc.Loop? || pc.SaveFailed? || pc.SaveInterrupted? ==> m.tracePath !in traces
    requires "" !in traces
    requires act.Return? ==> act.result.tracePath == m.tracePath
    requires WorkerStep(cfg, cfg.bases[i], m, pc, ResultFromTrace(traces, m.tracePath), act).Some?
    requires !act.WriteTrace? && !(act.Advance? && (pc.Launch? || (pc.Loop? && m.attempts < cfg.retries + 1)))
    ensures var l := WorkerStep(cfg, cfg.bases[i], m, pc, ResultFromTrace(traces, m.tracePath), act).value;
            && (l.effect.Quiet? || l.effect.Save?)
            && l.cell.attempts == m.attempts && l.cell.tracePath == m.tracePath
            && (l.pc.SaveMissing? || l.pc.Loop? || l.pc.SaveFailed? || l.pc.SaveInterrupted? ==>
                  m.tracePath !in traces)
  {
  }

  /** A new attempt has no trace yet, and the one before it did not finish. */
  lemma OwnAttempt(cfg: Config, i: nat, d: Cell, m: Cell, started: seq<nat>, traces: map<string, RunResult>)
    requires i < |cfg.bases| && CellInv(cfg, cfg.bases[i], d, m, Loop, started)
    requires TraceInv(cfg, i, d, m, Loop, started, traces)
    ensures TraceInv(cfg, i, d, Begun(m, cfg.bases[i], cfg.root), SaveBegun, started, traces)
  {
    forall k | 1 <= k <= m.attempts
      ensures AttemptPath(cfg, i, k) !in traces
    {
      assert k < m.attempts || AttemptPath(cfg, i, k) == m.tracePath;
    }
  }

  lemma StartedMore(cfg: Config, i: nat, started: seq<nat>, n: nat, traces: map<string, RunResult>)
    requires i < |cfg.bases|
    requires forall k :: 1 <= k && AttemptPath(cfg, i, k) in traces ==> k in started
    ensures forall k :: 1 <= k && AttemptPath(cfg, i, k) in traces ==> k in started + [n]
  {
  }

  /** The trace a worker leaves is its latest attempt's. */
  lemma OwnTrace(cfg: Config, i: nat, d: Cell, m: Cell, pc: Pc, started: seq<nat>,
                 traces: map<string, RunResult>, r: RunResult)
    requires ValidConfig(cfg) && i < |cfg.bases| && pc.Executing?
    requires CellInv(cfg, cfg.bases[i], d, m, pc, started)
    requires TraceInv(cfg, i, d, m, pc, started, traces)
    ensures TraceInv(cfg, i, d, m, pc, started, traces[m.tracePath := r])
  {
    forall k | k >= 1 && AttemptPath(cfg, i, k) == m.tracePath
      ensures k == m.attempts
    {
      AttemptPathInjective(cfg, i, k, i, m.attempts);
    }
  }

  /** Another worker's trace is a trace of another cell. */
  lemma OtherTrace(cfg: Config, i: nat, d: Cell, m: Cell, pc: Pc, started: seq<nat>,
                   traces: map<string, RunResult>, j: nat, n: nat, r: RunResult)
    requires ValidConfig(cfg) && i < |cfg.bases| && j < |cfg.bases| && i != j
    requires TraceInv(cfg, i, d, m, pc, started, traces)
    ensures TraceInv(cfg, i, d, m, pc, started, traces[AttemptPath(cfg, j, n) := r])
  {
    forall k | AttemptPath(cfg, i, k) == AttemptPath(cfg, j, n)
      ensures false
    {
      AttemptPathInjective(cfg, i, k, j, n);
    }
  }

  /** A step of another cell's worker; a save of its writes cell `i` as memory has it. */
  lemma OtherStepTraces(cfg: Config, s: State, j: nat, l: Local, i: nat)
    requires ValidConfig(cfg) && TracesInv(cfg, s, i) && j < |cfg.bases| && i != j
    requires l.effect.Trace? ==> l.cell.tracePath == AttemptPath(cfg, j, l.cell.attempts)
    ensures var t := Apply(s, j, l);
            TraceInv(cfg, i, t.disk[i], t.cells[i], t.pcs[i], t.started[i], t.traces)
  {
    var d, m, pc, started := s.disk[i], s.cells[i], s.pcs[i], s.started[i];
    match l.effect
    case Trace(r) => OtherTrace(cfg, i, d, m, pc, started, s.traces, j, l.cell.attempts, r);
    case Save => SavedTraces(cfg, i, d, m, pc, started, s.traces);
    case _ =>
  }

  lemma SavedTraces(cfg: Config, i: nat, d: Cell, m: Cell, pc: Pc, started: seq<nat>, traces: map<string, RunResult>)
    requires i < |cfg.bases| && TraceInv(cfg, i, d, m, pc, started, traces)
    ensures TraceInv(cfg, i, m, m, pc, started, traces)
  {
  }

  /** What a worker's step `l` of cell `j` makes of cell `i`'s trace invariant. */
  lemma ApplyTraces(cfg: Config, s: State, j: nat, l: Local, i: nat)
    requires ValidConfig(cfg) && TracesInv(cfg, s, i) && j < |cfg.bases|
    requires l.effect.Trace? ==> l.cell.tracePath == AttemptPath(cfg, j, l.cell.attempts)
    requires i == j ==>
               TraceInv(cfg, j, if l.effect.Save? then l.cell else s.disk[j], l.cell, l.pc,
                        if l.effect.Call? then s.started[j] + [l.cell.attempts] else s.started[j],
                        if l.effect.Trace? then s.traces[l.cell.tracePath := l.effect.result] else s.traces)
    ensures var t := Apply(s, j, l);
            "" !in t.traces && TraceInv(cfg, i, t.disk[i], t.cells[i], t.pcs[i], t.started[i], t.traces)
  {
    if i != j {
      OtherStepTraces(cfg, s, j, l, i);
    }
  }

  lemma WorkTraces(cfg: Config, s: State, j: nat, act: Act, i: nat)
    requires ValidConfig(cfg) && TracesInv(cfg, s, i) && Next(cfg, s, Work(j, act)).Some?
    requires KeepsTrace(s, Work(j, act), i)
    ensures var t := Next(cfg, s, Work(j, act)).value;
            "" !in t.traces && TraceInv(cfg, i, t.disk[i], t.cells[i], t.pcs[i], t.started[i], t.traces)
  {
    var recovered := ResultFromTrace(s.traces, s.cells[j].tracePath);
    StepCallPath(cfg, j, s.cells[j], s.pcs[j], recovered, act);
    if i == j {
      assert CellInv(cfg, cfg.bases[j], s.disk[j], s.cells[j], s.pcs[j], s.started[j]);
      OwnStepTraces(cfg, j, s.disk[j], s.cells[j], s.pcs[j], s.started[j], s.traces, act);
    }
    ApplyTraces(cfg, s, j, WorkerStep(cfg, cfg.bases[j], s.cells[j], s.pcs[j], recovered, act).value, i);
  }

  lemma NextTraces(cfg: Config, s: State, step: Step, i: nat)
    requires ValidConfig(cfg) && TracesInv(cfg, s, i) && Next(cfg, s, step).Some? && KeepsTrace(s, step, i)
    ensures TracesInv(cfg, Next(cfg, s, step).value, i)
  {
    NextInv(cfg, s, step);
    NextCallPaths(cfg, s, step);
    if step.Work? {
      WorkTraces(cfg, s, step.cell, step.act, i);
    } else {
      assert CellInv(cfg, cfg.bases[i], s.disk[i], s.cells[i], s.pcs[i], s.started[i]);
    }
  }

  lemma {:induction false} KeptRunTraces(cfg: Config, steps: seq<Step>, i: nat)
    requires ValidConfig(cfg) && Obeys(cfg, steps, KeepsTraceOf(i)) && i < |cfg.bases|
    ensures TracesInv(cfg, After(cfg, steps), i)
  {
    InitInv(cfg);
    if steps != [] {
      var front := steps[..|steps| - 1];
      KeptRunTraces(cfg, front, i);
      NextTraces(cfg, After(cfg, front), steps[|steps| - 1], i);
    }
  }

  /** The manifest on disk records a trace for cell `i`, and that trace holds `run_finished`. */
  predicate Finished(cfg: Config, s: State, i: nat)
    requires Shape(cfg, s) && i < |cfg.bases|
  {
    s.disk[i].tracePath != "" && s.disk[i].tracePath in s.traces
  }

  /** A finished trace belongs to the latest attempt, and no worker stands where it could start another. */
  lemma FinishedIsLatest(cfg: Config, s: State, i: nat)
    requires TracesInv(cfg, s, i) && Finished(cfg, s, i)
    ensures s.disk[i].attempts == s.cells[i].attempts && s.disk[i].tracePath == s.cells[i].tracePath
    ensures !s.pcs[i].Launch?
  {
    assert CellInv(cfg, cfg.bases[i], s.disk[i], s.cells[i], s.pcs[i], s.started[i]);
    assert AttemptPath(cfg, i, s.disk[i].attempts) == s.disk[i].tracePath;
  }

  lemma FinishedStays(cfg: Config, s: State, step: Step, i: nat)
    requires TracesInv(cfg, s, i) && Finished(cfg, s, i) && Next(cfg, s, step).Some?
    ensures Finished(cfg, Next(cfg, s, step).value, i)
    ensures Next(cfg, s, step).value.started[i] == s.started[i]
  {
    FinishedIsLatest(cfg, s, i);
    StepFrame(cfg, s, step, i);
  }

  /**
   Once the saved manifest points cell `i` at a trace that has finished, no later step of any crash and
   resume history executes that cell again. Only the cell's own trace need be kept.
   */
  lemma {:induction false} FinishedIsNeverRerun(cfg: Config, before: seq<Step>, after: seq<Step>, i: nat)
    requires ValidConfig(cfg) && Obeys(cfg, before + after, KeepsTraceOf(i)) && i < |cfg.bases|
    requires History(cfg, before) && Finished(cfg, After(cfg, before), i)
    ensures Finished(cfg, After(cfg, before + after), i)
    ensures After(cfg, before + after).started[i] == After(cfg, before).started[i]
  {
    assert (before + after)[..|before|] == before;
    FinishedFrom(cfg, before + after, |before|, i);
  }

  lemma {:induction false} FinishedFrom(cfg: Config, steps: seq<Step>, k: nat, i: nat)
    requires ValidConfig(cfg) && Obeys(cfg, steps, KeepsTraceOf(i)) && i < |cfg.bases| && k <= |steps|
    requires History(cfg, steps[..k]) && Finished(cfg, After(cfg, steps[..k]), i)
    ensures Finished(cfg, After(cfg, steps), i)
    ensures After(cfg, steps).started[i] == After(cfg, steps[..k]).started[i]
  {
    if k == |steps| {
      assert steps[..k] == steps;
    } else {
      var front := steps[..|steps| - 1];
      assert front[..k] == steps[..k];
      FinishedFrom(cfg, front, k, i);
      OneStepMore(cfg, steps, i);
    }
  }

  lemma {:induction false} OneStepMore(cfg: Config, steps: seq<Step>, i: nat)
    requires ValidConfig(cfg) && steps != [] && Obeys(cfg, steps, KeepsTraceOf(i)) && i < |cfg.bases|
    requires Finished(cfg, After(cfg, steps[..|steps| - 1]), i)
    ensures Finished(cfg, After(cfg, steps), i)
    ensures After(cfg, steps).started[i] == After(cfg, steps[..|steps| - 1]).started[i]
  {
    var front := steps[..|steps| - 1];
    KeptRunTraces(cfg, front, i);
    FinishedStays(cfg, After(cfg, front), steps[|steps| - 1], i);
  }

  /** Whatever crashes and retries a cell went through, at most one of its attempts ever finished. */
  lemma {:induction false} OneFinishedAttempt(cfg: Config, steps: seq<Step>, i: nat, m: nat, n: nat)
    requires ValidConfig(cfg) && Obeys(cfg, steps, KeepsTraceOf(i)) && i < |cfg.bases|
    requires AttemptPath(cfg, i, m) in After(cfg, steps).traces && m >= 1
    requires AttemptPath(cfg, i, n) in After(cfg, steps).traces && n >= 1
    ensures m == n == After(cfg, steps).cells[i].attempts
  {
    KeptRunTraces(cfg, steps, i);
    var s := After(cfg, steps);
    assert CellInv(cfg, cfg.bases[i], s.disk[i], s.cells[i], s.pcs[i], s.started[i]);
  }
}
