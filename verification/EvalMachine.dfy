/**
 The eval runner as a state machine. One step is one lock section of one worker, one save of the whole
 manifest, one outcome of `execute` or of the scorers, or a crash of the process. A step carries what the
 environment answered, so `Next` is a function, and a history is a sequence of steps: every theorem below
 is about all histories, that is all interleavings of the workers, crashes and resumes.
 */
module EvalMachine {
  import opened Options
  import opened EvalCells

  /** What stays fixed from the first save on: one base run id per cell, all of one length. */
  datatype Config = Config(retries: nat, root: string, bases: seq<string>)

  predicate ValidConfig(cfg: Config) {
    && (forall i, j :: 0 <= i < |cfg.bases| && 0 <= j < |cfg.bases| ==> |cfg.bases[i]| == |cfg.bases[j]|)
    && (forall i, j :: 0 <= i < j < |cfg.bases| ==> cfg.bases[i] != cfg.bases[j])
  }

  datatype MatrixStatus = MatrixRunning | MatrixIncomplete | MatrixCompleted

  /** Where a worker stands. Every `Save…` is just before a save, the mutation it saves already made. */
  datatype Pc =
    | Idle | Entry
    | SaveResult(result: RunResult) | AboutToScore(result: RunResult) | SaveScored | SaveScoringError
    | SaveMissing | Loop | SaveBegun | Launch | Executing | SaveFailed | SaveInterrupted
    | Done | Dead

  /** What a worker does next; the arguments are what `execute` and the scorers answered. */
  datatype Act =
    | Advance
    | WriteTrace(result: RunResult) | Return(result: RunResult) | Raise(kind: string)
    | Score(scoring: Scoring) | ScoreRaise(kind: string)
    | Die

  datatype Step = Begin(scheduled: set<nat>) | SaveStart | Work(cell: nat, act: Act) | Finish | SaveFinish | Crash

  datatype Phase = Down | Starting | Working | Finishing

  /**
   `disk` and `diskStatus` are the saved manifest, `traces` the results found behind a `run_finished` event,
   by trace path. `started` is a history variable: the attempts of each cell whose `execute` was called.
   */
  datatype State = State(phase: Phase, cells: seq<Cell>, status: MatrixStatus,
                         disk: seq<Cell>, diskStatus: MatrixStatus,
                         pcs: seq<Pc>, traces: map<string, RunResult>, started: seq<seq<nat>>)

  function Init(cfg: Config): State {
    var n := |cfg.bases|;
    var cells := seq(n, i requires 0 <= i < n => FreshCell(cfg.bases[i]));
    State(Down, cells, MatrixRunning, cells, MatrixRunning, seq(n, _ => Idle), map[], seq(n, _ => []))
  }

  /** A finished result read back from a trace carries the path it was read from. */
  function ResultFromTrace(traces: map<string, RunResult>, path: string): Option<RunResult> {
    if path != "" && path in traces then Some(traces[path].(tracePath := path)) else None
  }

  datatype Effect = Quiet | Save | Call | Trace(result: RunResult)
  datatype Local = Local(cell: Cell, pc: Pc, effect: Effect)

  /** One step of one worker, on its own cell; None when the worker cannot do that here. */
  function WorkerStep(cfg: Config, base: string, c: Cell, pc: Pc, recovered: Option<RunResult>, act: Act)
    : Option<Local>
  {
    match (pc, act)
    case (Idle, _) => None
    case (Done, _) => None
    case (Dead, _) => None
    case (_, Die) => Some(Local(c, Dead, Quiet))
    case (Entry, Advance) =>
      if recovered.Some? then Some(Local(WithResult(c, recovered.value), SaveResult(recovered.value), Quiet))
      else if c.status == Ran then
        Some(Local(WithInfrastructureError(c, "recovery", "MissingTrace"), SaveMissing, Quiet))
      else Some(Local(c, Loop, Quiet))
    case (SaveResult(r), Advance) => Some(Local(c, AboutToScore(r), Save))
    case (AboutToScore(r), Score(s)) => Some(Local(WithScoring(c, s), SaveScored, Quiet))
    case (AboutToScore(r), ScoreRaise(kind)) => Some(Local(WithScoringError(c, kind), SaveScoringError, Quiet))
    case (SaveScored, Advance) => Some(Local(c, Done, Save))
    case (SaveScoringError, Advance) => Some(Local(c, Done, Save))
    case (SaveMissing, Advance) => Some(Local(c, Loop, Save))
    case (Loop, Advance) =>
      if c.attempts < cfg.retries + 1 then Some(Local(Begun(c, base, cfg.root), SaveBegun, Quiet))
      else if c.status == Running then
        Some(Local(WithInfrastructureError(c, "execution", "InterruptedAttempt"), SaveInterrupted, Quiet))
      else Some(Local(c, Done, Quiet))
    case (SaveBegun, Advance) => Some(Local(c, Launch, Save))
    case (Launch, Advance) => Some(Local(c, Executing, Call))
    case (Executing, WriteTrace(r)) => Some(Local(c, Executing, Trace(r)))
    case (Executing, Return(r)) => Some(Local(WithResult(c, r), SaveResult(r), Quiet))
    case (Executing, Raise(kind)) =>
      if recovered.Some? then Some(Local(WithResult(c, recovered.value), SaveResult(recovered.value), Quiet))
      else Some(Local(WithInfrastructureError(c, "execution", kind), SaveFailed, Quiet))
    case (SaveFailed, Advance) => Some(Local(c, Loop, Save))
    case (SaveInterrupted, Advance) => Some(Local(c, Done, Save))
    case _ => None
  }

  predicate Shape(cfg: Config, s: State) {
    |s.cells| == |s.disk| == |s.pcs| == |s.started| == |cfg.bases|
  }

  predicate AllCompleted(cells: seq<Cell>) {
    forall i :: 0 <= i < |cells| ==> cells[i].status == Completed
  }

  function Saved(s: State): State {
    s.(disk := s.cells, diskStatus := s.status)
  }

  /** A worker's step on the shared state; a save writes every cell as memory has it. */
  function Apply(s: State, i: nat, l: Local): State
    requires i < |s.cells| == |s.pcs| == |s.started|
  {
    var t := s.(cells := s.cells[i := l.cell], pcs := s.pcs[i := l.pc]);
    match l.effect
    case Quiet => t
    case Save => Saved(t)
    case Call => t.(started := s.started[i := s.started[i] + [l.cell.attempts]])
    case Trace(r) => t.(traces := s.traces[l.cell.tracePath := r])
  }

  function Next(cfg: Config, s: State, step: Step): (r: Option<State>)
    requires Shape(cfg, s)
    ensures r.Some? ==> Shape(cfg, r.value)
  {
    var n := |cfg.bases|;
    match step
    case Begin(scheduled) =>
      if s.phase == Down && (forall i <- scheduled :: i < n && s.disk[i].status != Completed) then
        Some(s.(phase := Starting, cells := s.disk, status := MatrixRunning,
                pcs := seq(n, i => if i in scheduled then Entry else Idle)))
      else None
    case SaveStart => if s.phase == Starting then Some(Saved(s).(phase := Working)) else None
    case Work(i, act) =>
      if s.phase == Working && i < n then
        match WorkerStep(cfg, cfg.bases[i], s.cells[i], s.pcs[i], ResultFromTrace(s.traces, s.cells[i].tracePath), act)
        case None => None
        case Some(l) => Some(Apply(s, i, l))
      else None
    case Finish =>
      if s.phase == Working && (forall i :: 0 <= i < n ==> s.pcs[i].Idle? || s.pcs[i].Done?) then
        Some(s.(phase := Finishing, status := if AllCompleted(s.cells) then MatrixCompleted else MatrixIncomplete))
      else None
    case SaveFinish => if s.phase == Finishing then Some(Saved(s).(phase := Down)) else None
    case Crash => Some(s.(phase := Down, cells := s.disk, pcs := seq(n, _ => Idle)))
  }

  /** What one step can do to what lasts: a save of a cell as memory has it, a call from `Launch`, one more trace. */
  lemma StepFrame(cfg: Config, s: State, step: Step, i: nat)
    requires Shape(cfg, s) && Next(cfg, s, step).Some? && i < |cfg.bases|
    ensures var t := Next(cfg, s, step).value;
            && (t.disk[i] == s.disk[i] || t.disk[i] == s.cells[i])
            && (t.started[i] == s.started[i] || (step == Work(i, Advance) && s.pcs[i].Launch?))
            && s.traces.Keys <= t.traces.Keys
            && (Scores(step, i) ==> s.pcs[i].AboutToScore?)
  {
  }

  /** Whether a step scores cell `i`. */
  predicate Scores(step: Step, i: nat) {
    step.Work? && step.cell == i && (step.act.Score? || step.act.ScoreRaise?)
  }

  /** The state after a history, if every step of it was possible. */
  function Run(cfg: Config, s: State, steps: seq<Step>): (r: Option<State>)
    requires Shape(cfg, s)
    ensures r.Some? ==> Shape(cfg, r.value)
  {
    if steps == [] then Some(s)
    else match Run(cfg, s, steps[..|steps| - 1])
      case None => None
      case Some(t) => Next(cfg, t, steps[|steps| - 1])
  }

  lemma {:induction false} RunConcat(cfg: Config, s: State, first: seq<Step>, rest: seq<Step>)
    requires Shape(cfg, s)
    ensures Run(cfg, s, first + rest) ==
            (match Run(cfg, s, first) case None => None case Some(t) => Run(cfg, t, rest))
  {
    if rest == [] {
      assert first + rest == first;
    } else {
      RunConcat(cfg, s, first, rest[..|rest| - 1]);
      assert (first + rest)[..|first + rest| - 1] == first + rest[..|rest| - 1];
    }
  }

  // ------------------------------------------------------------------ billing

  /** The attempts started: each at most once, in increasing order, none above `top`. */
  ghost predicate OnceEach(attempts: seq<nat>, top: nat) {
    && (forall k :: 0 <= k < |attempts| ==> 1 <= attempts[k] <= top)
    && (forall j, k :: 0 <= j < k < |attempts| ==> attempts[j] < attempts[k])
  }

  lemma {:induction false} OnceEachBound(attempts: seq<nat>, top: nat)
    requires OnceEach(attempts, top)
    ensures |attempts| <= top
  {
    if attempts != [] {
      var last := |attempts| - 1;
      OnceEachBound(attempts[..last], attempts[last] - 1);
    }
  }

  predicate Recorded(cfg: Config, base: string, c: Cell) {
    c.attempts <= cfg.retries + 1 && c.attemptRunIds == AttemptIds(base, c.attempts)
  }

  /** What holds of one cell at every moment: saved form `d`, form in memory `m`, worker at `pc`. */
  ghost predicate CellInv(cfg: Config, base: string, d: Cell, m: Cell, pc: Pc, started: seq<nat>) {
    && Recorded(cfg, base, d) && Recorded(cfg, base, m)
    && d.attempts <= m.attempts
    && OnceEach(started, d.attempts)
    && (pc.SaveBegun? || pc.Launch? ==> m.attempts >= 1 && OnceEach(started, m.attempts - 1))
    && (!pc.SaveBegun? && !pc.Dead? ==> d.attempts == m.attempts)
    && (pc.Executing? ==> m.attempts in started)
    && (m.status == Completed ==> pc.Idle? || pc.SaveScored? || pc.Done? || pc.Dead?)
    && (d.status == Completed ==> d == m)
    && (pc.Idle? || pc.Entry? || pc.Loop? || pc.Done? ==> d == m)
  }

  ghost predicate Inv(cfg: Config, s: State) {
    && Shape(cfg, s)
    && (forall i :: 0 <= i < |cfg.bases| ==>
          CellInv(cfg, cfg.bases[i], s.disk[i], s.cells[i], s.pcs[i], s.started[i]))
    && (s.phase != Working ==> forall i :: 0 <= i < |cfg.bases| ==> s.pcs[i].Idle? || s.pcs[i].Entry? || s.pcs[i].Done?)
    && (s.phase == Starting || s.phase == Working ==> s.status == MatrixRunning)
    && (s.phase == Finishing ==> s.status == if AllCompleted(s.cells) then MatrixCompleted else MatrixIncomplete)
    && (s.diskStatus == MatrixCompleted ==> AllCompleted(s.disk))
  }

  lemma SavePreservesCell(cfg: Config, base: string, d: Cell, m: Cell, pc: Pc, started: seq<nat>)
    requires CellInv(cfg, base, d, m, pc, started)
    ensures CellInv(cfg, base, m, m, pc, started)
  {
  }

  lemma BegunPreservesCell(cfg: Config, base: string, d: Cell, m: Cell, started: seq<nat>)
    requires CellInv(cfg, base, d, m, Loop, started)
    requires m.attempts < cfg.retries + 1
    ensures CellInv(cfg, base, d, Begun(m, base, cfg.root), SaveBegun, started)
  {
    assert AttemptIds(base, m.attempts + 1) == AttemptIds(base, m.attempts) + [RunId(base, m.attempts + 1)];
  }

  lemma WorkerStepPreservesCell(cfg: Config, base: string, d: Cell, m: Cell, pc: Pc, started: seq<nat>,
                                recovered: Option<RunResult>, act: Act)
    requires CellInv(cfg, base, d, m, pc, started)
    requires WorkerStep(cfg, base, m, pc, recovered, act).Some?
    ensures var l := WorkerStep(cfg, base, m, pc, recovered, act).value;
            CellInv(cfg, base, if l.effect.Save? then l.cell else d, l.cell, l.pc,
                    if l.effect.Call? then started + [l.cell.attempts] else started)
  {
    if pc.Launch? {
      var more := started + [m.attempts];
      assert more[|started|] == m.attempts;
    } else if pc.Loop? && act.Advance? && m.attempts < cfg.retries + 1 {
      BegunPreservesCell(cfg, base, d, m, started);
    }
  }

  lemma InitInv(cfg: Config)
    ensures Inv(cfg, Init(cfg))
  {
  }

  lemma ApplyPreservesCells(cfg: Config, s: State, i: nat, l: Local)
    requires Inv(cfg, s) && i < |cfg.bases|
    requires CellInv(cfg, cfg.bases[i], if l.effect.Save? then l.cell else s.disk[i], l.cell, l.pc,
                     if l.effect.Call? then s.started[i] + [l.cell.attempts] else s.started[i])
    ensures var t := Apply(s, i, l);
            forall j :: 0 <= j < |cfg.bases| ==>
              CellInv(cfg, cfg.bases[j], t.disk[j], t.cells[j], t.pcs[j], t.started[j])
  {
    var t := Apply(s, i, l);
    forall j | 0 <= j < |cfg.bases|
      ensures CellInv(cfg, cfg.bases[j], t.disk[j], t.cells[j], t.pcs[j], t.started[j])
    {
      SavePreservesCell(cfg, cfg.bases[j], s.disk[j], s.cells[j], s.pcs[j], s.started[j]);
    }
  }

  lemma WorkInv(cfg: Config, s: State, i: nat, act: Act)
    requires Inv(cfg, s) && Next(cfg, s, Work(i, act)).Some?
    ensures Inv(cfg, Next(cfg, s, Work(i, act)).value)
  {
    var recovered := ResultFromTrace(s.traces, s.cells[i].tracePath);
    WorkerStepPreservesCell(cfg, cfg.bases[i], s.disk[i], s.cells[i], s.pcs[i], s.started[i], recovered, act);
    ApplyPreservesCells(cfg, s, i, WorkerStep(cfg, cfg.bases[i], s.cells[i], s.pcs[i], recovered, act).value);
  }

  lemma NextInv(cfg: Config, s: State, step: Step)
    requires Inv(cfg, s) && Next(cfg, s, step).Some?
    ensures Inv(cfg, Next(cfg, s, step).value)
  {
    if step.Work? {
      WorkInv(cfg, s, step.cell, step.act);
      return;
    }
    var t := Next(cfg, s, step).value;
    forall j | 0 <= j < |cfg.bases|
      ensures CellInv(cfg, cfg.bases[j], t.disk[j], t.cells[j], t.pcs[j], t.started[j])
    {
      SavePreservesCell(cfg, cfg.bases[j], s.disk[j], s.cells[j], s.pcs[j], s.started[j]);
    }
  }

  lemma {:induction false} RunInv(cfg: Config, s: State, steps: seq<Step>)
    requires Inv(cfg, s) && Run(cfg, s, steps).Some?
    ensures Inv(cfg, Run(cfg, s, steps).value)
  {
    if steps != [] {
      RunInv(cfg, s, steps[..|steps| - 1]);
      NextInv(cfg, Run(cfg, s, steps[..|steps| - 1]).value, steps[|steps| - 1]);
    }
  }
}
