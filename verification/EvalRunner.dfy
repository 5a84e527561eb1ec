/**
 The runner itself: the manifest with its cells, and the methods the worker threads and `resume` execute.
 Each method is shown to take exactly steps of the state machine, so what holds of all histories holds of it.
 */
module EvalRunner {
  import opened Options
  import opened EvalCells
  import opened EvalMachine

  /** One call of `execute`: the finished trace it left, if any, and how the call ended. */
  datatype Attempt = Attempt(trace: Option<RunResult>, outcome: CallOutcome)
  datatype CallOutcome = Returned(result: RunResult) | Raised(kind: string)
  datatype ScoreAnswer = Scored(scoring: Scoring) | ScorerRaised(kind: string)

  /** The executor by cell and attempt number, the scorers by cell and result. */
  type Executor = (nat, nat) -> Attempt
  type Scorer = (nat, RunResult) -> ScoreAnswer

  lemma {:induction false} RunSnoc(cfg: Config, s: State, steps: seq<Step>, step: Step)
    requires Shape(cfg, s) && Run(cfg, s, steps).Some?
    ensures Run(cfg, s, steps + [step]) == Next(cfg, Run(cfg, s, steps).value, step)
  {
    assert (steps + [step])[..|steps + [step]| - 1] == steps;
  }

  lemma {:induction false} RunTwo(cfg: Config, s: State, first: Step, second: Step)
    requires Shape(cfg, s) && Next(cfg, s, first).Some?
    ensures Run(cfg, s, [first, second]) == Next(cfg, Next(cfg, s, first).value, second)
  {
    RunSnoc(cfg, s, [], first);
    assert [] + [first] == [first] && [first] + [second] == [first, second];
    RunSnoc(cfg, s, [first], second);
  }

  /** Some attempt that cell `i` has left after `attempts` returns a result, and its scorers always answer. */
  ghost predicate WillComplete(execute: Executor, score: Scorer, i: nat, attempts: nat, retries: nat) {
    && !AllRaised(execute, i, attempts, retries + 1)
    && AlwaysAnswers(score, i)
  }

  ghost predicate AlwaysAnswers(score: Scorer, i: nat) {
    forall r :: score(i, r).Scored?
  }

  /** The cell says of the run what the run says, its receipt field by field. */
  predicate Tells(before: Receipt, r: RunResult, runStatus: string, receipt: Receipt) {
    runStatus == r.status && Receipted(before, r, receipt)
  }

  /** What a call that ended so gives as its result: what it returned, else what its own trace holds. */
  function ResultOf(a: Attempt, stale: Option<RunResult>, path: string): Option<RunResult> {
    match a.outcome
    case Returned(r) => Some(r)
    case Raised(_) => if a.trace.Some? && path != "" then Some(a.trace.value.(tracePath := path)) else stale
  }

  predicate Raises(execute: Executor, i: nat, n: nat) {
    execute(i, n).outcome.Raised?
  }

  /** Every attempt after `from` and up to `to` raises. */
  ghost predicate AllRaised(execute: Executor, i: nat, from: nat, to: nat) {
    forall n: nat :: from < n <= to ==> Raises(execute, i, n)
  }

  /** One of those attempts that does not, if there is one. */
  ghost function Returning(execute: Executor, i: nat, from: nat, to: nat): (k: Option<nat>)
    ensures k.Some? ==> from < k.value <= to && !Raises(execute, i, k.value)
    ensures k.None? ==> AllRaised(execute, i, from, to)
  {
    if AllRaised(execute, i, from, to) then None
    else
      var n: nat :| from < n <= to && !Raises(execute, i, n);
      Some(n)
  }

  /** The cells a session submits: the unfinished ones, in manifest order, at most `limit` of them. */
  function Unfinished(values: seq<Cell>): (r: seq<nat>)
    ensures forall k :: 0 <= k < |r| ==> r[k] < |values| && values[r[k]].status != Completed
    ensures forall j, k :: 0 <= j < k < |r| ==> r[j] < r[k]
    ensures forall i :: 0 <= i < |values| && values[i].status != Completed ==> i in r
  {
    if values == [] then []
    else
      var n := |values| - 1;
      var front := Unfinished(values[..n]);
      if values[n].status == Completed then front else front + [n]
  }

  function Eligible(values: seq<Cell>, limit: Option<nat>): (r: seq<nat>)
    ensures r <= Unfinished(values)
    ensures |r| == if limit.Some? && limit.value < |Unfinished(values)| then limit.value else |Unfinished(values)|
  {
    var all := Unfinished(values);
    if limit.Some? && limit.value < |all| then all[..limit.value] else all
  }

  /** Every step is worker `i`'s. */
  ghost predicate OnlyWorker(steps: seq<Step>, i: nat) {
    forall k :: 0 <= k < |steps| ==> steps[k].Work? && steps[k].cell == i
  }

  lemma {:induction false} RunOn(cfg: Config, s: State, steps: seq<Step>, more: seq<Step>, i: nat)
    requires Shape(cfg, s) && Run(cfg, s, steps).Some?
    requires OnlyWorker(steps, i) && OnlyWorker(more, i)
    ensures Run(cfg, s, steps + more) == Run(cfg, Run(cfg, s, steps).value, more)
    ensures OnlyWorker(steps + more, i)
  {
    RunConcat(cfg, s, steps, more);
  }

  /** The first `k` submitted cells have been worked on, and nothing else has changed. */
  ghost predicate Progress(
      eligible: seq<nat>, k: nat, start: seq<Pc>, pcs: seq<Pc>, initial: seq<Cell>, values: seq<Cell>)
  {
    && k <= |eligible| && |pcs| == |start| == |initial| == |values|
    && (forall m :: 0 <= m < |eligible| ==> eligible[m] < |values|)
    && (forall m :: 0 <= m < k ==> pcs[eligible[m]] == Done)
    && (forall m :: k <= m < |eligible| ==> pcs[eligible[m]] == Entry && values[eligible[m]] == initial[eligible[m]])
    && (forall i :: 0 <= i < |values| && i !in eligible ==> pcs[i] == start[i] && values[i] == initial[i])
  }

  ghost predicate CompletedUpTo(execute: Executor, score: Scorer, retries: nat,
                                eligible: seq<nat>, k: nat, initial: seq<Cell>, values: seq<Cell>)
    requires k <= |eligible| && |initial| == |values|
    requires forall m :: 0 <= m < |eligible| ==> eligible[m] < |values|
  {
    forall m :: 0 <= m < k ==>
      WillComplete(execute, score, eligible[m], initial[eligible[m]].attempts, retries) ==>
      values[eligible[m]].status == Completed
  }

  /** One worker's run on the next submitted cell. */
  lemma OneMoreWorker(execute: Executor, score: Scorer, retries: nat, eligible: seq<nat>, k: nat,
                      start: seq<Pc>, pcs: seq<Pc>, initial: seq<Cell>, before: seq<Cell>, values: seq<Cell>)
    requires k < |eligible| && forall j, m :: 0 <= j < m < |eligible| ==> eligible[j] < eligible[m]
    requires Progress(eligible, k, start, pcs, initial, before)
    requires |values| == |before| && values == before[eligible[k] := values[eligible[k]]]
    requires CompletedUpTo(execute, score, retries, eligible, k, initial, before)
    requires WillComplete(execute, score, eligible[k], initial[eligible[k]].attempts, retries) ==>
               values[eligible[k]].status == Completed
    ensures Progress(eligible, k + 1, start, pcs[eligible[k] := Done], initial, values)
    ensures CompletedUpTo(execute, score, retries, eligible, k + 1, initial, values)
  {
    assert eligible[k] in eligible;
  }

  /** When all submitted cells have been worked on, no worker is left, and they are complete if they could be. */
  lemma AllWorked(execute: Executor, score: Scorer, retries: nat, eligible: seq<nat>,
                  start: seq<Pc>, pcs: seq<Pc>, initial: seq<Cell>, values: seq<Cell>)
    requires Progress(eligible, |eligible|, start, pcs, initial, values)
    requires forall i :: 0 <= i < |start| ==> start[i] == if i in eligible then Entry else Idle
    requires CompletedUpTo(execute, score, retries, eligible, |eligible|, initial, values)
    ensures forall i :: 0 <= i < |pcs| ==> pcs[i].Idle? || pcs[i].Done?
    ensures Worked(execute, score, retries, eligible, initial, values)
  {
  }

  /** The submitted cells that could complete have, and no other cell has changed. */
  ghost predicate Worked(execute: Executor, score: Scorer, retries: nat, eligible: seq<nat>,
                         initial: seq<Cell>, values: seq<Cell>)
  {
    && |values| == |initial| && (forall i <- eligible :: i < |values|)
    && (forall i <- eligible :: WillComplete(execute, score, i, initial[i].attempts, retries) ==>
          values[i].status == Completed)
    && (forall i :: 0 <= i < |values| && i !in eligible ==> values[i] == initial[i])
  }

  /** Every unfinished cell can complete. */
  ghost predicate AllWillComplete(execute: Executor, score: Scorer, retries: nat, loaded: seq<Cell>) {
    forall i <- Unfinished(loaded) :: WillComplete(execute, score, i, loaded[i].attempts, retries)
  }

  /** A matrix completes when every unfinished cell is submitted and can complete. */
  lemma EverythingCompletes(execute: Executor, score: Scorer, retries: nat, limit: Option<nat>,
                            loaded: seq<Cell>, values: seq<Cell>)
    requires Worked(execute, score, retries, Eligible(loaded, limit), loaded, values)
    ensures limit.None? && AllWillComplete(execute, score, retries, loaded) ==> AllCompleted(values)
  {
    if limit.None? && AllWillComplete(execute, score, retries, loaded) {
      forall i | 0 <= i < |values|
        ensures values[i].status == Completed
      {
        assert i in Unfinished(loaded) || loaded[i].status == Completed;
      }
    }
  }

  class Runner {
    const cfg: Config
    var cells: seq<EvalCell>
    var status: MatrixStatus
    var disk: seq<Cell>
    var diskStatus: MatrixStatus
    var traces: map<string, RunResult>
    ghost var started: seq<seq<nat>>

    ghost predicate Valid()
      reads this
    {
      && |cells| == |disk| == |started| == |cfg.bases|
      && (forall i :: 0 <= i < |cells| ==> cells[i].base == cfg.bases[i])
      && (forall i, j :: 0 <= i < j < |cells| ==> cells[i] != cells[j])
    }

    function Values(): (values: seq<Cell>)
      reads this`cells, cells
      ensures |values| == |cells|
      ensures forall i :: 0 <= i < |cells| ==> values[i] == cells[i].Value()
    {
      var cs := cells;
      seq(|cs|, i requires 0 <= i < |cs| reads cs => cs[i].Value())
    }

    /** A process that loads the saved manifest, to start or resume its session. */
    constructor Resume(cfg: Config, s: State)
      requires Shape(cfg, s) && s.phase == Down && s.cells == s.disk
      ensures Valid() && this.cfg == cfg && fresh(cells)
      ensures At(Down, s.pcs) == s && Values() == disk
    {
      this.cfg := cfg;
      cells, status, disk, diskStatus := [], s.status, s.disk, s.diskStatus;
      traces, started := s.traces, s.started;
      new;
      var i := 0;
      while i < |disk|
        invariant i == |cells| <= |disk| == |cfg.bases| && disk == s.disk && fresh(cells)
        invariant status == s.status && diskStatus == s.diskStatus && traces == s.traces && started == s.started
        invariant forall k :: 0 <= k < i ==> cells[k].Value() == disk[k] && cells[k].base == cfg.bases[k]
        invariant forall j, k :: 0 <= j < k < i ==> cells[j] != cells[k]
      {
        var cell := new EvalCell.Load(cfg.bases[i], disk[i]);
        cells := cells + [cell];
        i := i + 1;
      }
      assert Values() == disk;
    }

    /** The machine state of a session whose workers stand at `pcs`. */
    ghost function At(phase: Phase, pcs: seq<Pc>): (s: State)
      requires Valid() && |pcs| == |cfg.bases|
      reads this, cells
      ensures Shape(cfg, s)
    {
      State(phase, Values(), status, disk, diskStatus, pcs, traces, started)
    }

    method SaveManifest()
      requires Valid()
      modifies this`disk, this`diskStatus
      ensures Valid() && disk == Values() && diskStatus == status
    {
      disk := Values();
      diskStatus := status;
    }

    /** A save by worker `i` at `pcs[i]`, which then stands at `next`. */
    method SaveStep(i: nat, ghost pcs: seq<Pc>, ghost next: Pc)
      requires Valid() && i < |cells| == |pcs|
      requires WorkerStep(cfg, cfg.bases[i], cells[i].Value(), pcs[i],
                          ResultFromTrace(traces, cells[i].tracePath), Advance)
               == Some(Local(cells[i].Value(), next, Save))
      modifies this`disk, this`diskStatus
      ensures Valid() && Values() == old(Values())
      ensures Next(cfg, old(At(Working, pcs)), Work(i, Advance)) == Some(At(Working, pcs[i := next]))
    {
      SaveManifest();
      assert Values()[i := cells[i].Value()] == Values();
    }

    /** Records a result in cell `i`: from its trace at the start, or from its own call. */
    method ApplyStep(i: nat, r: RunResult, ghost act: Act, ghost pcs: seq<Pc>)
      requires Valid() && i < |cells| == |pcs|
      requires WorkerStep(cfg, cfg.bases[i], cells[i].Value(), pcs[i],
                          ResultFromTrace(traces, cells[i].tracePath), act)
               == Some(Local(WithResult(cells[i].Value(), r), SaveResult(r), Quiet))
      modifies cells[i]
      ensures Valid() && cells[i].Value() == WithResult(old(cells[i].Value()), r)
      ensures Values() == old(Values())[i := cells[i].Value()]
      ensures Next(cfg, old(At(Working, pcs)), Work(i, act)) == Some(At(Working, pcs[i := SaveResult(r)]))
    {
      cells[i].ApplyResult(r);
      assert Values() == old(Values())[i := cells[i].Value()];
    }

    method FailStep(i: nat, phase: string, kind: string, ghost act: Act, ghost pcs: seq<Pc>, ghost next: Pc)
      requires Valid() && i < |cells| == |pcs|
      requires WorkerStep(cfg, cfg.bases[i], cells[i].Value(), pcs[i],
                          ResultFromTrace(traces, cells[i].tracePath), act)
               == Some(Local(WithInfrastructureError(cells[i].Value(), phase, kind), next, Quiet))
      modifies cells[i]
      ensures Valid() && cells[i].Value() == WithInfrastructureError(old(cells[i].Value()), phase, kind)
      ensures Values() == old(Values())[i := cells[i].Value()]
      ensures Next(cfg, old(At(Working, pcs)), Work(i, act)) == Some(At(Working, pcs[i := next]))
    {
      cells[i].FailInfrastructure(phase, kind);
      assert Values() == old(Values())[i := cells[i].Value()];
    }

    /** What cell `i` records of the scorers' answer. */
    function ScoreRecorded(c: Cell, answer: ScoreAnswer): Cell {
      match answer
      case Scored(q) => WithScoring(c, q)
      case ScorerRaised(kind) => WithScoringError(c, kind)
    }

    method RecordScore(i: nat, r: RunResult, answer: ScoreAnswer, ghost pcs: seq<Pc>)
      returns (ghost act: Act, ghost next: Pc)
      requires Valid() && i < |cells| == |pcs| && pcs[i] == AboutToScore(r)
      modifies cells[i]
      ensures Valid() && cells[i].Value() == ScoreRecorded(old(cells[i].Value()), answer)
      ensures Values() == old(Values())[i := cells[i].Value()]
      ensures next == SaveScored || next == SaveScoringError
      ensures Next(cfg, old(At(Working, pcs)), Work(i, act)) == Some(At(Working, pcs[i := next]))
    {
      if answer.Scored? {
        act, next := Score(answer.scoring), SaveScored;
        cells[i].ApplyScoring(answer.scoring);
      } else {
        act, next := ScoreRaise(answer.kind), SaveScoringError;
        cells[i].FailScoring(answer.kind);
      }
      assert Values() == old(Values())[i := cells[i].Value()];
    }

    /** Scores a saved result. A scorer that raises leaves the cell `ran`, its trace in place. */
    method ScoreCell(i: nat, r: RunResult, score: Scorer, ghost pcs: seq<Pc>) returns (ghost steps: seq<Step>)
      requires Valid() && i < |cells| == |pcs| && pcs[i] == AboutToScore(r)
      modifies cells[i], this`disk, this`diskStatus
      ensures Valid() && cells[i].Value() == ScoreRecorded(old(cells[i].Value()), score(i, r))
      ensures Run(cfg, old(At(Working, pcs)), steps) == Some(At(Working, pcs[i := Done]))
      ensures OnlyWorker(steps, i)
    {
      ghost var s0 := At(Working, pcs);
      ghost var act, next := RecordScore(i, r, score(i, r), pcs);
      SaveStep(i, pcs[i := next], Done);
      assert pcs[i := next][i := Done] == pcs[i := Done];
      steps := [Work(i, act), Work(i, Advance)];
      RunTwo(cfg, s0, Work(i, act), Work(i, Advance));
    }

    /**
     One attempt, from the top of the retry loop: the manifest that admits it is saved before `execute` is
     called. The answer is the result to score, or None when the call failed and left no finished trace.
     */
    method AttemptOnce(i: nat, execute: Executor, ghost pcs: seq<Pc>)
      returns (r: Option<RunResult>, ghost steps: seq<Step>)
      requires Valid() && i < |cells| == |pcs| && pcs[i] == Loop && cells[i].attempts < cfg.retries + 1
      modifies this`disk, this`diskStatus, this`traces, this`started, cells[i]
      ensures Valid() && cells[i].attempts == old(cells[i].attempts) + 1
      ensures Run(cfg, old(At(Working, pcs)), steps)
              == Some(At(Working, pcs[i := if r.Some? then AboutToScore(r.value) else Loop]))
      ensures OnlyWorker(steps, i)
      ensures started == old(started)[i := old(started[i]) + [cells[i].attempts]]
      ensures cells[i].status == if r.Some? then Ran else InfrastructureError
      ensures if r.Some? then Tells(old(cells[i].receipt), r.value, cells[i].runStatus, cells[i].receipt)
              else cells[i].receipt == old(cells[i].receipt)
      ensures r.None? ==> Raises(execute, i, cells[i].attempts)
    {
      ghost var s0 := At(Working, pcs);
      BeginAttempt(i, pcs);
      steps := [Work(i, Advance), Work(i, Advance)];
      ghost var more;
      r, more := CallOnce(i, execute, pcs[i := Launch]);
      RunOn(cfg, s0, steps, more, i);
      steps := steps + more;
      ghost var last := if r.Some? then AboutToScore(r.value) else Loop;
      assert pcs[i := Launch][i := last] == pcs[i := last];
    }

    /** The attempt is counted and named in memory, then on disk. */
    method BeginAttempt(i: nat, ghost pcs: seq<Pc>)
      requires Valid() && i < |cells| == |pcs| && pcs[i] == Loop && cells[i].attempts < cfg.retries + 1
      modifies this`disk, this`diskStatus, cells[i]
      ensures Valid() && cells[i].attempts == old(cells[i].attempts) + 1
      ensures cells[i].receipt == old(cells[i].receipt)
      ensures Values() == old(Values())[i := cells[i].Value()]
      ensures Run(cfg, old(At(Working, pcs)), [Work(i, Advance), Work(i, Advance)])
           == Some(At(Working, pcs[i := Launch]))
    {
      ghost var s0 := At(Working, pcs);
      cells[i].BeginAttempt(cfg.root);
      assert Values() == old(Values())[i := cells[i].Value()];
      assert Next(cfg, s0, Work(i, Advance)) == Some(At(Working, pcs[i := SaveBegun]));
      SaveStep(i, pcs[i := SaveBegun], Launch);
      assert pcs[i := SaveBegun][i := Launch] == pcs[i := Launch];
      RunTwo(cfg, s0, Work(i, Advance), Work(i, Advance));
    }

    /** Records how a call ended: its result, the one its trace holds though it raised, or the failure. */
    method RecordCall(i: nat, outcome: CallOutcome, ghost pcs: seq<Pc>)
      returns (r: Option<RunResult>, ghost act: Act, ghost next: Pc)
      requires Valid() && i < |cells| == |pcs| && pcs[i] == Executing
      modifies cells[i]
      ensures Valid() && cells[i].attempts == old(cells[i].attempts)
      ensures Values() == old(Values())[i := cells[i].Value()]
      ensures r == if outcome.Returned? then Some(outcome.result) else old(ResultFromTrace(traces, cells[i].tracePath))
      ensures cells[i].status == if r.Some? then Ran else InfrastructureError
      ensures if r.Some? then Tells(old(cells[i].receipt), r.value, cells[i].runStatus, cells[i].receipt)
              else cells[i].receipt == old(cells[i].receipt)
      ensures next == if r.Some? then SaveResult(r.value) else SaveFailed
      ensures Next(cfg, old(At(Working, pcs)), Work(i, act)) == Some(At(Working, pcs[i := next]))
    {
      if outcome.Returned? {
        r, act := Some(outcome.result), Return(outcome.result);
      } else {
        r, act := ResultFromTrace(traces, cells[i].tracePath), Raise(outcome.kind);
      }
      if r.Some? {
        next := SaveResult(r.value);
        ApplyStep(i, r.value, act, pcs);
      } else {
        next := SaveFailed;
        FailStep(i, "execution", outcome.kind, act, pcs, next);
      }
    }

    /** How the call ended, recorded and saved. */
    method EndCall(i: nat, outcome: CallOutcome, ghost pcs: seq<Pc>)
      returns (r: Option<RunResult>, ghost steps: seq<Step>)
      requires Valid() && i < |cells| == |pcs| && pcs[i] == Executing
      modifies this`disk, this`diskStatus, cells[i]
      ensures Valid() && cells[i].attempts == old(cells[i].attempts)
      ensures r == if outcome.Returned? then Some(outcome.result) else old(ResultFromTrace(traces, cells[i].tracePath))
      ensures cells[i].status == if r.Some? then Ran else InfrastructureError
      ensures if r.Some? then Tells(old(cells[i].receipt), r.value, cells[i].runStatus, cells[i].receipt)
              else cells[i].receipt == old(cells[i].receipt)
      ensures Run(cfg, old(At(Working, pcs)), steps)
              == Some(At(Working, pcs[i := if r.Some? then AboutToScore(r.value) else Loop]))
      ensures OnlyWorker(steps, i)
    {
      ghost var s0 := At(Working, pcs);
      ghost var act, next;
      r, act, next := RecordCall(i, outcome, pcs);
      ghost var last := if r.Some? then AboutToScore(r.value) else Loop;
      SaveStep(i, pcs[i := next], last);
      assert pcs[i := next][i := last] == pcs[i := last];
      RunTwo(cfg, s0, Work(i, act), Work(i, Advance));
      steps := [Work(i, act), Work(i, Advance)];
    }

    /** The call itself, and what is saved of how it ended. */
    method CallOnce(i: nat, execute: Executor, ghost pcs: seq<Pc>)
      returns (r: Option<RunResult>, ghost steps: seq<Step>)
      requires Valid() && i < |cells| == |pcs| && pcs[i] == Launch
      modifies this`disk, this`diskStatus, this`traces, this`started, cells[i]
      ensures Valid() && cells[i].attempts == old(cells[i].attempts)
      ensures Run(cfg, old(At(Working, pcs)), steps)
              == Some(At(Working, pcs[i := if r.Some? then AboutToScore(r.value) else Loop]))
      ensures OnlyWorker(steps, i)
      ensures started == old(started)[i := old(started[i]) + [cells[i].attempts]]
      ensures cells[i].status == if r.Some? then Ran else InfrastructureError
      ensures if r.Some? then Tells(old(cells[i].receipt), r.value, cells[i].runStatus, cells[i].receipt)
              else cells[i].receipt == old(cells[i].receipt)
      ensures r.None? ==> Raises(execute, i, cells[i].attempts)
      ensures r == ResultOf(execute(i, old(cells[i].attempts)), old(ResultFromTrace(traces, cells[i].tracePath)),
                            old(cells[i].tracePath))
    {
      ghost var s0 := At(Working, pcs);
      var answer := execute(i, cells[i].attempts);
      steps := Execute(i, answer.trace, pcs);
      ghost var at := pcs[i := Executing];
      ghost var more;
      r, more := EndCall(i, answer.outcome, at);
      ghost var last := if r.Some? then AboutToScore(r.value) else Loop;
      assert at[i := last] == pcs[i := last];
      RunOn(cfg, s0, steps, more, i);
      steps := steps + more;
    }

    /** `execute` is entered; it may leave a finished trace under the attempt's own path. */
    method Execute(i: nat, trace: Option<RunResult>, ghost pcs: seq<Pc>) returns (ghost steps: seq<Step>)
      requires Valid() && i < |cells| == |pcs| && pcs[i] == Launch
      modifies this`traces, this`started
      ensures Valid()
      ensures traces == if trace.Some? then old(traces)[cells[i].tracePath := trace.value] else old(traces)
      ensures started == old(started)[i := old(started[i]) + [cells[i].attempts]]
      ensures Run(cfg, old(At(Working, pcs)), steps) == Some(At(Working, pcs[i := Executing]))
      ensures OnlyWorker(steps, i)
    {
      ghost var s0 := At(Working, pcs);
      EnterCall(i, pcs);
      steps := [Work(i, Advance)];
      RunSnoc(cfg, s0, [], Work(i, Advance));
      assert [] + [Work(i, Advance)] == steps;
      if trace.Some? {
        LeaveTrace(i, trace.value, pcs[i := Executing]);
        RunSnoc(cfg, s0, steps, Work(i, WriteTrace(trace.value)));
        steps := steps + [Work(i, WriteTrace(trace.value))];
      }
    }

    ghost method EnterCall(i: nat, pcs: seq<Pc>)
      requires Valid() && i < |cells| == |pcs| && pcs[i] == Launch
      modifies this`started
      ensures Valid() && started == old(started)[i := old(started[i]) + [cells[i].attempts]]
      ensures Next(cfg, old(At(Working, pcs)), Work(i, Advance)) == Some(At(Working, pcs[i := Executing]))
    {
      assert Values()[i := cells[i].Value()] == Values();
      started := started[i := started[i] + [cells[i].attempts]];
    }

    method LeaveTrace(i: nat, r: RunResult, ghost pcs: seq<Pc>)
      requires Valid() && i < |cells| == |pcs| && pcs[i] == Executing
      modifies this`traces
      ensures Valid() && traces == old(traces)[cells[i].tracePath := r]
      ensures Next(cfg, old(At(Working, pcs)), Work(i, WriteTrace(r))) == Some(At(Working, pcs))
    {
      assert Values()[i := cells[i].Value()] == Values() && pcs[i := Executing] == pcs;
      traces := traces[cells[i].tracePath := r];
    }

    /** The start of a worker: a finished trace is taken over as the cell's result; a lost one is reported. */
    method RecoverCell(i: nat, ghost pcs: seq<Pc>) returns (r: Option<RunResult>, ghost steps: seq<Step>)
      requires Valid() && i < |cells| == |pcs| && pcs[i] == Entry
      modifies this`disk, this`diskStatus, cells[i]
      ensures Valid() && cells[i].attempts == old(cells[i].attempts)
      ensures r == old(ResultFromTrace(traces, cells[i].tracePath))
      ensures cells[i].Value() ==
              if r.Some? then WithResult(old(cells[i].Value()), r.value)
              else if old(cells[i].status) == Ran then
                WithInfrastructureError(old(cells[i].Value()), "recovery", "MissingTrace")
              else old(cells[i].Value())
      ensures Run(cfg, old(At(Working, pcs)), steps)
              == Some(At(Working, pcs[i := if r.Some? then AboutToScore(r.value) else Loop]))
      ensures OnlyWorker(steps, i)
    {
      ghost var s0 := At(Working, pcs);
      ghost var next, last := Loop, Loop;
      r := ResultFromTrace(traces, cells[i].tracePath);
      if r.None? && cells[i].status != Ran {
        assert Values()[i := cells[i].Value()] == Values();
        steps := [Work(i, Advance)];
        RunSnoc(cfg, s0, [], Work(i, Advance));
        assert [] + [Work(i, Advance)] == steps;
        return;
      }
      if r.Some? {
        next, last := SaveResult(r.value), AboutToScore(r.value);
        ApplyStep(i, r.value, Advance, pcs);
      } else {
        next := SaveMissing;
        FailStep(i, "recovery", "MissingTrace", Advance, pcs, next);
      }
      SaveStep(i, pcs[i := next], last);
      assert pcs[i := next][i := last] == pcs[i := last];
      RunTwo(cfg, s0, Work(i, Advance), Work(i, Advance));
      steps := [Work(i, Advance), Work(i, Advance)];
    }

    /** The retry loop. It ends with a result to score, or with the attempts used up. */
    method RetryLoop(i: nat, execute: Executor, ghost pcs: seq<Pc>)
      returns (r: Option<RunResult>, ghost steps: seq<Step>)
      requires Valid() && i < |cells| == |pcs| && pcs[i] == Loop
      modifies this`disk, this`diskStatus, this`traces, this`started, cells[i]
      ensures Valid()
      ensures Run(cfg, old(At(Working, pcs)), steps)
              == Some(At(Working, pcs[i := if r.Some? then AboutToScore(r.value) else Loop]))
      ensures OnlyWorker(steps, i)
      ensures r.None? ==> cells[i].attempts >= cfg.retries + 1
      ensures r.Some? ==> cells[i].status == Ran
      ensures r.Some? ==> Tells(old(cells[i].receipt), r.value, cells[i].runStatus, cells[i].receipt)
      ensures |started[i]| == |old(started[i])| + cells[i].attempts - old(cells[i].attempts)
      ensures old(cells[i].attempts) <= cfg.retries ==> cells[i].attempts > old(cells[i].attempts)
      ensures old(cells[i].attempts) > cfg.retries ==> r.None? && cells[i].Value() == old(cells[i].Value())
      ensures r.None? ==> AllRaised(execute, i, old(cells[i].attempts), cfg.retries + 1)
      ensures r.None? && old(cells[i].attempts) <= cfg.retries ==> cells[i].status == InfrastructureError
    {
      ghost var s0, first := At(Working, pcs), cells[i].Value();
      ghost var good := Returning(execute, i, first.attempts, cfg.retries + 1);
      r, steps := None, [];
      assert pcs[i := Loop] == pcs;
      assert Values()[i := cells[i].Value()] == Values();
      while r.None? && cells[i].attempts < cfg.retries + 1
        invariant Valid()
        invariant Run(cfg, s0, steps) == Some(At(Working, pcs[i := if r.Some? then AboutToScore(r.value) else Loop]))
        invariant OnlyWorker(steps, i)
        invariant |started[i]| == |old(started[i])| + cells[i].attempts - first.attempts
        invariant if r.Some? then Tells(first.receipt, r.value, cells[i].runStatus, cells[i].receipt)
                  else cells[i].receipt == first.receipt
        invariant first.attempts <= cells[i].attempts
        invariant cells[i].attempts > first.attempts ==> cells[i].attempts <= cfg.retries + 1
        invariant r.Some? ==> cells[i].status == Ran && cells[i].attempts > first.attempts
        invariant r.None? && good.Some? ==> cells[i].attempts < good.value
        invariant r.None? && cells[i].attempts > first.attempts ==> cells[i].status == InfrastructureError
        invariant cells[i].attempts == first.attempts ==> cells[i].Value() == first
        decreases cfg.retries + 1 - cells[i].attempts
      {
        ghost var more, n := [], cells[i].attempts + 1;
        r, more := AttemptOnce(i, execute, pcs);
        assert cells[i].attempts == n;
        assert r.None? ==> Raises(execute, i, n);
        assert r.None? && good.Some? ==> n != good.value;
        RunOn(cfg, s0, steps, more, i);
        steps := steps + more;
      }
    }

    /** After the loop: a cell that a crash left running with no attempt to spare is given up. */
    method GiveUp(i: nat, ghost pcs: seq<Pc>) returns (ghost steps: seq<Step>)
      requires Valid() && i < |cells| == |pcs| && pcs[i] == Loop && cells[i].attempts >= cfg.retries + 1
      modifies this`disk, this`diskStatus, cells[i]
      ensures Valid()
      ensures Run(cfg, old(At(Working, pcs)), steps) == Some(At(Working, pcs[i := Done]))
      ensures OnlyWorker(steps, i)
      ensures cells[i].Value() == if old(cells[i].status) == Running then
                WithInfrastructureError(old(cells[i].Value()), "execution", "InterruptedAttempt")
              else old(cells[i].Value())
    {
      ghost var s0 := At(Working, pcs);
      steps := [Work(i, Advance)];
      if cells[i].status == Running {
        FailStep(i, "execution", "InterruptedAttempt", Advance, pcs, SaveInterrupted);
        SaveStep(i, pcs[i := SaveInterrupted], Done);
        assert pcs[i := SaveInterrupted][i := Done] == pcs[i := Done];
        RunTwo(cfg, s0, Work(i, Advance), Work(i, Advance));
        steps := [Work(i, Advance), Work(i, Advance)];
      } else {
        assert Values()[i := cells[i].Value()] == Values();
        RunSnoc(cfg, s0, [], Work(i, Advance));
        assert [] + [Work(i, Advance)] == steps;
      }
    }

    /** The run to score: the one the recorded trace holds, else one from the retry loop. */
    method ObtainResult(i: nat, execute: Executor, ghost pcs: seq<Pc>)
      returns (r: Option<RunResult>, ghost steps: seq<Step>)
      requires Valid() && i < |cells| == |pcs| && pcs[i] == Entry
      modifies this`disk, this`diskStatus, this`traces, this`started, cells[i]
      ensures Valid()
      ensures Run(cfg, old(At(Working, pcs)), steps)
              == Some(At(Working, pcs[i := if r.Some? then AboutToScore(r.value) else Loop]))
      ensures OnlyWorker(steps, i)
      ensures var recovered := old(ResultFromTrace(traces, cells[i].tracePath));
              && (|started[i]| > |old(started[i])| <==> recovered.None? && old(cells[i].attempts) <= cfg.retries)
              && (recovered.Some? ==> r == recovered && cells[i].Value() == WithResult(old(cells[i].Value()), r.value))
      ensures r.Some? ==> cells[i].status == Ran
      ensures r.Some? ==> Tells(old(cells[i].receipt), r.value, cells[i].runStatus, cells[i].receipt)
      ensures r.None? && old(cells[i].status) != Completed ==> cells[i].status != Completed
      ensures r.None? ==> cells[i].attempts >= cfg.retries + 1 && cells[i].status != Ran
      ensures r.None? && old(cells[i].attempts) <= cfg.retries ==> cells[i].status == InfrastructureError
      ensures r.None? ==> AllRaised(execute, i, old(cells[i].attempts), cfg.retries + 1)
    {
      ghost var s0 := At(Working, pcs);
      r, steps := RecoverCell(i, pcs);
      if r.None? {
        ghost var at := pcs[i := Loop];
        ghost var more;
        r, more := RetryLoop(i, execute, at);
        ghost var last := if r.Some? then AboutToScore(r.value) else Loop;
        assert at[i := last] == pcs[i := last];
        RunOn(cfg, s0, steps, more, i);
        steps := steps + more;
      }
    }

    /**
     One worker's whole run on one cell, with nothing of other workers in between. It takes steps of the
     state machine; it executes the cell exactly when its trace holds no finished run and an attempt is
     left; and with a finished trace all it does is score that run.
     */
    method RunOneCell(i: nat, execute: Executor, score: Scorer, ghost pcs: seq<Pc>) returns (ghost steps: seq<Step>)
      requires Valid() && i < |cells| == |pcs| && pcs[i] == Entry
      modifies this`disk, this`diskStatus, this`traces, this`started, cells[i]
      ensures Valid()
      ensures Run(cfg, old(At(Working, pcs)), steps) == Some(At(Working, pcs[i := Done]))
      ensures OnlyWorker(steps, i)
      ensures var recovered := old(ResultFromTrace(traces, cells[i].tracePath));
              && (|started[i]| > |old(started[i])| <==> recovered.None? && old(cells[i].attempts) <= cfg.retries)
              && (recovered.Some? ==>
                    cells[i].Value() == ScoreRecorded(WithResult(old(cells[i].Value()), recovered.value),
                                                      score(i, recovered.value)))
      ensures old(cells[i].attempts) <= cfg.retries ==>
                (cells[i].status == Completed || cells[i].status == Ran || cells[i].status == InfrastructureError)
      ensures cells[i].status == Ran ==> !AlwaysAnswers(score, i)
      ensures cells[i].status == Completed && old(cells[i].status) != Completed ==>
                exists r :: score(i, r).Scored? && cells[i].scorerStatus == score(i, r).scoring.status
                         && Tells(old(cells[i].receipt), r, cells[i].runStatus, cells[i].receipt)
      ensures cells[i].status == InfrastructureError ==>
                AllRaised(execute, i, old(cells[i].attempts), cfg.retries + 1)
    {
      ghost var s0 := At(Working, pcs);
      var r;
      r, steps := ObtainResult(i, execute, pcs);
      ghost var more;
      ghost var at := pcs[i := if r.Some? then AboutToScore(r.value) else Loop];
      if r.Some? {
        more := ScoreCell(i, r.value, score, at);
      } else {
        more := GiveUp(i, at);
      }
      assert at[i := Done] == pcs[i := Done];
      RunOn(cfg, s0, steps, more, i);
      steps := steps + more;
    }

    /** The session's first save, and a worker at the entry of every submitted cell. */
    method OpenSession(eligible: seq<nat>, ghost idle: seq<Pc>) returns (ghost steps: seq<Step>, ghost pcs: seq<Pc>)
      requires Valid() && Values() == disk && |idle| == |cells|
      requires forall i <- eligible :: i < |disk| && disk[i].status != Completed
      modifies this`status, this`disk, this`diskStatus
      ensures Valid() && status == MatrixRunning && |pcs| == |cells|
      ensures forall i :: 0 <= i < |pcs| ==> pcs[i] == if i in eligible then Entry else Idle
      ensures Run(cfg, old(At(Down, idle)), steps) == Some(At(Working, pcs))
    {
      ghost var s0 := At(Down, idle);
      ghost var chosen := set i: nat | i in eligible;
      pcs := seq(|cells|, i => if i in chosen then Entry else Idle);
      status := MatrixRunning;
      assert Next(cfg, s0, Begin(chosen)) == Some(At(Starting, pcs));
      ghost var s1 := At(Starting, pcs);
      SaveManifest();
      assert Next(cfg, s1, SaveStart) == Some(At(Working, pcs));
      RunTwo(cfg, s0, Begin(chosen), SaveStart);
      steps := [Begin(chosen), SaveStart];
    }

    /** The same, as it looks from outside: only this cell changed, and it completes if it can. */
    method RunWorker(i: nat, execute: Executor, score: Scorer, ghost pcs: seq<Pc>) returns (ghost steps: seq<Step>)
      requires Valid() && i < |cells| == |pcs| && pcs[i] == Entry
      modifies this`disk, this`diskStatus, this`traces, this`started, cells[i]
      ensures Valid() && |Values()| == |cells| && Values() == old(Values())[i := Values()[i]]
      ensures Run(cfg, old(At(Working, pcs)), steps) == Some(At(Working, pcs[i := Done]))
      ensures WillComplete(execute, score, i, old(Values()[i].attempts), cfg.retries) ==>
                Values()[i].status == Completed
    {
      steps := RunOneCell(i, execute, score, pcs);
      assert forall j :: 0 <= j < |cells| && j != i ==> Values()[j] == old(Values())[j];
    }

    method RunWorkers(eligible: seq<nat>, execute: Executor, score: Scorer, ghost start: seq<Pc>)
      returns (ghost steps: seq<Step>, ghost pcs: seq<Pc>)
      requires Valid() && |start| == |cells|
      requires forall i :: 0 <= i < |start| ==> start[i] == if i in eligible then Entry else Idle
      requires forall k :: 0 <= k < |eligible| ==> eligible[k] < |cells|
      requires forall j, k :: 0 <= j < k < |eligible| ==> eligible[j] < eligible[k]
      modifies this`disk, this`diskStatus, this`traces, this`started, cells
      ensures Valid() && |pcs| == |cells|
      ensures forall i :: 0 <= i < |pcs| ==> pcs[i].Idle? || pcs[i].Done?
      ensures Run(cfg, old(At(Working, start)), steps) == Some(At(Working, pcs))
      ensures Worked(execute, score, cfg.retries, eligible, old(Values()), Values())
    {
      ghost var s0, initial := At(Working, start), Values();
      pcs, steps := start, [];
      var k := 0;
      while k < |eligible|
        invariant k <= |eligible| && Valid() && cells == old(cells) && |pcs| == |cells|
        invariant Run(cfg, s0, steps) == Some(At(Working, pcs))
        invariant Progress(eligible, k, start, pcs, initial, Values())
        invariant CompletedUpTo(execute, score, cfg.retries, eligible, k, initial, Values())
      {
        ghost var before := Values();
        ghost var more := RunWorker(eligible[k], execute, score, pcs);
        RunConcat(cfg, s0, steps, more);
        steps := steps + more;
        OneMoreWorker(execute, score, cfg.retries, eligible, k, start, pcs, initial, before, Values());
        pcs := pcs[eligible[k] := Done];
        k := k + 1;
      }
      AllWorked(execute, score, cfg.retries, eligible, start, pcs, initial, Values());
    }

    /** The final status, saved once every worker is done. */
    method CloseSession(ghost pcs: seq<Pc>) returns (ghost steps: seq<Step>)
      requires Valid() && |pcs| == |cells|
      requires forall i :: 0 <= i < |pcs| ==> pcs[i].Idle? || pcs[i].Done?
      modifies this`status, this`disk, this`diskStatus
      ensures Valid() && Run(cfg, old(At(Working, pcs)), steps) == Some(At(Down, pcs))
      ensures disk == Values() && diskStatus == if AllCompleted(disk) then MatrixCompleted else MatrixIncomplete
    {
      ghost var s1 := At(Working, pcs);
      var done := true;
      var i := 0;
      while i < |cells|
        invariant i <= |cells| && (done <==> forall j :: 0 <= j < i ==> cells[j].status == Completed)
      {
        done := done && cells[i].status == Completed;
        i := i + 1;
      }
      assert done <==> AllCompleted(Values());
      status := if done then MatrixCompleted else MatrixIncomplete;
      assert Next(cfg, s1, Finish) == Some(At(Finishing, pcs));
      ghost var s2 := At(Finishing, pcs);
      SaveManifest();
      assert Next(cfg, s2, SaveFinish) == Some(At(Down, pcs));
      RunTwo(cfg, s1, Finish, SaveFinish);
      steps := [Finish, SaveFinish];
    }

    /** The session up to its last worker. */
    method WorkThrough(limit: Option<nat>, execute: Executor, score: Scorer, ghost idle: seq<Pc>)
      returns (ghost steps: seq<Step>, ghost pcs: seq<Pc>)
      requires Valid() && Values() == disk && |idle| == |cells|
      modifies this`status, this`disk, this`diskStatus, this`traces, this`started, cells
      ensures Valid() && |pcs| == |cells|
      ensures forall i :: 0 <= i < |pcs| ==> pcs[i].Idle? || pcs[i].Done?
      ensures Run(cfg, old(At(Down, idle)), steps) == Some(At(Working, pcs))
      ensures Worked(execute, score, cfg.retries, Eligible(old(disk), limit), old(disk), Values())
    {
      ghost var s0 := At(Down, idle);
      var eligible := Eligible(Values(), limit);
      steps, pcs := OpenSession(eligible, idle);
      ghost var more;
      more, pcs := RunWorkers(eligible, execute, score, pcs);
      RunConcat(cfg, s0, steps, more);
      steps := steps + more;
    }

    /**
     One session over the loaded manifest, its workers one after another; other interleavings are other
     histories of the machine. The final status is saved, and says whether every cell completed.
     */
    method RunPending(limit: Option<nat>, execute: Executor, score: Scorer, ghost idle: seq<Pc>)
      returns (ghost steps: seq<Step>, ghost pcs: seq<Pc>)
      requires Valid() && Values() == disk && |idle| == |cells|
      modifies this`status, this`disk, this`diskStatus, this`traces, this`started, cells
      ensures Valid() && |pcs| == |cells|
      ensures Run(cfg, old(At(Down, idle)), steps) == Some(At(Down, pcs))
      ensures disk == Values() && diskStatus == if AllCompleted(disk) then MatrixCompleted else MatrixIncomplete
      ensures Worked(execute, score, cfg.retries, Eligible(old(disk), limit), old(disk), disk)
      ensures limit.None? && AllWillComplete(execute, score, cfg.retries, old(disk)) ==> diskStatus == MatrixCompleted
    {
      ghost var s0, loaded := At(Down, idle), disk;
      steps, pcs := WorkThrough(limit, execute, score, idle);
      EverythingCompletes(execute, score, cfg.retries, limit, loaded, Values());
      ghost var more := CloseSession(pcs);
      RunConcat(cfg, s0, steps, more);
      steps := steps + more;
    }
  }
}
