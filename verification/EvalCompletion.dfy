/**
 When a session completes the matrix, for every schedule of its workers: the pool may take their steps in any order, as
 long as no worker is killed, no scorer raises, and no cell raises as often as it has attempts left.
 */
module EvalCompletion {
  import opened Options
  import opened EvalCells
  import opened EvalMachine

  /** One more when a call of cell `i` raises. */
  function SpentAfter(spent: nat, step: Step, i: nat): nat {
    spent + (if step.Work? && step.cell == i && step.act.Raise? then 1 else 0)
  }

  /** How often a call of cell `i` raised. */
  function RaisesOf(steps: seq<Step>, i: nat): nat {
    if steps == [] then 0
    else SpentAfter(RaisesOf(steps[..|steps| - 1], i), steps[|steps| - 1], i)
  }

  predicate Harms(step: Step, i: nat) {
    step.Work? && step.cell == i && (step.act.Die? || step.act.ScoreRaise?)
  }

  /** Only workers move, cell `i`'s is not harmed, and its raises leave it an attempt. */
  predicate Spared(cfg: Config, attempts: nat, steps: seq<Step>, i: nat) {
    && (forall k :: 0 <= k < |steps| ==> steps[k].Work? && !Harms(steps[k], i))
    && attempts + RaisesOf(steps, i) <= cfg.retries
  }

  /** A worker on its way: `spent` bounds the attempts that are used up, and the only way out is a completed cell. */
  predicate OnTheWay(spent: nat, m: Cell, pc: Pc) {
    match pc
    case Entry => m.attempts <= spent
    case SaveMissing => m.attempts <= spent
    case Loop => m.attempts <= spent
    case SaveFailed => m.attempts <= spent
    case SaveBegun => m.attempts <= spent + 1
    case Launch => m.attempts <= spent + 1
    case Executing => m.attempts <= spent + 1
    case SaveResult(_) => true
    case AboutToScore(_) => true
    case SaveScored => m.status == Completed
    case Done => m.status == Completed
    case _ => false
  }

  lemma StepOnTheWay(cfg: Config, base: string, spent: nat, m: Cell, pc: Pc, recovered: Option<RunResult>, act: Act)
    requires OnTheWay(spent, m, pc) && spent <= cfg.retries && !act.Die? && !act.ScoreRaise?
    requires WorkerStep(cfg, base, m, pc, recovered, act).Some?
    ensures var l := WorkerStep(cfg, base, m, pc, recovered, act).value;
            OnTheWay(if act.Raise? then spent + 1 else spent, l.cell, l.pc)
  {
  }

  /** A worker's step is its own cell's; nobody else moves. */
  lemma WorkFrame(cfg: Config, t: State, j: nat, act: Act, i: nat)
    requires Shape(cfg, t) && t.phase == Working && Next(cfg, t, Work(j, act)).Some? && i < |cfg.bases|
    ensures var v := Next(cfg, t, Work(j, act)).value;
            var l := WorkerStep(cfg, cfg.bases[j], t.cells[j], t.pcs[j],
                                ResultFromTrace(t.traces, t.cells[j].tracePath), act);
            && v.phase == Working && l.Some?
            && v.cells[i] == (if i == j then l.value.cell else t.cells[i])
            && v.pcs[i] == (if i == j then l.value.pc else t.pcs[i])
  {
  }

  lemma NextOnTheWay(cfg: Config, t: State, step: Step, i: nat, spent: nat)
    requires Shape(cfg, t) && i < |cfg.bases| && OnTheWay(spent, t.cells[i], t.pcs[i]) && spent <= cfg.retries
    requires t.phase == Working && step.Work? && !Harms(step, i) && Next(cfg, t, step).Some?
    ensures var v := Next(cfg, t, step).value;
            v.phase == Working && OnTheWay(SpentAfter(spent, step, i), v.cells[i], v.pcs[i])
  {
    WorkFrame(cfg, t, step.cell, step.act, i);
    if step.cell == i {
      StepOnTheWay(cfg, cfg.bases[i], spent, t.cells[i], t.pcs[i], ResultFromTrace(t.traces, t.cells[i].tracePath),
                   step.act);
    }
  }

  /** From its entry on, whatever the other workers do in between. */
  lemma {:induction false} StaysOnTheWay(cfg: Config, u: State, steps: seq<Step>, i: nat)
    requires Shape(cfg, u) && u.phase == Working && i < |cfg.bases| && u.pcs[i] == Entry
    requires Spared(cfg, u.cells[i].attempts, steps, i) && Run(cfg, u, steps).Some?
    ensures var t := Run(cfg, u, steps).value;
            t.phase == Working && OnTheWay(u.cells[i].attempts + RaisesOf(steps, i), t.cells[i], t.pcs[i])
  {
    if steps != [] {
      var front, last := steps[..|steps| - 1], steps[|steps| - 1];
      assert forall k :: 0 <= k < |front| ==> front[k] == steps[k];
      StaysOnTheWay(cfg, u, front, i);
      NextOnTheWay(cfg, Run(cfg, u, front).value, last, i, u.cells[i].attempts + RaisesOf(front, i));
    }
  }

  /** A cell that was not scheduled is not touched. */
  lemma {:induction false} StaysIdle(cfg: Config, u: State, steps: seq<Step>, i: nat)
    requires Shape(cfg, u) && u.phase == Working && i < |cfg.bases| && u.pcs[i] == Idle
    requires (forall k :: 0 <= k < |steps| ==> steps[k].Work?) && Run(cfg, u, steps).Some?
    ensures var t := Run(cfg, u, steps).value;
            t.phase == Working && t.cells[i] == u.cells[i] && t.pcs[i] == Idle
  {
    if steps != [] {
      var front := steps[..|steps| - 1];
      assert forall k :: 0 <= k < |front| ==> front[k] == steps[k];
      StaysIdle(cfg, u, front, i);
      WorkFrame(cfg, Run(cfg, u, front).value, steps[|steps| - 1].cell, steps[|steps| - 1].act, i);
    }
  }

  /** A whole session of workers, from the loaded manifest to the final save. */
  function Session(scheduled: set<nat>, steps: seq<Step>): seq<Step> {
    [Begin(scheduled), SaveStart] + steps + [Finish, SaveFinish]
  }

  lemma {:induction false} OneThenOther(cfg: Config, s: State, first: Step, second: Step)
    requires Shape(cfg, s) && Run(cfg, s, [first, second]).Some?
    ensures Next(cfg, s, first).Some?
    ensures Run(cfg, s, [first, second]) == Next(cfg, Next(cfg, s, first).value, second)
  {
    var both := [first, second];
    assert both[..1] == [first] && [first][..0] == [];
    assert Run(cfg, s, []) == Some(s);
    assert Run(cfg, s, [first]) == Next(cfg, s, first);
  }

  /** The state in which the workers of a session start. */
  lemma {:induction false} SessionStarts(cfg: Config, s: State, scheduled: set<nat>)
    requires Shape(cfg, s) && Run(cfg, s, [Begin(scheduled), SaveStart]).Some?
    ensures var u := Run(cfg, s, [Begin(scheduled), SaveStart]).value;
            && u.phase == Working && u.cells == s.disk
            && (forall i :: 0 <= i < |cfg.bases| ==> u.pcs[i] == if i in scheduled then Entry else Idle)
            && (forall i <- scheduled :: i < |cfg.bases| && s.disk[i].status != Completed)
  {
    OneThenOther(cfg, s, Begin(scheduled), SaveStart);
  }

  /** What the manifest says once they are done. */
  lemma {:induction false} SessionEnds(cfg: Config, t: State)
    requires Shape(cfg, t) && Run(cfg, t, [Finish, SaveFinish]).Some?
    ensures forall i :: 0 <= i < |cfg.bases| ==> t.pcs[i].Idle? || t.pcs[i].Done?
    ensures var v := Run(cfg, t, [Finish, SaveFinish]).value;
            v.disk == t.cells && v.diskStatus == if AllCompleted(t.cells) then MatrixCompleted else MatrixIncomplete
  {
    OneThenOther(cfg, t, Finish, SaveFinish);
  }

  /** The states in which its workers start and in which they are done. */
  lemma SessionParts(cfg: Config, s: State, scheduled: set<nat>, steps: seq<Step>) returns (u: State, t: State)
    requires Shape(cfg, s) && Run(cfg, s, Session(scheduled, steps)).Some?
    ensures Run(cfg, s, [Begin(scheduled), SaveStart]) == Some(u) && Shape(cfg, u)
    ensures Run(cfg, u, steps) == Some(t) && Shape(cfg, t)
    ensures Run(cfg, t, [Finish, SaveFinish]) == Run(cfg, s, Session(scheduled, steps))
  {
    var first, last := [Begin(scheduled), SaveStart], [Finish, SaveFinish];
    RunConcat(cfg, s, first + steps, last);
    RunConcat(cfg, s, first, steps);
    u := Run(cfg, s, first).value;
    t := Run(cfg, u, steps).value;
  }

  /** Under every schedule a scheduled cell completes when its own worker is spared. */
  lemma {:induction false} ScheduledCellCompletes(cfg: Config, s: State, scheduled: set<nat>, steps: seq<Step>, i: nat)
    requires Shape(cfg, s) && Run(cfg, s, Session(scheduled, steps)).Some?
    requires i in scheduled && i < |cfg.bases| && Spared(cfg, s.disk[i].attempts, steps, i)
    ensures Run(cfg, s, Session(scheduled, steps)).value.disk[i].status == Completed
  {
    var u, t := SessionParts(cfg, s, scheduled, steps);
    SessionStarts(cfg, s, scheduled);
    SessionEnds(cfg, t);
    StaysOnTheWay(cfg, u, steps, i);
  }

  /** So the manifest is saved as completed when all unfinished cells were scheduled and every worker was spared. */
  lemma {:induction false} EveryScheduleCompletes(cfg: Config, s: State, scheduled: set<nat>, steps: seq<Step>)
    requires Shape(cfg, s) && Run(cfg, s, Session(scheduled, steps)).Some?
    requires forall k :: 0 <= k < |steps| ==> steps[k].Work?
    requires forall i :: 0 <= i < |cfg.bases| ==>
               s.disk[i].status == Completed || (i in scheduled && Spared(cfg, s.disk[i].attempts, steps, i))
    ensures Run(cfg, s, Session(scheduled, steps)).value.diskStatus == MatrixCompleted
  {
    var u, t := SessionParts(cfg, s, scheduled, steps);
    SessionStarts(cfg, s, scheduled);
    SessionEnds(cfg, t);
    forall i | 0 <= i < |cfg.bases|
      ensures t.cells[i].status == Completed
    {
      if i in scheduled {
        StaysOnTheWay(cfg, u, steps, i);
      } else {
        StaysIdle(cfg, u, steps, i);
      }
    }
  }
}
