/**
 What the manifest says of the metrics it ingested. The scorers of a traced run commit their rows to the metric store
 before the manifest is saved, so a crash in between makes the next session score the run again: the store then counts
 every row as a duplicate. A world is the machine and the store beside it.
 */
module EvalIngestion {
  import opened Options
  import opened EvalCells
  import opened EvalMachine
  import opened EvalGuarantees
  import opened EvalReplay
  import opened MetricStore

  /** The rows the scorers leave for a run, whenever they are asked, by its id. */
  type Scorers = string -> seq<Metric>

  /** A step of the machine, or the scorers of a cell committing their rows. */
  datatype Event = Machine(step: Step) | Commit(cell: nat)

  /**
   `answers` holds what the store answered to a scoring that has not returned yet. `committed` is a history variable:
   the runs whose rows were committed, in order.
   */
  datatype World = World(s: State, store: Store, answers: seq<Option<Ingestion>>, committed: seq<string>)

  function Start(cfg: Config, store: Store): World {
    World(Init(cfg), store, NoAnswers(|cfg.bases|), [])
  }

  function NoAnswers(n: nat): (answers: seq<Option<Ingestion>>)
    ensures |answers| == n && forall i :: 0 <= i < n ==> answers[i] == None
  {
    seq(n, _ => None)
  }

  predicate Formed(cfg: Config, w: World) {
    Shape(cfg, w.s) && |w.answers| == |cfg.bases|
  }

  /** The cell's scorers are at work on a run that kept its trace. */
  predicate AtScorers(w: World, i: nat)
    requires |w.s.pcs| == |w.answers|
  {
    w.s.phase == Working && i < |w.s.pcs| && w.s.pcs[i].AboutToScore? && w.s.pcs[i].result.tracePath != ""
  }

  /**
   What a call and a scoring report: a run under the id it was started with, its own trace or none, and, of the
   metrics, their number and what the store answered, if it was asked.
   */
  predicate Reported(rows: Scorers, w: World, step: Step) {
    && ReportsOwnTrace(w.s, step)
    && (step.Work? && step.cell < |w.s.cells| == |w.s.pcs| == |w.answers| ==>
          match step.act
          case Return(r) => r.runId == w.s.cells[step.cell].runId
          case WriteTrace(r) => r.runId == w.s.cells[step.cell].runId
          case Score(q) =>
            w.s.pcs[step.cell].AboutToScore? ==>
              var r := w.s.pcs[step.cell].result;
              && q.metrics == |rows(r.runId)| && q.ingestion == w.answers[step.cell]
              && (r.tracePath != "" ==> q.ingestion.Some?)
          case _ => true)
  }

  /** A worker's step ends its scoring; a new session has none going on. */
  function AnswersAfter(w: World, step: Step): seq<Option<Ingestion>> {
    match step
    case Work(i, _) => if i < |w.answers| then w.answers[i := None] else w.answers
    case Begin(_) => NoAnswers(|w.answers|)
    case Crash => NoAnswers(|w.answers|)
    case _ => w.answers
  }

  function NextWorld(cfg: Config, rows: Scorers, w: World, e: Event): (r: Option<World>)
    requires Formed(cfg, w)
    ensures r.Some? ==> Formed(cfg, r.value)
  {
    match e
    case Machine(step) =>
      var next := Next(cfg, w.s, step);
      if next.Some? && Reported(rows, w, step) then
        Some(World(next.value, w.store, AnswersAfter(w, step), w.committed))
      else None
    case Commit(i) =>
      if AtScorers(w, i) && w.answers[i].None? then
        var run := w.s.pcs[i].result.runId;
        if Recordable(w.store, rows(run)) then
          Some(World(w.s, WithRows(w.store, rows(run)), w.answers[i := Some(Counts(w.store, rows(run)))],
                     w.committed + [run]))
        else None
      else None
  }

  function WorldAfter(cfg: Config, rows: Scorers, store: Store, events: seq<Event>): (r: Option<World>)
    ensures r.Some? ==> Formed(cfg, r.value)
  {
    if events == [] then Some(Start(cfg, store))
    else match WorldAfter(cfg, rows, store, events[..|events| - 1])
      case None => None
      case Some(w) => NextWorld(cfg, rows, w, events[|events| - 1])
  }

  /** The machine's part of the events. */
  function Steps(events: seq<Event>): seq<Step> {
    if events == [] then []
    else
      var front, last := Steps(events[..|events| - 1]), events[|events| - 1];
      if last.Machine? then front + [last.step] else front
  }

  /** A world's machine goes through a history, so what holds of all histories holds of it. */
  lemma {:induction false} WorldIsHistory(cfg: Config, rows: Scorers, store: Store, events: seq<Event>)
    requires WorldAfter(cfg, rows, store, events).Some?
    ensures History(cfg, Steps(events))
    ensures After(cfg, Steps(events)) == WorldAfter(cfg, rows, store, events).value.s
  {
    if events != [] {
      WorldIsHistory(cfg, rows, store, events[..|events| - 1]);
      if events[|events| - 1].Machine? {
        OneStepLonger(cfg, Steps(events[..|events| - 1]), events[|events| - 1].step);
      }
    }
  }

  lemma OneStepLonger(cfg: Config, steps: seq<Step>, step: Step)
    requires History(cfg, steps) && Next(cfg, After(cfg, steps), step).Some?
    ensures History(cfg, steps + [step])
    ensures After(cfg, steps + [step]) == Next(cfg, After(cfg, steps), step).value
  {
    assert (steps + [step])[..|steps + [step]| - 1] == steps;
  }

  // ------------------------------------------------------------------ run ids

  /** A cell goes by the id of its latest attempt, or of its first before there is any. */
  predicate OwnId(cfg: Config, i: nat, c: Cell)
    requires i < |cfg.bases|
  {
    c.runId == RunId(cfg.bases[i], if c.attempts == 0 then 1 else c.attempts)
  }

  predicate OwnRun(cfg: Config, i: nat, c: Cell, pc: Pc)
    requires i < |cfg.bases|
  {
    && OwnId(cfg, i, c)
    && (pc.SaveResult? || pc.AboutToScore? ==>
          pc.result.runId == c.runId && (c.traceDisabled <==> pc.result.tracePath == "") && c.status == Ran)
  }

  /** A finished trace holds the run it is named after. */
  ghost predicate TracesNamed(cfg: Config, traces: map<string, RunResult>) {
    forall i, k :: 0 <= i < |cfg.bases| && 1 <= k && AttemptPath(cfg, i, k) in traces ==>
      traces[AttemptPath(cfg, i, k)].runId == RunId(cfg.bases[i], k)
  }

  ghost predicate RunsNamed(cfg: Config, s: State) {
    && PathsKnown(cfg, s) && TracesNamed(cfg, s.traces)
    && (forall i :: 0 <= i < |cfg.bases| ==> OwnId(cfg, i, s.disk[i]) && OwnRun(cfg, i, s.cells[i], s.pcs[i]))
  }

  lemma StepNamed(cfg: Config, i: nat, c: Cell, pc: Pc, recovered: Option<RunResult>, act: Act)
    requires i < |cfg.bases| && OwnRun(cfg, i, c, pc) && CallPath(cfg, i, c, pc)
    requires recovered.Some? ==> recovered.value.runId == c.runId && recovered.value.tracePath == c.tracePath
    requires act.Return? ==> act.result.runId == c.runId
    requires WorkerStep(cfg, cfg.bases[i], c, pc, recovered, act).Some?
    ensures var l := WorkerStep(cfg, cfg.bases[i], c, pc, recovered, act).value;
            OwnRun(cfg, i, l.cell, l.pc)
  {
  }

  lemma TraceNamed(cfg: Config, traces: map<string, RunResult>, j: nat, n: nat, r: RunResult)
    requires ValidConfig(cfg) && TracesNamed(cfg, traces) && j < |cfg.bases|
    requires r.runId == RunId(cfg.bases[j], n)
    ensures TracesNamed(cfg, traces[AttemptPath(cfg, j, n) := r])
  {
    forall i, k | 0 <= i < |cfg.bases| && 1 <= k && AttemptPath(cfg, i, k) == AttemptPath(cfg, j, n)
      ensures i == j && k == n
    {
      AttemptPathInjective(cfg, i, k, j, n);
    }
  }

  lemma ApplyNamed(cfg: Config, s: State, j: nat, l: Local)
    requires ValidConfig(cfg) && RunsNamed(cfg, s) && j < |cfg.bases|
    requires CallPath(cfg, j, l.cell, l.pc) && PathKnown(cfg, j, l.cell) && OwnRun(cfg, j, l.cell, l.pc)
    requires l.effect.Trace? ==>
               l.cell.tracePath == AttemptPath(cfg, j, l.cell.attempts) && l.cell.attempts >= 1
               && l.effect.result.runId == l.cell.runId
    ensures RunsNamed(cfg, Apply(s, j, l))
  {
    ApplyPathsKnown(cfg, s, j, l);
    if l.effect.Trace? {
      TraceNamed(cfg, s.traces, j, l.cell.attempts, l.effect.result);
    }
  }

  lemma WorkNamed(cfg: Config, rows: Scorers, w: World, j: nat, act: Act)
    requires ValidConfig(cfg) && Formed(cfg, w) && RunsNamed(cfg, w.s)
    requires Next(cfg, w.s, Work(j, act)).Some? && Reported(rows, w, Work(j, act))
    ensures RunsNamed(cfg, Next(cfg, w.s, Work(j, act)).value)
  {
    var s := w.s;
    var c, pc := s.cells[j], s.pcs[j];
    assert PathKnown(cfg, j, c) && CallPath(cfg, j, c, pc) && OwnRun(cfg, j, c, pc);
    var recovered := ResultFromTrace(s.traces, c.tracePath);
    StepCallPath(cfg, j, c, pc, recovered, act);
    StepPathKnown(cfg, j, c, pc, recovered, act);
    StepNamed(cfg, j, c, pc, recovered, act);
    ApplyNamed(cfg, s, j, WorkerStep(cfg, cfg.bases[j], c, pc, recovered, act).value);
  }

  lemma NextNamed(cfg: Config, rows: Scorers, w: World, step: Step)
    requires ValidConfig(cfg) && Formed(cfg, w) && RunsNamed(cfg, w.s)
    requires Next(cfg, w.s, step).Some? && Reported(rows, w, step)
    ensures RunsNamed(cfg, Next(cfg, w.s, step).value)
  {
    if step.Work? {
      WorkNamed(cfg, rows, w, step.cell, step.act);
    } else {
      NextPathsKnown(cfg, w.s, step);
    }
  }

  // ------------------------------------------------------------------ the store and what it answered

  /** The rows of a run are rows for that run. */
  ghost predicate RowsOfRuns(rows: Scorers) {
    forall run, row: Metric :: row in rows(run) ==> row.runId == run
  }

  /** What the store answers for a run that is committed for the `n`-th time, when it started out as `before`. */
  function Receipt(rows: Scorers, before: Store, run: string, n: nat): Ingestion {
    if n == 1 then Counts(before, rows(run)) else Ingestion(|rows(run)|, 0, |rows(run)|)
  }

  function Times(committed: seq<string>, run: string): nat {
    multiset(committed)[run]
  }

  predicate HasRows(store: Store, rows: seq<Metric>) {
    Consistent(rows) && forall row <- rows :: row.key in store && store[row.key] == row
  }

  /** Nothing came in but rows of committed runs. */
  ghost predicate OnlyCommitted(rows: Scorers, before: Store, store: Store, committed: seq<string>) {
    forall key <- store :: key in before ||
      (store[key].key == key && store[key].runId in committed && store[key] in rows(store[key].runId))
  }

  /** The store has what it had, the rows of every committed run, and nothing else. */
  ghost predicate StoreInv(rows: Scorers, before: Store, store: Store, committed: seq<string>) {
    && (forall key <- before :: key in store && store[key] == before[key])
    && OnlyCommitted(rows, before, store, committed)
    && (forall run <- committed :: HasRows(store, rows(run)) && Fits(before, rows(run)))
  }

  lemma CommitAgain(store: Store, rows: seq<Metric>)
    requires HasRows(store, rows)
    ensures Counts(store, rows) == Ingestion(|rows|, 0, |rows|)
  {
    ByKeyHolds(rows);
    assert New(store, rows) == {};
  }

  lemma FirstCommit(rows: Scorers, before: Store, store: Store, committed: seq<string>, run: string)
    requires RowsOfRuns(rows) && OnlyCommitted(rows, before, store, committed) && run !in committed
    requires forall key <- before :: key in store && store[key] == before[key]
    requires Fits(store, rows(run))
    ensures Fits(before, rows(run)) && Counts(store, rows(run)) == Counts(before, rows(run))
  {
    SameNew(rows, before, store, committed, run);
  }

  lemma SameNew(rows: Scorers, before: Store, store: Store, committed: seq<string>, run: string)
    requires RowsOfRuns(rows) && OnlyCommitted(rows, before, store, committed) && run !in committed
    requires forall key <- before :: key in store
    requires Fits(store, rows(run))
    ensures New(store, rows(run)) == New(before, rows(run))
  {
    ByKeyHolds(rows(run));
    forall key | key in ByKey(rows(run)) && key in store
      ensures key in before
    {
      assert ByKey(rows(run))[key] in rows(run) && store[key].runId == run;
    }
  }

  /** A first commit answers what it would have answered at the start; a later one finds all its rows there. */
  lemma CommitAnswers(rows: Scorers, before: Store, store: Store, committed: seq<string>, run: string)
    requires RowsOfRuns(rows) && StoreInv(rows, before, store, committed) && Recordable(store, rows(run))
    ensures Fits(before, rows(run))
    ensures Counts(store, rows(run)) == Receipt(rows, before, run, Times(committed, run) + 1)
  {
    if run in committed {
      CommitAgain(store, rows(run));
    } else {
      FirstCommit(rows, before, store, committed, run);
    }
  }

  lemma CommitStores(rows: Scorers, before: Store, store: Store, committed: seq<string>, run: string)
    requires RowsOfRuns(rows) && StoreInv(rows, before, store, committed) && Recordable(store, rows(run))
    ensures StoreInv(rows, before, WithRows(store, rows(run)), committed + [run])
  {
    var after := WithRows(store, rows(run));
    KeepsRows(store, rows(run));
    ByKeyHolds(rows(run));
    CommitAnswers(rows, before, store, committed, run);
    forall r <- committed + [run]
      ensures HasRows(after, rows(r)) && Fits(before, rows(r))
    {
      assert r in committed || r == run;
    }
    forall key <- after
      ensures key in before || (after[key].key == key && after[key].runId in committed + [run]
                                && after[key] in rows(after[key].runId))
    {
      if key in ByKey(rows(run)) {
        assert after[key] == ByKey(rows(run))[key];
      } else {
        assert key in store && after[key] == store[key];
      }
    }
  }

  /** What a completed cell records of its ingestion. */
  ghost predicate Ingests(rows: Scorers, before: Store, committed: seq<string>, c: Cell) {
    c.status == Completed ==>
      if c.traceDisabled then c.ingestion == TraceDisabled(|rows(c.runId)|)
      else c.runId in committed
           && c.ingestion == Ingested(Receipt(rows, before, c.runId, Times(committed, c.runId)))
  }

  ghost predicate Answered(rows: Scorers, before: Store, w: World, i: nat)
    requires i < |w.s.pcs| == |w.answers|
  {
    w.answers[i].Some? ==>
      && AtScorers(w, i) && w.s.pcs[i].result.runId in w.committed
      && w.answers[i].value == Receipt(rows, before, w.s.pcs[i].result.runId,
                                       Times(w.committed, w.s.pcs[i].result.runId))
  }

  ghost predicate WorldInv(cfg: Config, rows: Scorers, before: Store, w: World) {
    && Formed(cfg, w) && Inv(cfg, w.s) && RunsNamed(cfg, w.s)
    && StoreInv(rows, before, w.store, w.committed)
    && (forall i :: 0 <= i < |cfg.bases| ==>
          && Ingests(rows, before, w.committed, w.s.disk[i]) && Ingests(rows, before, w.committed, w.s.cells[i])
          && Answered(rows, before, w, i))
  }

  /** A worker's own cell: only a scoring completes it, with what the store answered. */
  lemma StepIngests(cfg: Config, rows: Scorers, before: Store, w: World, j: nat, act: Act)
    requires WorldInv(cfg, rows, before, w) && j < |cfg.bases| && Reported(rows, w, Work(j, act))
    requires w.s.phase == Working
    requires WorkerStep(cfg, cfg.bases[j], w.s.cells[j], w.s.pcs[j],
                        ResultFromTrace(w.s.traces, w.s.cells[j].tracePath), act).Some?
    ensures Ingests(rows, before, w.committed,
                    WorkerStep(cfg, cfg.bases[j], w.s.cells[j], w.s.pcs[j],
                               ResultFromTrace(w.s.traces, w.s.cells[j].tracePath), act).value.cell)
  {
    assert CellInv(cfg, cfg.bases[j], w.s.disk[j], w.s.cells[j], w.s.pcs[j], w.s.started[j]);
    assert OwnRun(cfg, j, w.s.cells[j], w.s.pcs[j]) && Answered(rows, before, w, j);
    assert Ingests(rows, before, w.committed, w.s.cells[j]);
  }

  lemma WorkIngests(cfg: Config, rows: Scorers, before: Store, w: World, j: nat, act: Act)
    requires ValidConfig(cfg) && WorldInv(cfg, rows, before, w)
    requires NextWorld(cfg, rows, w, Machine(Work(j, act))).Some?
    ensures WorldInv(cfg, rows, before, NextWorld(cfg, rows, w, Machine(Work(j, act))).value)
  {
    NextInv(cfg, w.s, Work(j, act));
    NextNamed(cfg, rows, w, Work(j, act));
    StepIngests(cfg, rows, before, w, j, act);
    var l := WorkerStep(cfg, cfg.bases[j], w.s.cells[j], w.s.pcs[j],
                        ResultFromTrace(w.s.traces, w.s.cells[j].tracePath), act).value;
    ApplyIngests(cfg, rows, before, w, j, l);
  }

  lemma ApplyIngests(cfg: Config, rows: Scorers, before: Store, w: World, j: nat, l: Local)
    requires WorldInv(cfg, rows, before, w) && j < |cfg.bases| && Ingests(rows, before, w.committed, l.cell)
    ensures var t := Apply(w.s, j, l);
            var v := World(t, w.store, w.answers[j := None], w.committed);
            forall i :: 0 <= i < |cfg.bases| ==>
              && Ingests(rows, before, w.committed, t.disk[i]) && Ingests(rows, before, w.committed, t.cells[i])
              && Answered(rows, before, v, i)
  {
    var t := Apply(w.s, j, l);
    forall i | 0 <= i < |cfg.bases|
      ensures Ingests(rows, before, w.committed, t.disk[i]) && Ingests(rows, before, w.committed, t.cells[i])
    {
      assert Ingests(rows, before, w.committed, w.s.disk[i]) && Ingests(rows, before, w.committed, w.s.cells[i]);
    }
    ApplyAnswered(cfg, rows, before, w, j, l);
  }

  lemma ApplyAnswered(cfg: Config, rows: Scorers, before: Store, w: World, j: nat, l: Local)
    requires WorldInv(cfg, rows, before, w) && j < |cfg.bases|
    ensures var v := World(Apply(w.s, j, l), w.store, w.answers[j := None], w.committed);
            forall i :: 0 <= i < |cfg.bases| ==> Answered(rows, before, v, i)
  {
    var v := World(Apply(w.s, j, l), w.store, w.answers[j := None], w.committed);
    forall i | 0 <= i < |cfg.bases|
      ensures Answered(rows, before, v, i)
    {
      if i != j {
        SameScoring(rows, before, w, v, i);
      }
    }
  }

  lemma SameScoring(rows: Scorers, before: Store, w: World, v: World, i: nat)
    requires i < |w.s.pcs| == |w.answers| == |v.s.pcs| == |v.answers| && Answered(rows, before, w, i)
    requires v.answers[i] == w.answers[i] && v.s.pcs[i] == w.s.pcs[i] && v.s.phase == w.s.phase
    requires v.committed == w.committed
    ensures Answered(rows, before, v, i)
  {
  }

  lemma OtherIngests(cfg: Config, rows: Scorers, before: Store, w: World, step: Step)
    requires ValidConfig(cfg) && WorldInv(cfg, rows, before, w) && !step.Work?
    requires NextWorld(cfg, rows, w, Machine(step)).Some?
    ensures WorldInv(cfg, rows, before, NextWorld(cfg, rows, w, Machine(step)).value)
  {
    var v := NextWorld(cfg, rows, w, Machine(step)).value;
    NextInv(cfg, w.s, step);
    NextNamed(cfg, rows, w, step);
    forall i | 0 <= i < |cfg.bases|
      ensures Ingests(rows, before, v.committed, v.s.disk[i]) && Ingests(rows, before, v.committed, v.s.cells[i])
      ensures Answered(rows, before, v, i)
    {
      assert Ingests(rows, before, w.committed, w.s.disk[i]) && Ingests(rows, before, w.committed, w.s.cells[i]);
      assert Answered(rows, before, w, i);
    }
  }

  lemma CommitIngests(cfg: Config, rows: Scorers, before: Store, w: World, j: nat)
    requires ValidConfig(cfg) && RowsOfRuns(rows) && WorldInv(cfg, rows, before, w)
    requires NextWorld(cfg, rows, w, Commit(j)).Some?
    ensures WorldInv(cfg, rows, before, NextWorld(cfg, rows, w, Commit(j)).value)
  {
    var v := NextWorld(cfg, rows, w, Commit(j)).value;
    var run := w.s.pcs[j].result.runId;
    CommitAnswers(rows, before, w.store, w.committed, run);
    CommitStores(rows, before, w.store, w.committed, run);
    forall i | 0 <= i < |cfg.bases|
      ensures Ingests(rows, before, v.committed, v.s.disk[i]) && Ingests(rows, before, v.committed, v.s.cells[i])
      ensures Answered(rows, before, v, i)
    {
      OwnCommit(cfg, w.s, j, i);
      StillIngests(rows, before, w.committed, w.s.disk[i], run);
      StillIngests(rows, before, w.committed, w.s.cells[i], run);
      if i != j {
        StillAnswered(rows, before, w, v, i, run);
      }
    }
  }

  lemma StillIngests(rows: Scorers, before: Store, committed: seq<string>, c: Cell, run: string)
    requires Ingests(rows, before, committed, c) && (c.status == Completed ==> c.runId != run)
    ensures Ingests(rows, before, committed + [run], c)
  {
  }

  lemma StillAnswered(rows: Scorers, before: Store, w: World, v: World, i: nat, run: string)
    requires i < |w.s.pcs| == |w.answers| == |v.answers| && v.s == w.s && v.answers[i] == w.answers[i]
    requires Answered(rows, before, w, i) && v.committed == w.committed + [run]
    requires w.s.pcs[i].AboutToScore? ==> w.s.pcs[i].result.runId != run
    ensures Answered(rows, before, v, i)
  {
  }

  /** No other cell, and no completed one, goes by the id of a run that is being scored. */
  lemma OwnCommit(cfg: Config, s: State, j: nat, i: nat)
    requires ValidConfig(cfg) && Inv(cfg, s) && RunsNamed(cfg, s)
    requires i < |cfg.bases| && j < |cfg.bases| && s.pcs[j].AboutToScore?
    ensures s.cells[i].status == Completed ==> s.cells[i].runId != s.pcs[j].result.runId
    ensures s.disk[i].status == Completed ==> s.disk[i].runId != s.pcs[j].result.runId
    ensures i != j && s.pcs[i].AboutToScore? ==> s.pcs[i].result.runId != s.pcs[j].result.runId
  {
    assert CellInv(cfg, cfg.bases[j], s.disk[j], s.cells[j], s.pcs[j], s.started[j]);
    assert OwnRun(cfg, j, s.cells[j], s.pcs[j]) && OwnRun(cfg, i, s.cells[i], s.pcs[i]) && OwnId(cfg, i, s.disk[i]);
    if i != j {
      DifferentIds(cfg, i, s.cells[i], j, s.cells[j]);
      DifferentIds(cfg, i, s.disk[i], j, s.cells[j]);
    }
  }

  lemma DifferentIds(cfg: Config, i: nat, c: Cell, j: nat, d: Cell)
    requires ValidConfig(cfg) && i < |cfg.bases| && j < |cfg.bases| && i != j
    requires OwnId(cfg, i, c) && OwnId(cfg, j, d)
    ensures c.runId != d.runId
  {
    if c.runId == d.runId {
      RunIdInjective(cfg.bases[i], if c.attempts == 0 then 1 else c.attempts,
                     cfg.bases[j], if d.attempts == 0 then 1 else d.attempts);
    }
  }

  lemma StartInv(cfg: Config, rows: Scorers, before: Store)
    ensures WorldInv(cfg, rows, before, Start(cfg, before))
  {
    InitInv(cfg);
  }

  lemma {:induction false} WorldHolds(cfg: Config, rows: Scorers, before: Store, events: seq<Event>)
    requires ValidConfig(cfg) && RowsOfRuns(rows) && WorldAfter(cfg, rows, before, events).Some?
    ensures WorldInv(cfg, rows, before, WorldAfter(cfg, rows, before, events).value)
  {
    if events == [] {
      StartInv(cfg, rows, before);
    } else {
      var front, last := events[..|events| - 1], events[|events| - 1];
      WorldHolds(cfg, rows, before, front);
      var w := WorldAfter(cfg, rows, before, front).value;
      match last
      case Machine(step) =>
        if step.Work? {
          WorkIngests(cfg, rows, before, w, step.cell, step.act);
        } else {
          OtherIngests(cfg, rows, before, w, step);
        }
      case Commit(i) => CommitIngests(cfg, rows, before, w, i);
    }
  }

  // ------------------------------------------------------------------ what the manifest says in the end

  /** What a cell would record had its run been scored once, with nothing in between. */
  function Undisturbed(rows: Scorers, before: Store, c: Cell): MetricIngestion {
    if c.traceDisabled then TraceDisabled(|rows(c.runId)|) else Ingested(Counts(before, rows(c.runId)))
  }

  /**
   A completed cell records the counts of an undisturbed scoring exactly when its run was committed once, or had no
   trace to commit for, or none of its rows were new to begin with. A run committed again, because a crash came
   between a commit and the save, records every row as a duplicate.
   */
  lemma {:induction false} IngestionExactlyWhenCommittedOnce(
      cfg: Config, rows: Scorers, before: Store, events: seq<Event>, i: nat)
    requires ValidConfig(cfg) && RowsOfRuns(rows) && WorldAfter(cfg, rows, before, events).Some? && i < |cfg.bases|
    requires WorldAfter(cfg, rows, before, events).value.s.disk[i].status == Completed
    ensures var w := WorldAfter(cfg, rows, before, events).value;
            var c := w.s.disk[i];
            && (c.ingestion == Undisturbed(rows, before, c) <==>
                  c.traceDisabled || Times(w.committed, c.runId) == 1 || New(before, rows(c.runId)) == {})
            && (!c.traceDisabled ==> Times(w.committed, c.runId) >= 1)
            && (!c.traceDisabled && Times(w.committed, c.runId) > 1 ==>
                  c.ingestion == Ingested(Ingestion(|rows(c.runId)|, 0, |rows(c.runId)|)))
  {
    WorldHolds(cfg, rows, before, events);
    var w := WorldAfter(cfg, rows, before, events).value;
    var c := w.s.disk[i];
    assert Ingests(rows, before, w.committed, c);
    assert |New(before, rows(c.runId))| == 0 <==> New(before, rows(c.runId)) == {};
  }

  /** Whatever crashed, the rows of a completed cell's run are in the store, unless the run had no trace. */
  lemma {:induction false} CompletedMetricsAreStored(
      cfg: Config, rows: Scorers, before: Store, events: seq<Event>, i: nat)
    requires ValidConfig(cfg) && RowsOfRuns(rows) && WorldAfter(cfg, rows, before, events).Some? && i < |cfg.bases|
    requires WorldAfter(cfg, rows, before, events).value.s.disk[i].status == Completed
    requires !WorldAfter(cfg, rows, before, events).value.s.disk[i].traceDisabled
    ensures var w := WorldAfter(cfg, rows, before, events).value;
            HasRows(w.store, rows(w.s.disk[i].runId))
  {
    WorldHolds(cfg, rows, before, events);
    var w := WorldAfter(cfg, rows, before, events).value;
    assert Ingests(rows, before, w.committed, w.s.disk[i]);
  }

  /** The store itself does not depend on crashes: the same runs committed, however often, leave the same rows. */
  lemma {:induction false} StoreDependsOnRunsAlone(
      cfg: Config, rows: Scorers, before: Store, events: seq<Event>, others: seq<Event>)
    requires ValidConfig(cfg) && RowsOfRuns(rows)
    requires WorldAfter(cfg, rows, before, events).Some? && WorldAfter(cfg, rows, before, others).Some?
    requires var v, w := WorldAfter(cfg, rows, before, events).value, WorldAfter(cfg, rows, before, others).value;
             forall run :: run in v.committed <==> run in w.committed
    ensures WorldAfter(cfg, rows, before, events).value.store == WorldAfter(cfg, rows, before, others).value.store
  {
    WorldHolds(cfg, rows, before, events);
    WorldHolds(cfg, rows, before, others);
    var v, w := WorldAfter(cfg, rows, before, events).value, WorldAfter(cfg, rows, before, others).value;
    StoredInBoth(rows, before, v.store, v.committed, w.store, w.committed);
    StoredInBoth(rows, before, w.store, w.committed, v.store, v.committed);
  }

  lemma StoredInBoth(rows: Scorers, before: Store, x: Store, first: seq<string>, y: Store, second: seq<string>)
    requires StoreInv(rows, before, x, first) && StoreInv(rows, before, y, second)
    requires forall run :: run in first ==> run in second
    ensures forall key <- x :: key in y && y[key] == x[key]
  {
    forall key <- x
      ensures key in y && y[key] == x[key]
    {
      if key !in before {
        assert HasRows(y, rows(x[key].runId));
      }
    }
  }
}
