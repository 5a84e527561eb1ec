/** A history in which a crash shows in the manifest: it comes between the commit of the metrics and the save. */
module EvalRescoring {
  import opened Options
  import opened EvalCells
  import opened EvalMachine
  import opened EvalGuarantees
  import opened MetricStore
  import opened EvalIngestion

  /** Where the only cell, its saved form and its worker are. */
  predicate At(w: World, phase: Phase, m: Cell, d: Cell, pc: Pc) {
    && w.s.phase == phase && w.s.cells == [m] && w.s.disk == [d] && w.s.pcs == [pc]
    && |w.s.started| == |w.answers| == 1
  }

  /** The attempts started, the finished traces, the answer to a scoring, and the store are as they were. */
  predicate Kept(v: World, w: World) {
    v.s.started == w.s.started && v.s.traces == w.s.traces && v.store == w.store && v.committed == w.committed
  }

  ghost predicate Leads(cfg: Config, rows: Scorers, before: Store, events: seq<Event>, w: World) {
    WorldAfter(cfg, rows, before, events) == Some(w)
  }

  lemma Extend(cfg: Config, rows: Scorers, before: Store, events: seq<Event>, w: World, e: Event, v: World)
    requires |cfg.bases| == 1
    requires Leads(cfg, rows, before, events, w) && Formed(cfg, w) && NextWorld(cfg, rows, w, e) == Some(v)
    ensures Leads(cfg, rows, before, events + [e], v)
  {
    assert (events + [e])[..|events + [e]| - 1] == events;
  }

  /** One step of the only worker. */
  lemma Go(cfg: Config, rows: Scorers, before: Store, events: seq<Event>, w: World, m: Cell, d: Cell, pc: Pc,
           act: Act, l: Local)
    returns (more: seq<Event>, v: World)
    requires |cfg.bases| == 1
    requires Leads(cfg, rows, before, events, w) && At(w, Working, m, d, pc)
    requires WorkerStep(cfg, cfg.bases[0], m, pc, ResultFromTrace(w.s.traces, m.tracePath), act) == Some(l)
    requires Reported(rows, w, Work(0, act))
    ensures Leads(cfg, rows, before, more, v) && v.answers == [None]
    ensures At(v, Working, l.cell, if l.effect.Save? then l.cell else d, l.pc)
    ensures v.store == w.store && v.committed == w.committed
    ensures v.s.traces == if l.effect.Trace? then w.s.traces[l.cell.tracePath := l.effect.result] else w.s.traces
    ensures v.s.started[0] == if l.effect.Call? then w.s.started[0] + [l.cell.attempts] else w.s.started[0]
  {
    more := events + [Machine(Work(0, act))];
    v := World(Apply(w.s, 0, l), w.store, w.answers[0 := None], w.committed);
    assert NextWorld(cfg, rows, w, Machine(Work(0, act))) == Some(v);
    Extend(cfg, rows, before, events, w, Machine(Work(0, act)), v);
    assert v.s.cells == [l.cell] && v.s.pcs == [l.pc];
  }

  /** A session opens on the saved cell. */
  lemma Open(cfg: Config, rows: Scorers, before: Store, events: seq<Event>, w: World, m: Cell, d: Cell, pc: Pc)
    returns (more: seq<Event>, v: World)
    requires |cfg.bases| == 1
    requires Leads(cfg, rows, before, events, w) && At(w, Down, m, d, pc) && d.status != Completed
    ensures Leads(cfg, rows, before, more, v) && At(v, Working, d, d, Entry) && v.answers == [None] && Kept(v, w)
  {
    var chosen: set<nat> := {0};
    var pcs := seq(1, i => if i in chosen then Entry else Idle);
    assert pcs == [Entry];
    var u := World(w.s.(phase := Starting, cells := w.s.disk, status := MatrixRunning, pcs := pcs),
                   w.store, [None], w.committed);
    assert NoAnswers(1) == [None];
    assert NextWorld(cfg, rows, w, Machine(Begin(chosen))) == Some(u);
    Extend(cfg, rows, before, events, w, Machine(Begin(chosen)), u);
    v := u.(s := Saved(u.s).(phase := Working));
    assert NextWorld(cfg, rows, u, Machine(SaveStart)) == Some(v);
    more := events + [Machine(Begin(chosen))] + [Machine(SaveStart)];
    Extend(cfg, rows, before, events + [Machine(Begin(chosen))], u, Machine(SaveStart), v);
  }

  /** The scorers commit the rows of the run. */
  lemma CommitRows(cfg: Config, rows: Scorers, before: Store, events: seq<Event>, w: World, m: Cell, d: Cell,
                   r: RunResult)
    returns (more: seq<Event>, v: World)
    requires |cfg.bases| == 1
    requires Leads(cfg, rows, before, events, w) && At(w, Working, m, d, AboutToScore(r)) && w.answers == [None]
    requires r.tracePath != "" && Recordable(w.store, rows(r.runId))
    ensures Leads(cfg, rows, before, more, v) && At(v, Working, m, d, AboutToScore(r)) && v.s == w.s
    ensures v.answers == [Some(Counts(w.store, rows(r.runId)))] && v.store == WithRows(w.store, rows(r.runId))
  {
    v := World(w.s, WithRows(w.store, rows(r.runId)), w.answers[0 := Some(Counts(w.store, rows(r.runId)))],
               w.committed + [r.runId]);
    assert NextWorld(cfg, rows, w, Commit(0)) == Some(v);
    more := events + [Commit(0)];
    Extend(cfg, rows, before, events, w, Commit(0), v);
  }

  lemma Die(cfg: Config, rows: Scorers, before: Store, events: seq<Event>, w: World, m: Cell, d: Cell, pc: Pc)
    returns (more: seq<Event>, v: World)
    requires |cfg.bases| == 1
    requires Leads(cfg, rows, before, events, w) && At(w, Working, m, d, pc)
    ensures Leads(cfg, rows, before, more, v) && At(v, Down, d, d, Idle) && Kept(v, w)
  {
    assert seq(1, _ => Idle) == [Idle] && NoAnswers(1) == [None];
    v := World(w.s.(phase := Down, cells := w.s.disk, pcs := [Idle]), w.store, [None], w.committed);
    assert NextWorld(cfg, rows, w, Machine(Crash)) == Some(v);
    more := events + [Machine(Crash)];
    Extend(cfg, rows, before, events, w, Machine(Crash), v);
  }

  /** The cell once its first attempt is named. */
  function First(cfg: Config): Cell
    requires |cfg.bases| == 1
  {
    Begun(FreshCell(cfg.bases[0]), cfg.bases[0], cfg.root)
  }

  /** The cell once its first attempt has returned `r`. */
  function Executed(cfg: Config, r: RunResult): Cell
    requires |cfg.bases| == 1
  {
    WithResult(First(cfg), r)
  }

  /** `r` is reported for the first attempt, under its trace. */
  predicate FirstRun(cfg: Config, r: RunResult)
    requires |cfg.bases| == 1
  {
    r.runId == First(cfg).runId && r.tracePath == First(cfg).tracePath
  }

  /** A first session at the top of the retry loop. */
  lemma Opened(cfg: Config, rows: Scorers, before: Store) returns (events: seq<Event>, w: World)
    requires |cfg.bases| == 1
    ensures Leads(cfg, rows, before, events, w) && w.answers == [None]
    ensures At(w, Working, FreshCell(cfg.bases[0]), FreshCell(cfg.bases[0]), Loop)
    ensures w.s.started[0] == [] && w.s.traces == map[] && w.store == before
  {
    var c := FreshCell(cfg.bases[0]);
    events, w := [], Start(cfg, before);
    assert w.s.cells == [c] && w.s.disk == [c] && w.s.pcs == [Idle] && w.s.started[0] == [];
    events, w := Open(cfg, rows, before, events, w, c, c, Idle);
    events, w := Go(cfg, rows, before, events, w, c, c, Entry, Advance, Local(c, Loop, Quiet));
  }

  /** The same session, its first attempt named in memory. */
  lemma Named(cfg: Config, rows: Scorers, before: Store) returns (events: seq<Event>, w: World)
    requires |cfg.bases| == 1
    ensures Leads(cfg, rows, before, events, w) && w.answers == [None]
    ensures At(w, Working, First(cfg), FreshCell(cfg.bases[0]), SaveBegun)
    ensures w.s.started[0] == [] && w.s.traces == map[] && w.store == before
  {
    var c := FreshCell(cfg.bases[0]);
    events, w := Opened(cfg, rows, before);
    events, w := Go(cfg, rows, before, events, w, c, c, Loop, Advance, Local(First(cfg), SaveBegun, Quiet));
  }

  /** The same session, about to call. */
  lemma Admitted(cfg: Config, rows: Scorers, before: Store) returns (events: seq<Event>, w: World)
    requires |cfg.bases| == 1
    ensures Leads(cfg, rows, before, events, w) && w.answers == [None]
    ensures var c := First(cfg); At(w, Working, c, c, Launch)
    ensures w.s.started[0] == [] && w.s.traces == map[] && w.store == before
  {
    var c := First(cfg);
    events, w := Named(cfg, rows, before);
    events, w := Go(cfg, rows, before, events, w, c, FreshCell(cfg.bases[0]), SaveBegun, Advance,
                    Local(c, Launch, Save));
  }

  /** The same session, in the call. */
  lemma Launched(cfg: Config, rows: Scorers, before: Store) returns (events: seq<Event>, w: World)
    requires |cfg.bases| == 1
    ensures Leads(cfg, rows, before, events, w) && w.answers == [None]
    ensures var c := First(cfg); At(w, Working, c, c, Executing)
    ensures w.s.started[0] == [1] && w.s.traces == map[] && w.store == before
  {
    var c := First(cfg);
    events, w := Admitted(cfg, rows, before);
    assert w.s.started[0] + [1] == [1];
    events, w := Go(cfg, rows, before, events, w, c, c, Launch, Advance, Local(c, Executing, Call));
  }

  /** The same session, about to score what the call returned. */
  lemma Returned(cfg: Config, rows: Scorers, before: Store, r: RunResult) returns (events: seq<Event>, w: World)
    requires |cfg.bases| == 1
    requires FirstRun(cfg, r)
    ensures Leads(cfg, rows, before, events, w) && w.answers == [None]
    ensures At(w, Working, Executed(cfg, r), Executed(cfg, r), AboutToScore(r))
    ensures w.s.started[0] == [1] && w.s.traces == map[r.tracePath := r] && w.store == before
  {
    var c := First(cfg);
    events, w := Launched(cfg, rows, before);
    events, w := Go(cfg, rows, before, events, w, c, c, Executing, WriteTrace(r), Local(c, Executing, Trace(r)));
    events, w := Go(cfg, rows, before, events, w, c, c, Executing, Return(r),
                    Local(Executed(cfg, r), SaveResult(r), Quiet));
    events, w := Go(cfg, rows, before, events, w, Executed(cfg, r), c, SaveResult(r), Advance,
                    Local(Executed(cfg, r), AboutToScore(r), Save));
  }

  /** A second session finds the trace, and is about to score the same run. */
  lemma Recovered(cfg: Config, rows: Scorers, before: Store, r: RunResult) returns (events: seq<Event>, w: World)
    requires |cfg.bases| == 1
    requires FirstRun(cfg, r) && Recordable(before, rows(r.runId))
    ensures Leads(cfg, rows, before, events, w) && w.answers == [None]
    ensures var c := WithResult(Executed(cfg, r), r); At(w, Working, c, c, AboutToScore(r))
    ensures w.s.started[0] == [1] && w.store == WithRows(before, rows(r.runId))
  {
    var c := Executed(cfg, r);
    events, w := Returned(cfg, rows, before, r);
    events, w := CommitRows(cfg, rows, before, events, w, c, c, r);
    events, w := Die(cfg, rows, before, events, w, c, c, AboutToScore(r));
    events, w := Open(cfg, rows, before, events, w, c, c, Idle);
    assert ResultFromTrace(w.s.traces, c.tracePath) == Some(r);
    events, w := Go(cfg, rows, before, events, w, c, c, Entry, Advance,
                    Local(WithResult(c, r), SaveResult(r), Quiet));
    events, w := Go(cfg, rows, before, events, w, WithResult(c, r), c, SaveResult(r), Advance,
                    Local(WithResult(c, r), AboutToScore(r), Save));
  }

  lemma CommittedAgain(cfg: Config, rows: Scorers, before: Store, r: RunResult) returns (events: seq<Event>, w: World)
    requires |cfg.bases| == 1
    requires FirstRun(cfg, r) && Recordable(before, rows(r.runId))
    ensures Leads(cfg, rows, before, events, w) && w.s.started[0] == [1] && w.store == WithRows(before, rows(r.runId))
    ensures w.answers == [Some(Ingestion(|rows(r.runId)|, 0, |rows(r.runId)|))]
    ensures var c := WithResult(Executed(cfg, r), r); At(w, Working, c, c, AboutToScore(r))
  {
    var c := WithResult(Executed(cfg, r), r);
    events, w := Recovered(cfg, rows, before, r);
    RecordedAgain(before, rows(r.runId));
    events, w := CommitRows(cfg, rows, before, events, w, c, c, r);
  }

  /** The cell in the end: its run scored again, every row a duplicate. */
  function Rescored(cfg: Config, rows: Scorers, r: RunResult, status: string): Cell
    requires |cfg.bases| == 1
  {
    var n := |rows(r.runId)|;
    WithScoring(WithResult(Executed(cfg, r), r), Scoring(status, n, Some(Ingestion(n, 0, n))))
  }

  lemma ScoredAgain(cfg: Config, rows: Scorers, before: Store, r: RunResult, status: string)
    returns (events: seq<Event>, w: World)
    requires |cfg.bases| == 1
    requires FirstRun(cfg, r) && Recordable(before, rows(r.runId))
    ensures Leads(cfg, rows, before, events, w) && w.s.started[0] == [1] && w.store == WithRows(before, rows(r.runId))
    ensures At(w, Working, Rescored(cfg, rows, r, status), WithResult(Executed(cfg, r), r), SaveScored)
  {
    var c, n := WithResult(Executed(cfg, r), r), |rows(r.runId)|;
    events, w := CommittedAgain(cfg, rows, before, r);
    events, w := Go(cfg, rows, before, events, w, c, c, AboutToScore(r), Score(Scoring(status, n, w.answers[0])),
                    Local(Rescored(cfg, rows, r, status), SaveScored, Quiet));
  }

  /**
   Whatever the run and its rows: it is executed once, its rows are committed, the process dies before the save, a
   second session scores it again, and the manifest says that every row was a duplicate.
   */
  lemma CrashAfterCommit(cfg: Config, rows: Scorers, before: Store, r: RunResult, status: string)
    returns (events: seq<Event>)
    requires |cfg.bases| == 1
    requires FirstRun(cfg, r) && Recordable(before, rows(r.runId))
    ensures WorldAfter(cfg, rows, before, events).Some?
    ensures var w := WorldAfter(cfg, rows, before, events).value;
            && w.s.started[0] == [1] && w.s.disk == [Rescored(cfg, rows, r, status)]
            && w.s.disk[0].status == Completed && HasRows(w.store, rows(r.runId))
            && w.s.disk[0].ingestion == Ingested(Ingestion(|rows(r.runId)|, 0, |rows(r.runId)|))
  {
    var w;
    var c, done := WithResult(Executed(cfg, r), r), Rescored(cfg, rows, r, status);
    events, w := ScoredAgain(cfg, rows, before, r, status);
    events, w := Go(cfg, rows, before, events, w, done, c, SaveScored, Advance, Local(done, Done, Save));
  }
}
