/** The per-item locks never deadlock, and no run goes on for ever. */
module Progress {
  import opened Wrappers
  import opened Results
  import opened Item
  import opened World
  import opened Setup
  import opened TrackA
  import opened TrackB
  import opened Tasks
  import opened Serialisability
  import W = WalkFacts
  import opened Discovery

  // ----- The measure ----------------------------------------------------------------

  /** How many stages of its method a task has before it. */
  function Stages(phase: Phase): nat {
    match phase
    case Ready => 6
    case Waiting(section) => if section == TrackB then 5 else 2
    case Inside(pause) => if SectionOf(pause) == TrackB then 4 else 1
    case Reviewing => 3
    case Finished(_) => 0
  }

  function AllStages(tasks: seq<Task>): nat {
    if tasks == [] then 0 else AllStages(tasks[..|tasks| - 1]) + Stages(tasks[|tasks| - 1].phase)
  }

  /** The awaits a task's present section still has before it. */
  function Awaits(scene: Scene, cells: map<string, Cell>, task: Task): int {
    if task.phase.Inside? && task.id in cells then
      var rec := cells[task.id].rec;
      |Finish(scene.worlds(task.id), scene.setup, task.phase.pause, rec).rec.log| - |rec.log|
    else 0
  }

  function AllAwaits(scene: Scene, cells: map<string, Cell>, tasks: seq<Task>): int {
    if tasks == [] then 0
    else AllAwaits(scene, cells, tasks[..|tasks| - 1]) + Awaits(scene, cells, tasks[|tasks| - 1])
  }

  lemma {:induction false} StagesUpdate(tasks: seq<Task>, t: nat, task': Task)
    requires t < |tasks|
    ensures AllStages(tasks[t := task']) == AllStages(tasks) - Stages(tasks[t].phase) + Stages(task'.phase)
  {
    var init := tasks[..|tasks| - 1];
    if t < |init| {
      StagesUpdate(init, t, task');
      assert tasks[t := task'][..|tasks| - 1] == init[t := task'];
    } else {
      assert tasks[t := task'][..|tasks| - 1] == init;
    }
  }

  lemma {:induction false} AwaitsUpdate(scene: Scene, cells: map<string, Cell>, cells': map<string, Cell>,
                                        tasks: seq<Task>, t: nat, task': Task)
    requires t < |tasks|
    requires forall u :: 0 <= u < |tasks| && u != t ==>
               Awaits(scene, cells', tasks[u]) == Awaits(scene, cells, tasks[u])
    ensures AllAwaits(scene, cells', tasks[t := task'])
            == AllAwaits(scene, cells, tasks) - Awaits(scene, cells, tasks[t]) + Awaits(scene, cells', task')
  {
    hide Awaits;
    var init := tasks[..|tasks| - 1];
    if t < |init| {
      AwaitsUpdate(scene, cells, cells', init, t, task');
      assert tasks[t := task'][..|tasks| - 1] == init[t := task'];
    } else {
      assert tasks[t := task'][..|tasks| - 1] == init;
      SameAwaits(scene, cells, cells', init);
    }
  }

  lemma {:induction false} SameAwaits(scene: Scene, cells: map<string, Cell>, cells': map<string, Cell>,
                                      tasks: seq<Task>)
    requires forall u :: 0 <= u < |tasks| ==> Awaits(scene, cells', tasks[u]) == Awaits(scene, cells, tasks[u])
    ensures AllAwaits(scene, cells', tasks) == AllAwaits(scene, cells, tasks)
  {
    hide Awaits;
    if tasks == [] {
    } else {
      SameAwaits(scene, cells, cells', tasks[..|tasks| - 1]);
    }
  }

  // ----- Finishing extends the log ----------------------------------------------------

  lemma TriesExtend(w: World, s: Setup, url: string, f: Adapter, visited: set<Adapter>, idx: nat, attempt: nat,
                    rec: Rec)
    ensures var c := ChaseOn(w, s, url, f, visited, idx, Retry(w, s.config, f, url, attempt, rec.log));
            |rec.log| <= |Conclude(w, s, c, rec.item).rec.log|
  {
    ChaseOnExtends(w, s, url, f, visited, idx, attempt, rec.log);
    hide ChaseOn, Retry, ParserFor;
  }

  lemma ChaseOnExtends(w: World, s: Setup, url: string, f: Adapter, visited: set<Adapter>, idx: nat, attempt: nat,
                       log: Log)
    ensures |log| <= |ChaseOn(w, s, url, f, visited, idx, Retry(w, s.config, f, url, attempt, log)).log|
  {
    W.RetryExtends(w, s.config, f, url, attempt, log, |log|);
    var (o, log') := Retry(w, s.config, f, url, attempt, log);
    hide Retry;
    if o.Failure? {
      W.ChaseExtends(w, s, url, Successor(s, f, idx, o.error.errorType), visited, NextIdx(s, idx), Some(o.error), log',
                     |log'|);
    }
    hide Chase;
  }

  lemma FinishExtends(w: World, s: Setup, pause: Pause, rec: Rec)
    ensures |rec.log| <= |Finish(w, s, pause, rec).rec.log|
  {
    match pause
    case Fetching(url, f, visited, idx, attempt) => TriesExtend(w, s, url, f, visited, idx, attempt, rec);
    case Sleeping(url, f, visited, idx, attempt) =>
      TriesExtend(w, s, url, f, visited, idx, attempt + 1, Note(rec, Slept(Backoff(s.config, attempt))));
    case Parsing(_, _, _) =>
    case Searching(searcher, later) => SearchKeepsLog(w, s, [searcher] + later, rec);
    case Judging(c, more, later) => HitsKeepLog(w, s, more, later, Note(rec, Judged(c, w.isTrusted(rec.log, c))));
    case Saving(_) =>
    case Leaving(_) =>
  }

  lemma {:induction false} AwaitsAreNatural(scene: Scene, cells: map<string, Cell>, tasks: seq<Task>)
    ensures AllAwaits(scene, cells, tasks) >= 0
  {
    if tasks == [] {
    } else {
      var task := tasks[|tasks| - 1];
      AwaitsAreNatural(scene, cells, tasks[..|tasks| - 1]);
      if task.phase.Inside? && task.id in cells {
        FinishExtends(scene.worlds(task.id), scene.setup, task.phase.pause, cells[task.id].rec);
      }
      hide Finish;
    }
  }

  // ----- Every step counts --------------------------------------------------------------

  /** A step that changes anything leaves fewer stages, or as many stages and fewer awaits. */
  ghost predicate Closer(scene: Scene, sys: System, sys': System) {
    || AllStages(sys'.tasks) < AllStages(sys.tasks)
    || (AllStages(sys'.tasks) == AllStages(sys.tasks)
        && AllAwaits(scene, sys'.cells, sys'.tasks) < AllAwaits(scene, sys.cells, sys.tasks))
  }

  /** A task that can take a step. */
  predicate Enabled(sys: System, t: nat) {
    && t < |sys.tasks| && sys.tasks[t].id in sys.cells
    && !sys.tasks[t].phase.Finished?
    && (sys.tasks[t].phase.Waiting? ==> sys.cells[sys.tasks[t].id].holder.None?)
  }

  lemma ActIsCloser(w: World, s: Setup, t: nat, task: Task, cell: Cell)
    requires !task.phase.Finished? && (task.phase.Waiting? ==> cell.holder.None?)
    requires task.phase.Reviewing? ==> task.entry == ResolveItem
    ensures var (task', cell') := Act(w, s, t, task, cell);
            if task.phase.Inside? && !task.phase.pause.Leaving? then
              && task'.phase.Inside? && Stages(task'.phase) == Stages(task.phase)
              && |cell'.rec.log| == |cell.rec.log| + 1
              && Finish(w, s, task'.phase.pause, cell'.rec) == Finish(w, s, task.phase.pause, cell.rec)
            else Stages(task'.phase) < Stages(task.phase)
  {
    match task.phase
    case Ready =>
    case Waiting(section) =>
      BeginSection(s, section, cell.rec);
      hide Begin, Finish;
    case Inside(pause) =>
      if !pause.Leaving? {
        AdvanceSection(w, s, pause, cell.rec);
        AdvanceFinishes(w, s, pause, cell.rec);
        hide Advance, Finish;
      }
    case Reviewing =>
    case Finished(_) =>
  }

  lemma StepIsCloser(scene: Scene, first: System, sys: System, t: nat)
    requires Consistent(scene, first, sys) && Enabled(sys, t)
    ensures Closer(scene, sys, Step(scene, sys, t))
  {
    var sys' := Step(scene, sys, t);
    var task, id := sys.tasks[t], sys.tasks[t].id;
    var cell := sys.cells[id];
    assert TaskConsistent(t, task, cell);
    ActIsCloser(scene.worlds(id), scene.setup, t, task, cell);
    ActKeepsIdentity(scene.worlds(id), scene.setup, t, task, cell);
    StagesUpdate(sys.tasks, t, sys'.tasks[t]);
    hide Act, Finish, AllStages, AllAwaits, CellConsistent;
    if task.phase.Inside? && !task.phase.pause.Leaving? {
      forall u | 0 <= u < |sys.tasks| && u != t
        ensures Awaits(scene, sys'.cells, sys.tasks[u]) == Awaits(scene, sys.cells, sys.tasks[u])
      {
        if sys.tasks[u].id == id {
          assert TaskConsistent(u, sys.tasks[u], cell);
        }
      }
      AwaitsUpdate(scene, sys.cells, sys'.cells, sys.tasks, t, sys'.tasks[t]);
    }
  }

  /** While a task on a known item is unfinished, some task can step: the locks never deadlock. */
  lemma NeverStuck(scene: Scene, first: System, sys: System, t: nat) returns (u: nat)
    requires Consistent(scene, first, sys)
    requires t < |sys.tasks| && sys.tasks[t].id in sys.cells && !sys.tasks[t].phase.Finished?
    ensures Enabled(sys, u)
  {
    var id := sys.tasks[t].id;
    u := t;
    if !Enabled(sys, t) {
      assert CellConsistent(scene.worlds(id), scene.setup, first.cells[id].rec, id, sys.cells[id], sys.tasks);
      u := sys.cells[id].holder.value;
    }
    hide Serial, Finish, RunSection;
  }

  ghost predicate AllFinished(sys: System) {
    forall t :: 0 <= t < |sys.tasks| && sys.tasks[t].id in sys.cells ==> sys.tasks[t].phase.Finished?
  }

  /** From every reachable state all tasks can be run to their end, and choosing any enabled task is a way to do it. */
  lemma {:induction false} EveryRunCanEnd(scene: Scene, first: System, sys: System) returns (schedule: seq<nat>)
    requires Consistent(scene, first, sys)
    ensures AllFinished(After(scene, sys, schedule))
    decreases AllStages(sys.tasks), AllAwaits(scene, sys.cells, sys.tasks)
  {
    hide Consistent, Enabled, Step, Closer;
    if AllFinished(sys) {
      schedule := [];
    } else {
      var t :| 0 <= t < |sys.tasks| && sys.tasks[t].id in sys.cells && !sys.tasks[t].phase.Finished?;
      var u := NeverStuck(scene, first, sys, t);
      var sys' := Step(scene, sys, u);
      StepIsCloser(scene, first, sys, u);
      StepKeepsConsistent(scene, first, sys, u);
      Measured(scene, sys, sys');
      var rest := EveryRunCanEnd(scene, first, sys');
      schedule := [u] + rest;
      AfterMore(scene, sys, [u], rest);
      assert After(scene, sys, [u]) == sys' by { AfterOne(scene, sys, u); }
    }
  }

  lemma AfterOne(scene: Scene, sys: System, u: nat)
    ensures After(scene, sys, [u]) == Step(scene, sys, u)
  {
    assert [u][..0] == [];
  }

  lemma Measured(scene: Scene, sys: System, sys': System)
    requires Closer(scene, sys, sys')
    ensures 0 <= AllAwaits(scene, sys'.cells, sys'.tasks)
    ensures (AllStages(sys.tasks), AllAwaits(scene, sys.cells, sys.tasks)
             decreases to AllStages(sys'.tasks), AllAwaits(scene, sys'.cells, sys'.tasks))
  {
    AwaitsAreNatural(scene, sys.cells, sys.tasks);
    AwaitsAreNatural(scene, sys'.cells, sys'.tasks);
  }
}
