/**
 Why adapters of its own for every item are no restriction. In a free run each step is answered by adapters of
 its own choosing, which may look at other items, other callers or the time. Every free run is also a run of a
 scene, so what holds of every interleaving of every scene holds of every free run.
 */
module Replay {
  import opened Results
  import opened Item
  import opened World
  import opened Setup
  import opened TrackA
  import opened Tasks

  /** A step of a task, and how the adapters behave during that step. */
  datatype Move = Move(task: nat, world: World)

  function FreeRun(s: Setup, sys: System, moves: seq<Move>): System {
    if moves == [] then sys
    else
      var last := moves[|moves| - 1];
      Step(Scene(s, id => last.world), FreeRun(s, sys, moves[..|moves| - 1]), last.task)
  }

  function ScheduleOf(moves: seq<Move>): seq<nat> {
    if moves == [] then [] else ScheduleOf(moves[..|moves| - 1]) + [moves[|moves| - 1].task]
  }

  /** Adapters that answer each call as a log says that they did. */
  function Replayed(log: Log): World {
    World(
      (past: Log, f: Adapter, url: string) =>
        if |past| < |log| && log[|past|].Fetched? then log[|past|].outcome else Failure(NO_FETCHERS),
      (past: Log, p: Adapter, data: seq<bv8>, mime: string) =>
        if |past| < |log| && log[|past|].Parsed? then log[|past|].parse else Failure(NO_FETCHERS),
      (past: Log, a: Adapter, query: string, n: int) =>
        if |past| < |log| && log[|past|].Searched? then log[|past|].hits else [],
      (past: Log, c: Candidate) => |past| < |log| && log[|past|].Judged? && log[|past|].trusted)
  }

  /** A step that kept to the log goes the same way when it is replayed. */
  lemma AdvanceReplayed(w: World, s: Setup, pause: Pause, rec: Rec, log: Log)
    requires !pause.Leaving? && Advance(w, s, pause, rec).rec.log <= log
    ensures rec.log <= Advance(w, s, pause, rec).rec.log
    ensures Advance(Replayed(log), s, pause, rec) == Advance(w, s, pause, rec)
  {
    match pause
    case Fetching(url, f, _, _, _) =>
      var e := Fetched(f, url, w.fetch(rec.log, f, url));
      assert Advance(w, s, pause, rec).rec.log == rec.log + [e];
      assert log[|rec.log|] == e;
      hide Accept, TryNext, Successor;
    case Sleeping(_, _, _, _, _) =>
    case Parsing(p, data, mime) =>
      var e := Parsed(p, data, mime, w.parse(rec.log, p, data, mime));
      assert Advance(w, s, pause, rec).rec.log == rec.log + [e];
      assert log[|rec.log|] == e;
    case Searching(searcher, later) =>
      var n := s.config.candidateCount;
      var hits := w.search(rec.log, searcher, rec.item.queryHint, n);
      var e := Searched(searcher, rec.item.queryHint, n, hits);
      JudgeNextSection(hits, later, Note(rec, e));
      assert log[|rec.log|] == e;
      hide JudgeNext;
    case Judging(c, more, later) =>
      var e := Judged(c, w.isTrusted(rec.log, c));
      JudgeNextSection(more, later, Note(rec, e));
      assert Advance(w, s, pause, rec).rec.log == rec.log + [e];
      assert log[|rec.log|] == e;
      hide JudgeNext;
    case Saving(_) =>
  }

  lemma ActReplayed(w: World, s: Setup, t: nat, task: Task, cell: Cell, log: Log)
    requires Act(w, s, t, task, cell).1.rec.log <= log
    ensures cell.rec.log <= Act(w, s, t, task, cell).1.rec.log
    ensures Act(Replayed(log), s, t, task, cell) == Act(w, s, t, task, cell)
  {
    hide Advance, Begin, Replayed;
    match task.phase
    case Waiting(section) => BeginSection(s, section, cell.rec);
    case Inside(pause) =>
      if !pause.Leaving? {
        AdvanceReplayed(w, s, pause, cell.rec, log);
      }
    case _ =>
  }

  /** Each item's log is part of the one it has in the end. */
  ghost predicate Within(sys: System, end: System) {
    forall id :: id in sys.cells ==> id in end.cells && sys.cells[id].rec.log <= end.cells[id].rec.log
  }

  function ReplayScene(s: Setup, end: System): Scene {
    Scene(s, id => Replayed(if id in end.cells then end.cells[id].rec.log else []))
  }

  lemma StepReplayed(s: Setup, sys: System, move: Move, end: System)
    requires Within(Step(Scene(s, id => move.world), sys, move.task), end)
    ensures Within(sys, end)
    ensures Step(ReplayScene(s, end), sys, move.task) == Step(Scene(s, id => move.world), sys, move.task)
  {
    hide Act, Replayed;
    var t := move.task;
    if t < |sys.tasks| && sys.tasks[t].id in sys.cells {
      var id, sys' := sys.tasks[t].id, Step(Scene(s, id => move.world), sys, t);
      assert sys'.cells[id].rec.log <= end.cells[id].rec.log;
      ActReplayed(move.world, s, t, sys.tasks[t], sys.cells[id], end.cells[id].rec.log);
      assert forall other :: other in sys.cells ==> other in sys'.cells;
    }
  }

  lemma {:induction false} RunReplayed(s: Setup, first: System, moves: seq<Move>, end: System)
    requires Within(FreeRun(s, first, moves), end)
    ensures After(ReplayScene(s, end), first, ScheduleOf(moves)) == FreeRun(s, first, moves)
  {
    if moves == [] {
    } else {
      var init, last := moves[..|moves| - 1], moves[|moves| - 1];
      hide Step, Within;
      StepReplayed(s, FreeRun(s, first, init), last, end);
      RunReplayed(s, first, init, end);
      assert ScheduleOf(moves)[..|ScheduleOf(moves)| - 1] == ScheduleOf(init);
    }
  }

  /** A free run is the run of the scene whose adapters repeat what was answered in it. */
  lemma EveryFreeRunIsARun(s: Setup, first: System, moves: seq<Move>)
    ensures After(ReplayScene(s, FreeRun(s, first, moves)), first, ScheduleOf(moves)) == FreeRun(s, first, moves)
  {
    RunReplayed(s, first, moves, FreeRun(s, first, moves));
  }
}
