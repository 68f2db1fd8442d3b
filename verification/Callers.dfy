/** Callers of one item queue up: each of them fetches for itself. */
module Callers {
  import opened Wrappers
  import opened Results
  import opened Item
  import opened World
  import opened Setup
  import opened TrackA
  import opened TrackB
  import opened WalkFacts
  import opened HashSkip
  import opened Discovery
  import opened Tasks
  import opened Serialisability
  import opened Sources

  /** Number of Track A turns. */
  function TrackATurns(turns: seq<Turn>): nat {
    if turns == [] then 0
    else TrackATurns(turns[..|turns| - 1]) + if turns[|turns| - 1].section == TrackA then 1 else 0
  }

  /**
   Track A calls on one item are put in a queue, not answered together: each one fetches. The promise that
   concurrent callers coalesce into one attempt does not describe the code.
   */
  lemma {:induction false} EveryTrackATurnFetches(w: World, s: Setup, rec: Rec, turns: seq<Turn>)
    requires s.fetchers != [] && rec.item.currentSources != []
    ensures var served := Serial(w, s, rec, turns);
            && served.rec.item.currentSources == rec.item.currentSources
            && FetchCount(served.rec.log) >= FetchCount(rec.log) + TrackATurns(turns)
  {
    if turns == [] {
    } else {
      var before := Serial(w, s, rec, turns[..|turns| - 1]);
      EveryTrackATurnFetches(w, s, rec, turns[..|turns| - 1]);
      if turns[|turns| - 1].section == TrackA {
        var _, _ := CallCost(w, s, before.rec);
        TrackAFrame(w, s, before.rec);
      } else {
        ScanSearchersFetchesNothing(w, s, s.searchers, before.rec);
        DiscoverResult(w, s, before.rec);
      }
      hide ResolveKnown, ScanSearchers, FetchCount;
    }
  }

  // ----- The fetches of a caller --------------------------------------------------------

  /** How many fetches of its own a task in this phase has made: one at least, or none, and when. */
  ghost predicate FetchesFit(s: Setup, phase: Phase, fetches: nat) {
    match phase
    case Inside(Fetching(_, _, _, _, _)) => s.fetchers != []
    case Inside(Sleeping(_, _, _, _, _)) => s.fetchers != [] && fetches >= 1
    case Inside(Parsing(_, _, _)) => s.fetchers != [] && fetches >= 1
    case Inside(Saving(reply)) => ReplyFits(s, reply, fetches)
    case Inside(Leaving(reply)) => ReplyFits(s, reply, fetches)
    case Finished(reply) => ReplyFits(s, reply, fetches)
    case _ => fetches == 0
  }

  /** A reply with an outcome of Track A takes a fetch, if there are fetchers at all; any other one takes none. */
  ghost predicate ReplyFits(s: Setup, reply: Reply, fetches: nat) {
    fetches >= 1 <==> reply.Returned? && s.fetchers != []
  }

  lemma {:induction false} JudgeNextFits(s: Setup, hits: seq<Candidate>, later: seq<Adapter>, rec: Rec)
    ensures FetchesFit(s, Inside(JudgeNext(hits, later, rec).pause), 0)
  {
    if hits == [] {
    } else if hits[0].url in rec.item.discoveredUrlsSeen {
      JudgeNextFits(s, hits[1..], later, rec);
    } else {
    }
  }

  lemma AdvanceFits(w: World, s: Setup, pause: Pause, rec: Rec, fetches: nat)
    requires !pause.Leaving? && FetchesFit(s, Inside(pause), fetches)
    ensures var p := Advance(w, s, pause, rec);
            var more := if pause.Fetching? then 1 else 0;
            && FetchesFit(s, Inside(p.pause), fetches + more)
            && FetchCount(p.rec.log) == FetchCount(rec.log) + more
  {
    hide FetchCount, Successor, ParserFor;
    match pause
    case Fetching(url, f, _, _, _) => AppendOne(rec.log, Fetched(f, url, w.fetch(rec.log, f, url)), None);
    case Sleeping(_, _, _, _, attempt) => AppendOne(rec.log, Slept(Backoff(s.config, attempt)), None);
    case Parsing(p, data, mime) =>
      AppendOne(rec.log, Parsed(p, data, mime, w.parse(rec.log, p, data, mime)), None);
    case Searching(searcher, later) =>
      var n := s.config.candidateCount;
      var hits := w.search(rec.log, searcher, rec.item.queryHint, n);
      var e := Searched(searcher, rec.item.queryHint, n, hits);
      AppendOne(rec.log, e, None);
      JudgeNextFits(s, hits, later, Note(rec, e));
      JudgeNextSection(hits, later, Note(rec, e));
      hide JudgeNext;
    case Judging(c, more, later) =>
      var e := Judged(c, w.isTrusted(rec.log, c));
      AppendOne(rec.log, e, None);
      JudgeNextFits(s, more, later, Note(rec, e));
      JudgeNextSection(more, later, Note(rec, e));
      hide JudgeNext;
    case Saving(_) => AppendOne(rec.log, Upserted(rec.item), None);
  }

  lemma ActFits(w: World, s: Setup, t: nat, task: Task, cell: Cell)
    requires FetchesFit(s, task.phase, task.fetches)
    ensures var (task', cell') := Act(w, s, t, task, cell);
            && FetchesFit(s, task'.phase, task'.fetches)
            && FetchCount(cell'.rec.log) + task.fetches == FetchCount(cell.rec.log) + task'.fetches
  {
    hide Advance, FetchCount;
    match task.phase
    case Waiting(section) => BeginSection(s, section, cell.rec);
    case Inside(pause) =>
      if !pause.Leaving? {
        AdvanceFits(w, s, pause, cell.rec, task.fetches);
      }
    case _ => hide Begin;
  }

  // ----- All callers of an item ---------------------------------------------------------

  /** The fetches that the callers of an item have made. */
  function FetchesOf(tasks: seq<Task>, id: string): nat {
    if tasks == [] then 0
    else
      var last := tasks[|tasks| - 1];
      FetchesOf(tasks[..|tasks| - 1], id) + if last.id == id then last.fetches else 0
  }

  lemma {:induction false} FetchesUpdate(tasks: seq<Task>, t: nat, task': Task, id: string)
    requires t < |tasks| && task'.id == tasks[t].id
    ensures FetchesOf(tasks[t := task'], id) + (if tasks[t].id == id then tasks[t].fetches else 0)
            == FetchesOf(tasks, id) + if task'.id == id then task'.fetches else 0
  {
    var init := tasks[..|tasks| - 1];
    if t == |init| {
      assert tasks[t := task'][..|tasks| - 1] == init;
    } else {
      FetchesUpdate(init, t, task', id);
      assert tasks[t := task'][..|tasks| - 1] == init[t := task'];
    }
  }

  lemma {:induction false} NoFetchesYet(tasks: seq<Task>, id: string)
    requires forall t :: 0 <= t < |tasks| ==> tasks[t].fetches == 0
    ensures FetchesOf(tasks, id) == 0
  {
    if tasks == [] {
    } else {
      NoFetchesYet(tasks[..|tasks| - 1], id);
    }
  }

  /** A caller that has an outcome of Track A for its answer. */
  predicate HasOutcome(task: Task, id: string) {
    task.id == id && task.phase.Finished? && task.phase.reply.Returned?
  }

  function Outcomes(tasks: seq<Task>, id: string): nat {
    if tasks == [] then 0
    else Outcomes(tasks[..|tasks| - 1], id) + if HasOutcome(tasks[|tasks| - 1], id) then 1 else 0
  }

  lemma {:induction false} OutcomesTakeFetches(s: Setup, tasks: seq<Task>, id: string)
    requires s.fetchers != []
    requires forall t :: 0 <= t < |tasks| && tasks[t].id == id ==> FetchesFit(s, tasks[t].phase, tasks[t].fetches)
    ensures FetchesOf(tasks, id) >= Outcomes(tasks, id)
  {
    if tasks == [] {
    } else {
      OutcomesTakeFetches(s, tasks[..|tasks| - 1], id);
    }
  }

  /** The callers of an item have made just the fetches added to its log, each as many as its phase allows. */
  ghost predicate Accounted(s: Setup, first: Rec, sys: System, id: string) {
    && id in sys.cells
    && FetchCount(sys.cells[id].rec.log) == FetchCount(first.log) + FetchesOf(sys.tasks, id)
    && forall t :: 0 <= t < |sys.tasks| && sys.tasks[t].id == id ==>
         FetchesFit(s, sys.tasks[t].phase, sys.tasks[t].fetches)
  }

  lemma StepAccounts(scene: Scene, first: Rec, sys: System, t: nat, id: string)
    requires Accounted(scene.setup, first, sys, id)
    ensures Accounted(scene.setup, first, Step(scene, sys, t), id)
  {
    hide Act, FetchesFit, FetchCount, FetchesOf;
    if t < |sys.tasks| && sys.tasks[t].id in sys.cells {
      var task := sys.tasks[t];
      var w, task' := scene.worlds(task.id), Step(scene, sys, t).tasks[t];
      ActKeepsIdentity(w, scene.setup, t, task, sys.cells[task.id]);
      FetchesUpdate(sys.tasks, t, task', id);
      if task.id == id {
        ActFits(w, scene.setup, t, task, sys.cells[id]);
      }
    }
  }

  lemma {:induction false} AlwaysAccounted(scene: Scene, first: System, schedule: seq<nat>, id: string)
    requires Initial(first) && id in first.cells
    ensures Accounted(scene.setup, first.cells[id].rec, After(scene, first, schedule), id)
  {
    if schedule == [] {
      NoFetchesYet(first.tasks, id);
    } else {
      var init := schedule[..|schedule| - 1];
      AlwaysAccounted(scene, first, init, id);
      hide Accounted, Step;
      StepAccounts(scene, first.cells[id].rec, After(scene, first, init), schedule[|schedule| - 1], id);
    }
  }

  /**
   In every interleaving, from any items and at every point, held or not: the fetches added to an item's log are
   those its callers made, and a caller that has its answer made one of its own exactly if the answer is an
   outcome of Track A and there are fetchers. So there are as many fetches as such callers at least, however many
   of them waited at once; callers that got no outcome made none.
   */
  lemma CallersDoNotCoalesce(scene: Scene, first: System, schedule: seq<nat>, id: string)
    requires Initial(first) && id in first.cells
    ensures var sys := After(scene, first, schedule);
            && id in sys.cells
            && FetchCount(sys.cells[id].rec.log) == FetchCount(first.cells[id].rec.log) + FetchesOf(sys.tasks, id)
            && (forall t :: 0 <= t < |sys.tasks| && sys.tasks[t].id == id && sys.tasks[t].phase.Finished? ==>
                  (sys.tasks[t].fetches >= 1
                   <==> sys.tasks[t].phase.reply.Returned? && scene.setup.fetchers != []))
            && (scene.setup.fetchers != [] ==> FetchesOf(sys.tasks, id) >= Outcomes(sys.tasks, id))
  {
    AlwaysAccounted(scene, first, schedule, id);
    hide After, FetchCount, FetchesOf, Outcomes;
    var sys := After(scene, first, schedule);
    if scene.setup.fetchers != [] {
      OutcomesTakeFetches(scene.setup, sys.tasks, id);
    }
  }

  // ----- Items with a source ------------------------------------------------------------

  /** On an item with a source, callers that want its content go to Track A and nowhere else. */
  ghost predicate StaysInTrackA(task: Task) {
    task.entry != DiscoverSource ==>
      match task.phase
      case Ready => true
      case Waiting(section) => section == TrackA
      case Inside(pause) =>
        SectionOf(pause) == TrackA && pause != Saving(Raised) && pause != Leaving(Raised)
      case Reviewing => false
      case Finished(reply) => reply.Returned?
  }

  lemma ActStays(w: World, s: Setup, t: nat, task: Task, cell: Cell)
    requires cell.rec.item.currentSources != [] && StaysInTrackA(task)
    requires task.phase.Inside? ==> PauseHolds(task.phase.pause, cell.rec.item)
    ensures StaysInTrackA(Act(w, s, t, task, cell).0)
  {
    hide Begin, Advance, PauseHolds;
    match task.phase
    case Waiting(section) =>
      BeginSection(s, section, cell.rec);
      BeginIsQuiet(s, section, cell.rec);
      NotSavingRaised(Begin(s, section, cell.rec).pause, Begin(s, section, cell.rec).rec.item);
    case Inside(pause) =>
      if !pause.Leaving? {
        AdvanceSection(w, s, pause, cell.rec);
        AdvanceHolds(w, s, pause, cell.rec);
        NotSavingRaised(Advance(w, s, pause, cell.rec).pause, Advance(w, s, pause, cell.rec).rec.item);
      }
    case _ =>
  }

  lemma NotSavingRaised(pause: Pause, item: ItemView)
    requires PauseHolds(pause, item)
    ensures pause != Saving(Raised)
  {
  }

  /** The caller's item has a source, and the caller stays in Track A. */
  ghost predicate IsBound(sys: System, t: nat) {
    && t < |sys.tasks| && sys.tasks[t].id in sys.cells
    && sys.cells[sys.tasks[t].id].rec.item.currentSources != [] && StaysInTrackA(sys.tasks[t])
  }

  lemma StepKeepsBound(scene: Scene, first: System, sys: System, u: nat, t: nat)
    requires Consistent(scene, first, sys) && AllHold(scene.setup, sys) && IsBound(sys, t)
    ensures IsBound(Step(scene, sys, u), t)
    ensures var task := Step(scene, sys, u).tasks[t];
            task.id == sys.tasks[t].id && task.entry == sys.tasks[t].entry
  {
    hide Act, TaskConsistent, CellConsistent, StaysInTrackA, Evolves, PauseHolds;
    if u < |sys.tasks| && sys.tasks[u].id in sys.cells {
      var task, id, sys' := sys.tasks[u], sys.tasks[t].id, Step(scene, sys, u);
      StepHolds(scene, first, sys, u);
      EvolvesKeepsSource(sys.cells[id].rec, FindsSoFar(sys.cells[id], sys.tasks),
                         sys'.cells[id].rec, FindsSoFar(sys'.cells[id], sys'.tasks));
      ActKeepsIdentity(scene.worlds(task.id), scene.setup, u, task, sys.cells[task.id]);
      if u == t {
        assert TaskHolds(scene.setup, task, sys.cells[id].rec.item);
        ActStays(scene.worlds(id), scene.setup, t, task, sys.cells[id]);
      }
    }
  }

  /** A task once bound for Track A stays so. */
  lemma {:induction false} StaysBound(scene: Scene, first: System, schedule: seq<nat>, later: seq<nat>, t: nat)
    requires Initial(first) && IsBound(After(scene, first, schedule), t)
    ensures var sys, sys' := After(scene, first, schedule), After(scene, first, schedule + later);
            IsBound(sys', t) && sys'.tasks[t].id == sys.tasks[t].id && sys'.tasks[t].entry == sys.tasks[t].entry
  {
    if later == [] {
      assert schedule + later == schedule;
    } else {
      var init, u := later[..|later| - 1], later[|later| - 1];
      StaysBound(scene, first, schedule, init, t);
      AlwaysConsistent(scene, first, schedule + init);
      AlwaysHold(scene, first, schedule + init);
      assert (schedule + later)[..|schedule + later| - 1] == schedule + init;
      var before := After(scene, first, schedule + init);
      assert After(scene, first, schedule + later) == Step(scene, before, u);
      hide After, IsBound, Step;
      StepKeepsBound(scene, first, before, u, t);
    }
  }

  /** What a bound caller has when it is finished: an outcome, and a fetch of its own if there are fetchers. */
  lemma BoundEndsWithOutcome(scene: Scene, first: System, schedule: seq<nat>, t: nat)
    requires Initial(first)
    ensures var sys := After(scene, first, schedule);
            IsBound(sys, t) && sys.tasks[t].entry != DiscoverSource && sys.tasks[t].phase.Finished? ==>
              && sys.tasks[t].phase.reply.Returned?
              && (scene.setup.fetchers != [] ==> sys.tasks[t].fetches >= 1)
  {
    var sys := After(scene, first, schedule);
    if IsBound(sys, t) {
      AlwaysConsistent(scene, first, schedule);
      assert sys.tasks[t].id in first.cells.Keys;
      CallersDoNotCoalesce(scene, first, schedule, sys.tasks[t].id);
    }
    hide After, FetchCount, FetchesOf, Outcomes, TaskConsistent, CellConsistent;
  }

  /**
   In every interleaving, on an item that has a source at the start, every caller of Track A or of the joint entry
   point that has its answer has an outcome, and fetched for it if there are fetchers.
   */
  lemma EveryCallerGetsAnOutcome(scene: Scene, first: System, schedule: seq<nat>, id: string, t: nat)
    requires Initial(first) && id in first.cells && first.cells[id].rec.item.currentSources != []
    ensures var sys := After(scene, first, schedule);
            t < |sys.tasks| && sys.tasks[t].id == id && sys.tasks[t].entry != DiscoverSource
            && sys.tasks[t].phase.Finished? ==>
              && sys.tasks[t].phase.reply.Returned?
              && (scene.setup.fetchers != [] ==> sys.tasks[t].fetches >= 1)
  {
    AlwaysConsistent(scene, first, schedule);
    var sys := After(scene, first, schedule);
    if t < |sys.tasks| && sys.tasks[t].id == id {
      assert After(scene, first, []) == first && [] + schedule == schedule;
      StaysBound(scene, first, [], schedule, t);
      BoundEndsWithOutcome(scene, first, schedule, t);
    }
    hide After, TaskConsistent, CellConsistent;
  }

  /**
   In every interleaving, a caller of the joint entry point that comes back from a find and is to make its check:
   if the item then awaits review and review is off, the caller goes on to Track A, and when it is finished it has
   an outcome and a fetch of its own; otherwise it ends with nothing there and then.
   */
  lemma CheckAfterFind(scene: Scene, first: System, schedule: seq<nat>, t: nat, later: seq<nat>)
    requires Initial(first)
    requires var sys := After(scene, first, schedule);
             t < |sys.tasks| && sys.tasks[t].id in sys.cells && sys.tasks[t].phase == Reviewing
    ensures var sys := After(scene, first, schedule);
            var sys' := After(scene, first, schedule + [t] + later);
            t < |sys'.tasks|
            && if sys.cells[sys.tasks[t].id].rec.item.status == PendingReview && !scene.setup.config.requireReview
               then sys'.tasks[t].phase.Finished? ==>
                      && sys'.tasks[t].phase.reply.Returned?
                      && (scene.setup.fetchers != [] ==> sys'.tasks[t].fetches >= 1)
               else After(scene, first, schedule + [t]).tasks[t].phase == Finished(Nothing)
  {
    var sys := After(scene, first, schedule);
    AlwaysConsistent(scene, first, schedule);
    AlwaysConsistent(scene, first, schedule + [t] + later);
    AlwaysHold(scene, first, schedule);
    assert (schedule + [t])[..|schedule|] == schedule;
    assert After(scene, first, schedule + [t]) == Step(scene, sys, t);
    hide After, TaskConsistent, CellConsistent, TaskHolds, Step, IsBound;
    assert TaskConsistent(t, sys.tasks[t], sys.cells[sys.tasks[t].id]);
    assert TaskHolds(scene.setup, sys.tasks[t], sys.cells[sys.tasks[t].id].rec.item);
    CheckIsMade(scene, sys, t);
    if sys.cells[sys.tasks[t].id].rec.item.status == PendingReview && !scene.setup.config.requireReview {
      StaysBound(scene, first, schedule + [t], later, t);
      BoundEndsWithOutcome(scene, first, schedule + [t] + later, t);
    }
  }

  /** The check after a find, as one step. */
  lemma CheckIsMade(scene: Scene, sys: System, t: nat)
    requires t < |sys.tasks| && sys.tasks[t].id in sys.cells && sys.tasks[t].phase == Reviewing
    requires TaskConsistent(t, sys.tasks[t], sys.cells[sys.tasks[t].id])
    requires TaskHolds(scene.setup, sys.tasks[t], sys.cells[sys.tasks[t].id].rec.item)
    ensures var sys' := Step(scene, sys, t);
            && t < |sys'.tasks| && sys'.tasks[t].entry == ResolveItem
            && if sys.cells[sys.tasks[t].id].rec.item.status == PendingReview && !scene.setup.config.requireReview
               then IsBound(sys', t) else sys'.tasks[t].phase == Finished(Nothing)
  {
    hide OwnTurn, PassesOn, Fits, Begin, Advance, PauseHolds;
  }
}
