/**
 How items change from step to step, whatever they and the adapters were like at the start: a source stays for
 good, only the source is fetched, and the checks made outside the lock are never overtaken.
 */
module Sources {
  import opened Wrappers
  import opened Results
  import opened Item
  import opened World
  import opened Setup
  import opened TrackA
  import opened TrackB
  import opened Tasks
  import opened Serialisability

  /** The one url that Track A fetches for an item. */
  function Source(item: ItemView): Option<string> {
    if item.currentSources == [] then None else Some(item.currentSources[0])
  }

  // ----- Changes of an item -------------------------------------------------------

  /** Another status and hash only. Without a source the status stays, or is that of a failed discovery. */
  ghost predicate Restatused(item: ItemView, item': ItemView) {
    && item' == item.(status := item'.status, lastContentHash := item'.lastContentHash)
    && (item.currentSources == [] ==> item'.status in {item.status, Unresolved})
  }

  /** A new url was merged that has just been judged trusted. */
  ghost predicate Merged(rec: Rec, rec': Rec, c: Candidate) {
    && c.url !in rec.item.discoveredUrlsSeen
    && rec'.item == Merge(rec.item, c.url)
    && rec'.log == rec.log + [Judged(c, true)]
  }

  /** At most one await is noted, and if it is a fetch, it is of the source. */
  ghost predicate LogGrows(rec: Rec, log': Log) {
    || log' == rec.log
    || (|log'| == |rec.log| + 1 && rec.log <= log'
        && (log'[|rec.log|].Fetched? ==> Source(rec.item) == Some(log'[|rec.log|].url)))
  }

  /** What a step makes of an item and its log, with the number of finds before and after. */
  ghost predicate Evolves(rec: Rec, finds: nat, rec': Rec, finds': nat) {
    && LogGrows(rec, rec'.log)
    && if finds' == finds then Restatused(rec.item, rec'.item)
       else finds' == finds + 1 && exists c :: Merged(rec, rec', c)
  }

  // ----- Paused sections ------------------------------------------------------------

  /** What a pause relies on until its section goes on. */
  ghost predicate PauseHolds(pause: Pause, item: ItemView) {
    match pause
    case Fetching(url, _, _, _, _) => Source(item) == Some(url)
    case Sleeping(url, _, _, _, _) => Source(item) == Some(url)
    case Parsing(_, _, _) => true
    case Searching(_, _) => true
    case Judging(c, _, _) => c.url !in item.discoveredUrlsSeen
    case Saving(reply) => (reply.Found? ==> item.currentSources != []) && reply != Raised
    case Leaving(reply) => reply.Found? ==> item.currentSources != []
  }

  /** A merge that is done while its reply is still to come. */
  function Pending(pause: Pause): nat {
    if (pause.Saving? || pause.Leaving?) && pause.reply.Found? then 1 else 0
  }

  /** The code between two awaits, when it merges nothing. */
  ghost predicate Quiet(rec: Rec, p: Point) {
    && PauseHolds(p.pause, p.rec.item) && Pending(p.pause) == 0
    && p.rec.log == rec.log && Restatused(rec.item, p.rec.item)
  }

  lemma TryNextIsQuiet(url: string, next: Option<Adapter>, visited: set<Adapter>, idx: nat,
                       last: Option<RetrievalError>, rec: Rec)
    requires Source(rec.item) == Some(url)
    ensures Quiet(rec, TryNext(url, next, visited, idx, last, rec))
  {
  }

  lemma AcceptIsQuiet(s: Setup, f: Adapter, result: RetrievalResult, rec: Rec)
    requires rec.item.currentSources != []
    ensures Quiet(rec, Accept(s, f, result, rec)) && Accept(s, f, result, rec).pause != Leaving(Raised)
  {
    hide ParserFor;
  }

  lemma {:induction false} JudgeNextIsQuiet(hits: seq<Candidate>, later: seq<Adapter>, rec: Rec)
    ensures Quiet(rec, JudgeNext(hits, later, rec)) && !JudgeNext(hits, later, rec).pause.Leaving?
  {
    if hits != [] && hits[0].url in rec.item.discoveredUrlsSeen {
      JudgeNextIsQuiet(hits[1..], later, rec);
    } else {
    }
  }

  lemma BeginIsQuiet(s: Setup, section: Section, rec: Rec)
    ensures Quiet(rec, Begin(s, section, rec))
    ensures section == TrackB || rec.item.currentSources != [] ==> Begin(s, section, rec).pause != Leaving(Raised)
  {
    if section == TrackA && rec.item.currentSources != [] && s.fetchers != [] {
      TryNextIsQuiet(rec.item.currentSources[0], Some(s.fetchers[0]), {}, 0, None, rec);
    }
  }

  lemma FetchHolds(w: World, s: Setup, pause: Pause, rec: Rec)
    requires pause.Fetching? && PauseHolds(pause, rec.item)
    ensures var p := Advance(w, s, pause, rec);
            && PauseHolds(p.pause, p.rec.item) && Evolves(rec, 0, p.rec, Pending(p.pause))
            && p.pause != Leaving(Raised)
  {
    var Fetching(url, f, visited, idx, attempt) := pause;
    var o := w.fetch(rec.log, f, url);
    var rec' := Note(rec, Fetched(f, url, o));
    if !Retries(s.config, o, attempt) {
      if o.Success? {
        AcceptIsQuiet(s, f, o.result, rec');
      } else {
        TryNextIsQuiet(url, Successor(s, f, idx, o.error.errorType), visited, NextIdx(s, idx), Some(o.error), rec');
      }
    }
    hide Successor, Accept, TryNext;
  }

  lemma JudgeHolds(w: World, s: Setup, pause: Pause, rec: Rec)
    requires pause.Judging? && PauseHolds(pause, rec.item)
    ensures var p := Advance(w, s, pause, rec);
            && PauseHolds(p.pause, p.rec.item) && Evolves(rec, 0, p.rec, Pending(p.pause))
            && p.pause != Leaving(Raised)
  {
    var trusted := w.isTrusted(rec.log, pause.candidate);
    var rec' := Note(rec, Judged(pause.candidate, trusted));
    if trusted {
      assert Merged(rec, Advance(w, s, pause, rec).rec, pause.candidate);
    } else {
      JudgeNextIsQuiet(pause.more, pause.later, rec');
    }
    hide JudgeNext;
  }

  lemma AdvanceHolds(w: World, s: Setup, pause: Pause, rec: Rec)
    requires !pause.Leaving? && PauseHolds(pause, rec.item)
    ensures var p := Advance(w, s, pause, rec);
            && PauseHolds(p.pause, p.rec.item) && Evolves(rec, Pending(pause), p.rec, Pending(p.pause))
            && p.pause != Leaving(Raised)
  {
    match pause
    case Fetching(_, _, _, _, _) => FetchHolds(w, s, pause, rec);
    case Sleeping(_, _, _, _, _) =>
    case Parsing(_, _, _) =>
    case Searching(searcher, later) =>
      var n := s.config.candidateCount;
      var hits := w.search(rec.log, searcher, rec.item.queryHint, n);
      JudgeNextIsQuiet(hits, later, Note(rec, Searched(searcher, rec.item.queryHint, n, hits)));
      hide JudgeNext;
    case Judging(_, _, _) => JudgeHolds(w, s, pause, rec);
    case Saving(_) =>
  }

  // ----- Tasks ----------------------------------------------------------------------

  /** How many replies carry a find. */
  function Finds(replies: seq<Reply>): nat {
    if replies == [] then 0 else Finds(replies[..|replies| - 1]) + if replies[|replies| - 1].Found? then 1 else 0
  }

  /** The merge of the section in progress, if it has done one. */
  function InProgress(cell: Cell, tasks: seq<Task>): nat {
    if cell.holder.Some? && cell.holder.value < |tasks| && tasks[cell.holder.value].phase.Inside?
    then Pending(tasks[cell.holder.value].phase.pause) else 0
  }

  /** The finds on an item so far. */
  function FindsSoFar(cell: Cell, tasks: seq<Task>): nat {
    Finds(cell.replies) + InProgress(cell, tasks)
  }

  ghost predicate TaskHolds(s: Setup, task: Task, item: ItemView) {
    && (task.phase.Inside? ==> PauseHolds(task.phase.pause, item))
    // the unlocked checks of the joint entry point stay true until they are relied on
    && (task.entry == ResolveItem ==>
          && (task.phase == Waiting(TrackA) || task.phase.Reviewing? ==> item.currentSources != [])
          && task.phase != Inside(Leaving(Raised)) && task.phase != Finished(Raised))
    // under review, a task that found no source at entry never gets to Track A
    && (task.phase.Ready? ==> task.fetches == 0)
    && (task.sourceless ==> task.entry == ResolveItem && task.phase != Ready)
    && (task.sourceless && s.config.requireReview ==>
          && task.fetches == 0 && task.phase != Waiting(TrackA)
          && (task.phase.Inside? ==> SectionOf(task.phase.pause) == TrackB))
  }

  lemma FindsAppend(replies: seq<Reply>, r: Reply)
    ensures Finds(replies + [r]) == Finds(replies) + if r.Found? then 1 else 0
  {
    assert (replies + [r])[..|replies|] == replies;
  }

  lemma ActHolds(w: World, s: Setup, t: nat, cell: Cell, tasks: seq<Task>)
    requires t < |tasks| && TaskConsistent(t, tasks[t], cell) && TaskHolds(s, tasks[t], cell.rec.item)
    ensures var (task', cell') := Act(w, s, t, tasks[t], cell);
            && TaskHolds(s, task', cell'.rec.item)
            && Evolves(cell.rec, FindsSoFar(cell, tasks), cell'.rec, FindsSoFar(cell', tasks[t := task']))
  {
    hide Begin, Advance, Finds, Fits, OwnTurn, PassesOn;
    match tasks[t].phase
    case Ready =>
    case Waiting(section) =>
      BeginIsQuiet(s, section, cell.rec);
      BeginSection(s, section, cell.rec);
    case Inside(pause) =>
      if pause.Leaving? {
        FindsAppend(cell.replies, pause.reply);
      } else {
        AdvanceHolds(w, s, pause, cell.rec);
        AdvanceSection(w, s, pause, cell.rec);
        EvolvesFrom(cell.rec, Pending(pause), Advance(w, s, pause, cell.rec), Finds(cell.replies));
        hide Evolves;
      }
    case Reviewing =>
    case Finished(_) =>
  }

  lemma EvolvesFrom(rec: Rec, finds: nat, p: Point, more: nat)
    requires Evolves(rec, finds, p.rec, Pending(p.pause))
    ensures Evolves(rec, more + finds, p.rec, more + Pending(p.pause))
  {
    hide LogGrows, Restatused, Merged;
  }

  /** A source stays, and no url that was seen is forgotten. */
  lemma EvolvesKeepsSource(rec: Rec, finds: nat, rec': Rec, finds': nat)
    requires Evolves(rec, finds, rec', finds')
    ensures rec.item.currentSources != [] ==> rec'.item.currentSources == rec.item.currentSources
  {
  }

  lemma ActLeavesOthers(w: World, s: Setup, t: nat, task: Task, u: nat, other: Task, cell: Cell)
    requires u != t && TaskConsistent(t, task, cell) && TaskConsistent(u, other, cell)
    requires TaskHolds(s, other, cell.rec.item)
    requires var item' := Act(w, s, t, task, cell).1.rec.item;
             cell.rec.item.currentSources != [] ==> item'.currentSources == cell.rec.item.currentSources
    ensures TaskHolds(s, other, Act(w, s, t, task, cell).1.rec.item)
  {
    hide Begin, Advance, PauseHolds, Fits, OwnTurn, PassesOn;
  }

  ghost predicate AllHold(s: Setup, sys: System) {
    forall t :: 0 <= t < |sys.tasks| && sys.tasks[t].id in sys.cells ==>
      TaskHolds(s, sys.tasks[t], sys.cells[sys.tasks[t].id].rec.item)
  }

  /** Every item evolves as it should from one state of the system to the next. */
  ghost predicate AllEvolve(sys: System, sys': System) {
    forall id :: id in sys.cells ==>
      && id in sys'.cells
      && Evolves(sys.cells[id].rec, FindsSoFar(sys.cells[id], sys.tasks),
                 sys'.cells[id].rec, FindsSoFar(sys'.cells[id], sys'.tasks))
  }

  lemma StepHolds(scene: Scene, first: System, sys: System, t: nat)
    requires Consistent(scene, first, sys) && AllHold(scene.setup, sys)
    ensures AllHold(scene.setup, Step(scene, sys, t)) && AllEvolve(sys, Step(scene, sys, t))
  {
    hide TaskHolds, TaskConsistent, Act, CellConsistent, FindsSoFar, Evolves;
    var sys' := Step(scene, sys, t);
    if t < |sys.tasks| && sys.tasks[t].id in sys.cells {
      var task, id := sys.tasks[t], sys.tasks[t].id;
      var cell, w := sys.cells[id], scene.worlds(id);
      ActHolds(w, scene.setup, t, cell, sys.tasks);
      ActKeepsIdentity(w, scene.setup, t, task, cell);
      EvolvesKeepsSource(cell.rec, FindsSoFar(cell, sys.tasks),
                         sys'.cells[id].rec, FindsSoFar(sys'.cells[id], sys'.tasks));
      forall u | 0 <= u < |sys.tasks| && sys.tasks[u].id in sys.cells && u != t
        ensures TaskHolds(scene.setup, sys'.tasks[u], sys'.cells[sys.tasks[u].id].rec.item)
      {
        if sys.tasks[u].id == id {
          ActLeavesOthers(w, scene.setup, t, task, u, sys.tasks[u], cell);
        }
      }
    }
    forall other | other in sys.cells && (t < |sys.tasks| ==> other != sys.tasks[t].id)
      ensures other in sys'.cells
      ensures Evolves(sys.cells[other].rec, FindsSoFar(sys.cells[other], sys.tasks),
                      sys'.cells[other].rec, FindsSoFar(sys'.cells[other], sys'.tasks))
    {
      var w := scene.worlds(other);
      assert CellConsistent(w, scene.setup, first.cells[other].rec, other, sys.cells[other], sys.tasks);
      OthersStay(w, scene.setup, first.cells[other].rec, other, sys.cells[other], sys.tasks, sys'.tasks, t);
    }
  }

  /** An item that is not acted on stays as it is, with the finds on it. */
  lemma OthersStay(w: World, s: Setup, first: Rec, id: string, cell: Cell, tasks: seq<Task>, tasks': seq<Task>, t: nat)
    requires CellConsistent(w, s, first, id, cell, tasks) && |tasks'| == |tasks|
    requires t < |tasks| ==> tasks[t].id != id
    requires forall u :: 0 <= u < |tasks| && u != t ==> tasks'[u] == tasks[u]
    ensures Evolves(cell.rec, FindsSoFar(cell, tasks), cell.rec, FindsSoFar(cell, tasks'))
  {
    hide Serial, Finish, RunSection, Finds;
  }

  // ----- Every interleaving -----------------------------------------------------------

  lemma {:induction false} AlwaysHold(scene: Scene, first: System, schedule: seq<nat>)
    requires Initial(first)
    ensures AllHold(scene.setup, After(scene, first, schedule))
  {
    if schedule == [] {
    } else {
      var before := schedule[..|schedule| - 1];
      AlwaysHold(scene, first, before);
      AlwaysConsistent(scene, first, before);
      StepHolds(scene, first, After(scene, first, before), schedule[|schedule| - 1]);
    }
  }

  /** From any point of any run, whatever the items were like at its start, the next step makes every item evolve. */
  lemma EveryStepEvolves(scene: Scene, first: System, schedule: seq<nat>, t: nat)
    requires Initial(first)
    ensures AllEvolve(After(scene, first, schedule), After(scene, first, schedule + [t]))
  {
    AlwaysHold(scene, first, schedule);
    AlwaysConsistent(scene, first, schedule);
    StepHolds(scene, first, After(scene, first, schedule), t);
    assert (schedule + [t])[..|schedule|] == schedule;
  }

  /** What has come of an item and its log since a record of them: a source stayed, and only the source was fetched. */
  ghost predicate Since(rec: Rec, rec': Rec) {
    && (rec.item.currentSources != [] ==> rec'.item.currentSources == rec.item.currentSources)
    && rec.log <= rec'.log
    && forall i :: |rec.log| <= i < |rec'.log| && rec'.log[i].Fetched? ==> Source(rec'.item) == Some(rec'.log[i].url)
  }

  lemma SinceOneMore(rec: Rec, mid: Rec, finds: nat, rec': Rec, finds': nat)
    requires Since(rec, mid) && Evolves(mid, finds, rec', finds')
    ensures Since(rec, rec')
  {
    EvolvesKeepsSource(mid, finds, rec', finds');
    hide Merged, Restatused;
  }

  /**
   In every interleaving, from any items and at any point on: a source once there stays as it is for the rest of
   the run, and every fetch is of what is then the item's source.
   */
  lemma {:induction false} OnlyTheSourceIsFetched(scene: Scene, first: System, schedule: seq<nat>, later: seq<nat>,
                                                  id: string)
    requires Initial(first)
    ensures var sys, sys' := After(scene, first, schedule), After(scene, first, schedule + later);
            id in sys.cells ==> id in sys'.cells && Since(sys.cells[id].rec, sys'.cells[id].rec)
  {
    hide After, Evolves, Since;
    if later == [] {
      assert schedule + later == schedule;
      if id in After(scene, first, schedule).cells {
        var rec := After(scene, first, schedule).cells[id].rec;
        assert Since(rec, rec) by { NothingSince(rec); }
      }
    } else {
      var n := |later| - 1;
      OnlyTheSourceIsFetched(scene, first, schedule, later[..n], id);
      EveryStepEvolves(scene, first, schedule + later[..n], later[n]);
      assert schedule + later[..n] + [later[n]] == schedule + later;
      var sys, mid := After(scene, first, schedule), After(scene, first, schedule + later[..n]);
      var sys' := After(scene, first, schedule + later);
      if id in sys.cells {
        SinceOneMore(sys.cells[id].rec, mid.cells[id].rec, FindsSoFar(mid.cells[id], mid.tasks),
                     sys'.cells[id].rec, FindsSoFar(sys'.cells[id], sys'.tasks));
      }
    }
  }

  lemma NothingSince(rec: Rec)
    ensures Since(rec, rec)
  {
  }

  /** The checks made outside the lock are never overtaken: the joint entry point does not raise, from any items. */
  lemma ResolveNeverRaises(scene: Scene, first: System, schedule: seq<nat>, t: nat)
    requires Initial(first)
    ensures var sys := After(scene, first, schedule);
            t < |sys.tasks| && sys.tasks[t].id in sys.cells && sys.tasks[t].entry == ResolveItem ==>
              sys.tasks[t].phase != Finished(Raised)
  {
    AlwaysHold(scene, first, schedule);
    hide After;
  }

  /** A call that found the item sourceless under review has fetched nothing, whatever other tasks did meanwhile. */
  lemma ReviewedTaskNeverFetches(scene: Scene, first: System, schedule: seq<nat>, t: nat)
    requires Initial(first) && scene.setup.config.requireReview
    ensures var sys := After(scene, first, schedule);
            t < |sys.tasks| && sys.tasks[t].id in sys.cells && sys.tasks[t].sourceless ==> sys.tasks[t].fetches == 0
  {
    AlwaysHold(scene, first, schedule);
    hide After;
  }
}
