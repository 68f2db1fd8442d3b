/**
 Locks make every run serial: whatever the schedule, an item, its log and the replies of its sections
 are what running those sections one after another, in the order in which they took the lock, gives.
 */
module Serialisability {
  import opened Wrappers
  import opened Results
  import opened Item
  import opened World
  import opened Setup
  import opened TrackA
  import opened TrackB
  import opened WalkFacts
  import opened HashSkip
  import opened Discovery
  import opened Tasks

  /** A whole section, run without a pause. */
  function RunSection(w: World, s: Setup, section: Section, rec: Rec): Run {
    match section
    case TrackA => ResolveKnown(w, s, rec)
    case TrackB => Discover(w, s, rec)
  }

  /** What a paused section would come to if it ran on without interruption. */
  function Finish(w: World, s: Setup, pause: Pause, rec: Rec): Run {
    match pause
    case Fetching(url, f, visited, idx, attempt) =>
      Conclude(w, s, ChaseOn(w, s, url, f, visited, idx, Retry(w, s.config, f, url, attempt, rec.log)), rec.item)
    case Sleeping(url, f, visited, idx, attempt) =>
      var log' := rec.log + [Slept(Backoff(s.config, attempt))];
      Conclude(w, s, ChaseOn(w, s, url, f, visited, idx, Retry(w, s.config, f, url, attempt + 1, log')), rec.item)
    case Parsing(p, data, mime) =>
      var o := w.parse(rec.log, p, data, mime);
      Run(Note(rec, Parsed(p, data, mime, o)), Returned(o))
    case Searching(searcher, later) => ScanSearchers(w, s, [searcher] + later, rec)
    case Judging(c, more, later) =>
      var trusted := w.isTrusted(rec.log, c);
      var rec' := Note(rec, Judged(c, trusted));
      if trusted then Run(Save(Rec(Merge(rec'.item, c.url), rec'.log)), Found(c))
      else ScanHits(w, s, more, later, rec')
    case Saving(reply) => Run(Save(rec), reply)
    case Leaving(reply) => Run(rec, reply)
  }

  // ----- Steps keep what a section comes to -------------------------------------

  lemma TryNextFinishes(w: World, s: Setup, url: string, next: Option<Adapter>, visited: set<Adapter>, idx: nat,
                        last: Option<RetrievalError>, rec: Rec)
    requires next.Some? ==> next.value in s.fetchers
    ensures var p := TryNext(url, next, visited, idx, last, rec);
            Finish(w, s, p.pause, p.rec)
            == Conclude(w, s, Chase(w, s, url, next, visited, idx, last, rec.log), rec.item)
  {
    if next.Some? && next.value !in visited {
      VisitShrinks(s, visited, next.value);
    }
    hide Retry, ChaseOn, Settle;
  }

  lemma AcceptFinishes(w: World, s: Setup, f: Adapter, result: RetrievalResult, rec: Rec)
    ensures var p := Accept(s, f, result, rec);
            Finish(w, s, p.pause, p.rec) == Settle(w, s, f, result, rec)
  {
  }

  lemma AskNextFinishes(w: World, s: Setup, searchers: seq<Adapter>, rec: Rec)
    ensures var p := AskNext(searchers, rec);
            Finish(w, s, p.pause, p.rec) == ScanSearchers(w, s, searchers, rec)
  {
    if searchers != [] {
      assert [searchers[0]] + searchers[1..] == searchers;
    }
  }

  lemma {:induction false} JudgeNextFinishes(w: World, s: Setup, hits: seq<Candidate>, later: seq<Adapter>, rec: Rec)
    ensures var p := JudgeNext(hits, later, rec);
            Finish(w, s, p.pause, p.rec) == ScanHits(w, s, hits, later, rec)
  {
    HitStep(w, s, hits, later, rec);
    hide ScanHits, ScanSearchers;
    if hits == [] {
      AskNextFinishes(w, s, later, rec);
    } else if hits[0].url in rec.item.discoveredUrlsSeen {
      JudgeNextFinishes(w, s, hits[1..], later, rec);
    }
  }

  lemma BeginFinishes(w: World, s: Setup, section: Section, rec: Rec)
    ensures var p := Begin(s, section, rec);
            Finish(w, s, p.pause, p.rec) == RunSection(w, s, section, rec)
  {
    if section == TrackB {
      AskNextFinishes(w, s, s.searchers, rec);
    } else if rec.item.currentSources != [] && s.fetchers != [] {
      TryNextFinishes(w, s, rec.item.currentSources[0], Some(s.fetchers[0]), {}, 0, None, rec);
    }
    hide Chase, ScanSearchers, TryNext, AskNext, Conclude;
  }

  lemma FetchAdvanceFinishes(w: World, s: Setup, pause: Pause, rec: Rec)
    requires pause.Fetching?
    ensures var p := Advance(w, s, pause, rec);
            Finish(w, s, p.pause, p.rec) == Finish(w, s, pause, rec)
  {
    var f := pause.fetcher;
    var o := w.fetch(rec.log, f, pause.url);
    var rec' := Note(rec, Fetched(f, pause.url, o));
    RetryStep(w, s.config, f, pause.url, pause.attempt, rec.log);
    hide Retry;
    if !Retries(s.config, o, pause.attempt) {
      if o.Success? {
        AcceptFinishes(w, s, f, o.result, rec');
        hide Accept, Settle;
      } else {
        var next := Successor(s, f, pause.idx, o.error.errorType);
        TryNextFinishes(w, s, pause.url, next, pause.visited, NextIdx(s, pause.idx), Some(o.error), rec');
        hide TryNext, Conclude, Chase;
      }
    } else {
      hide Conclude, ChaseOn;
    }
  }

  lemma AdvanceFinishes(w: World, s: Setup, pause: Pause, rec: Rec)
    requires !pause.Leaving?
    ensures var p := Advance(w, s, pause, rec);
            Finish(w, s, p.pause, p.rec) == Finish(w, s, pause, rec)
  {
    match pause
    case Fetching(_, _, _, _, _) => FetchAdvanceFinishes(w, s, pause, rec);
    case Sleeping(_, _, _, _, _) =>
    case Parsing(_, _, _) =>
    case Searching(searcher, later) =>
      var n := s.config.candidateCount;
      var hits := w.search(rec.log, searcher, rec.item.queryHint, n);
      assert ([searcher] + later)[1..] == later;
      ScanStep(w, s, [searcher] + later, rec);
      JudgeNextFinishes(w, s, hits, later, Note(rec, Searched(searcher, rec.item.queryHint, n, hits)));
      hide ScanSearchers, ScanHits, JudgeNext;
    case Judging(c, more, later) =>
      JudgeNextFinishes(w, s, more, later, Note(rec, Judged(c, w.isTrusted(rec.log, c))));
      hide ScanHits, JudgeNext;
    case Saving(_) =>
  }

  // ----- The serial run -----------------------------------------------------------

  datatype Served = Served(rec: Rec, replies: seq<Reply>)

  /** The sections of the turns, run one after another. */
  function Serial(w: World, s: Setup, rec: Rec, turns: seq<Turn>): Served {
    if turns == [] then Served(rec, [])
    else
      var before := Serial(w, s, rec, turns[..|turns| - 1]);
      var run := RunSection(w, s, turns[|turns| - 1].section, before.rec);
      Served(run.rec, before.replies + [run.reply])
  }

  /** An unheld item is the serial run of its turns; a held one will be once the holder's section is finished. */
  ghost predicate CellConsistent(w: World, s: Setup, first: Rec, id: string, cell: Cell, tasks: seq<Task>) {
    match cell.holder
    case None => Served(cell.rec, cell.replies) == Serial(w, s, first, cell.turns)
    case Some(t) =>
      && t < |tasks| && tasks[t].id == id && tasks[t].phase.Inside?
      && cell.turns != [] && cell.turns[|cell.turns| - 1].task == t
      && var n := |cell.turns| - 1;
         var before := Serial(w, s, first, cell.turns[..n]);
         && cell.replies == before.replies
         && Finish(w, s, tasks[t].phase.pause, cell.rec) == RunSection(w, s, cell.turns[n].section, before.rec)
  }

  /** The sections a method takes the lock for. */
  predicate Fits(entry: Entry, section: Section) {
    && (entry == ResolveKnownSource ==> section == TrackA)
    && (entry == DiscoverSource ==> section == TrackB)
  }

  /** Turn number k was taken by this caller, and its reply is there. */
  ghost predicate OwnTurn(t: nat, entry: Entry, cell: Cell, k: nat) {
    && k < |cell.turns| && k < |cell.replies|
    && cell.turns[k] == Turn(t, SectionOfReply(cell.replies[k]))
    && Fits(entry, cell.turns[k].section)
  }

  /** A caller passes on the reply of its turn; only the joint entry point keeps a find to itself. */
  predicate PassesOn(entry: Entry, given: Reply, reply: Reply) {
    reply == if entry == ResolveItem && given.Found? then Nothing else given
  }

  /**
   A task is inside a section exactly while it holds the lock, and then the last turn is its own; a reply it
   gives is passed on from one of its turns.
   */
  ghost predicate TaskConsistent(t: nat, task: Task, cell: Cell) {
    && (task.phase.Waiting? ==> Fits(task.entry, task.phase.section))
    && (task.phase.Inside? <==> cell.holder == Some(t))
    && (task.phase.Inside? ==>
          && cell.turns != [] && cell.turns[|cell.turns| - 1] == Turn(t, SectionOf(task.phase.pause))
          && Fits(task.entry, SectionOf(task.phase.pause)))
    && (task.phase.Reviewing? ==>
          task.entry == ResolveItem && exists k: nat :: OwnTurn(t, task.entry, cell, k) && cell.replies[k].Found?)
    && (task.phase.Finished? ==>
          exists k: nat :: OwnTurn(t, task.entry, cell, k) && PassesOn(task.entry, cell.replies[k], task.phase.reply))
  }

  ghost predicate Consistent(scene: Scene, first: System, sys: System) {
    && sys.cells.Keys == first.cells.Keys
    && |sys.tasks| == |first.tasks|
    && (forall t :: 0 <= t < |sys.tasks| ==>
          && sys.tasks[t].id == first.tasks[t].id && sys.tasks[t].entry == first.tasks[t].entry
          && (sys.tasks[t].id in sys.cells ==> TaskConsistent(t, sys.tasks[t], sys.cells[sys.tasks[t].id])))
    && forall id :: id in sys.cells ==>
         && CellConsistent(scene.worlds(id), scene.setup, first.cells[id].rec, id, sys.cells[id], sys.tasks)
         && |sys.cells[id].turns| == |sys.cells[id].replies| + if sys.cells[id].holder.Some? then 1 else 0
  }

  lemma SerialStep(w: World, s: Setup, rec: Rec, turns: seq<Turn>)
    requires turns != []
    ensures var before := Serial(w, s, rec, turns[..|turns| - 1]);
            var run := RunSection(w, s, turns[|turns| - 1].section, before.rec);
            Serial(w, s, rec, turns) == Served(run.rec, before.replies + [run.reply])
  {
    hide RunSection;
  }

  /** The invariant of one item and of one task on it. */
  ghost predicate PairConsistent(w: World, s: Setup, first: Rec, id: string, t: nat, cell: Cell, tasks: seq<Task>) {
    && t < |tasks| && tasks[t].id == id
    && CellConsistent(w, s, first, id, cell, tasks) && TaskConsistent(t, tasks[t], cell)
    && |cell.turns| == |cell.replies| + if cell.holder.Some? then 1 else 0
  }

  /** What one step does to the acting task and its item. */
  lemma ActKeepsPair(w: World, s: Setup, first: Rec, id: string, t: nat, cell: Cell, tasks: seq<Task>)
    requires PairConsistent(w, s, first, id, t, cell, tasks)
    ensures var (task', cell') := Act(w, s, t, tasks[t], cell);
            PairConsistent(w, s, first, id, t, cell', tasks[t := task'])
  {
    var phase := tasks[t].phase;
    hide *;
    match phase
    case Waiting(_) => TakingKeepsPair(w, s, first, id, t, cell, tasks);
    case Inside(pause) =>
      if pause.Leaving? {
        LeavingKeepsPair(w, s, first, id, t, cell, tasks);
      } else {
        AdvancingKeepsPair(w, s, first, id, t, cell, tasks);
      }
    case _ => OutsideKeepsPair(w, s, first, id, t, cell, tasks);
  }

  lemma OutsideKeepsPair(w: World, s: Setup, first: Rec, id: string, t: nat, cell: Cell, tasks: seq<Task>)
    requires PairConsistent(w, s, first, id, t, cell, tasks)
    requires !tasks[t].phase.Waiting? && !tasks[t].phase.Inside?
    ensures var (task', cell') := Act(w, s, t, tasks[t], cell);
            PairConsistent(w, s, first, id, t, cell', tasks[t := task'])
  {
    hide Serial, RunSection, Finish, Begin, Advance;
  }

  lemma LeavingKeepsPair(w: World, s: Setup, first: Rec, id: string, t: nat, cell: Cell, tasks: seq<Task>)
    requires PairConsistent(w, s, first, id, t, cell, tasks)
    requires tasks[t].phase.Inside? && tasks[t].phase.pause.Leaving?
    ensures var (task', cell') := Act(w, s, t, tasks[t], cell);
            PairConsistent(w, s, first, id, t, cell', tasks[t := task'])
  {
    hide Serial, RunSection;
    var cell' := Act(w, s, t, tasks[t], cell).1;
    var n := |cell.turns| - 1;
    SerialStep(w, s, first, cell.turns);
    assert cell'.replies[n] == tasks[t].phase.pause.reply;
    assert OwnTurn(t, tasks[t].entry, cell', n);
  }

  lemma AdvancingKeepsPair(w: World, s: Setup, first: Rec, id: string, t: nat, cell: Cell, tasks: seq<Task>)
    requires PairConsistent(w, s, first, id, t, cell, tasks)
    requires tasks[t].phase.Inside? && !tasks[t].phase.pause.Leaving?
    ensures var (task', cell') := Act(w, s, t, tasks[t], cell);
            PairConsistent(w, s, first, id, t, cell', tasks[t := task'])
  {
    hide Serial, RunSection, Advance, Finish;
    AdvanceFinishes(w, s, tasks[t].phase.pause, cell.rec);
    AdvanceSection(w, s, tasks[t].phase.pause, cell.rec);
  }

  lemma TakingKeepsPair(w: World, s: Setup, first: Rec, id: string, t: nat, cell: Cell, tasks: seq<Task>)
    requires PairConsistent(w, s, first, id, t, cell, tasks) && tasks[t].phase.Waiting?
    ensures var (task', cell') := Act(w, s, t, tasks[t], cell);
            PairConsistent(w, s, first, id, t, cell', tasks[t := task'])
  {
    hide Begin, Finish, RunSection, Serial;
    var cell' := Act(w, s, t, tasks[t], cell).1;
    if cell.holder.None? {
      BeginFinishes(w, s, tasks[t].phase.section, cell.rec);
      BeginSection(s, tasks[t].phase.section, cell.rec);
      assert cell'.turns[..|cell.turns|] == cell.turns;
    }
  }

  /** The other tasks on the item do not notice. */
  lemma ActKeepsOthers(w: World, s: Setup, t: nat, task: Task, u: nat, other: Task, cell: Cell)
    requires u != t && TaskConsistent(t, task, cell) && TaskConsistent(u, other, cell)
    ensures TaskConsistent(u, other, Act(w, s, t, task, cell).1)
  {
    var cell' := Act(w, s, t, task, cell).1;
    assert cell.turns <= cell'.turns && cell.replies <= cell'.replies;
    hide Begin, Advance;
    forall k: nat | OwnTurn(u, other.entry, cell, k)
      ensures OwnTurn(u, other.entry, cell', k) && cell'.replies[k] == cell.replies[k]
    {
    }
  }

  lemma ActKeepsIdentity(w: World, s: Setup, t: nat, task: Task, cell: Cell)
    ensures var task' := Act(w, s, t, task, cell).0;
            task'.id == task.id && task'.entry == task.entry
  {
    hide Begin, Advance;
  }

  /** Nor do the other items. */
  lemma OtherCells(w: World, s: Setup, first: Rec, id: string, cell: Cell, tasks: seq<Task>, t: nat, task': Task)
    requires t < |tasks| && tasks[t].id != id
    requires CellConsistent(w, s, first, id, cell, tasks)
    ensures CellConsistent(w, s, first, id, cell, tasks[t := task'])
  {
    hide Serial, Finish, RunSection;
  }

  lemma StepKeepsConsistent(scene: Scene, first: System, sys: System, t: nat)
    requires Consistent(scene, first, sys)
    ensures Consistent(scene, first, Step(scene, sys, t))
  {
    hide CellConsistent, TaskConsistent, Act;
    if t < |sys.tasks| && sys.tasks[t].id in sys.cells {
      var sys' := Step(scene, sys, t);
      var id := sys.tasks[t].id;
      ActKeepsPair(scene.worlds(id), scene.setup, first.cells[id].rec, id, t, sys.cells[id], sys.tasks);
      ActKeepsIdentity(scene.worlds(id), scene.setup, t, sys.tasks[t], sys.cells[id]);
      forall u | 0 <= u < |sys.tasks| && u != t && sys.tasks[u].id == id
        ensures TaskConsistent(u, sys'.tasks[u], sys'.cells[id])
      {
        ActKeepsOthers(scene.worlds(id), scene.setup, t, sys.tasks[t], u, sys.tasks[u], sys.cells[id]);
      }
      forall other | other in sys.cells && other != id
        ensures CellConsistent(scene.worlds(other), scene.setup, first.cells[other].rec, other, sys'.cells[other],
                               sys'.tasks)
      {
        OtherCells(scene.worlds(other), scene.setup, first.cells[other].rec, other, sys.cells[other], sys.tasks, t,
                   sys'.tasks[t]);
      }
    }
  }

  lemma {:induction false} AlwaysConsistent(scene: Scene, first: System, schedule: seq<nat>)
    requires Initial(first)
    ensures Consistent(scene, first, After(scene, first, schedule))
  {
    if schedule == [] {
    } else {
      AlwaysConsistent(scene, first, schedule[..|schedule| - 1]);
      StepKeepsConsistent(scene, first, After(scene, first, schedule[..|schedule| - 1]), schedule[|schedule| - 1]);
    }
  }

  // ----- What follows for whole runs ------------------------------------------------

  /**
   Whatever the schedule and the adapters: an item whose lock is free, its log and the replies of its
   sections are those of the serial run in lock order; and every task that finished passes on the reply of a
   turn of its own, in the section its method is about. The None of the joint entry point comes from a
   discovery turn, with or without a find.
   */
  lemma EveryRunIsSerial(scene: Scene, first: System, schedule: seq<nat>)
    requires Initial(first)
    ensures var sys := After(scene, first, schedule);
            && (forall id :: id in sys.cells && sys.cells[id].holder.None? ==>
                  && id in first.cells
                  && Served(sys.cells[id].rec, sys.cells[id].replies)
                     == Serial(scene.worlds(id), scene.setup, first.cells[id].rec, sys.cells[id].turns))
            && (forall t :: 0 <= t < |sys.tasks| && sys.tasks[t].phase.Finished? && sys.tasks[t].id in sys.cells ==>
                  var cell := sys.cells[sys.tasks[t].id];
                  exists k: nat :: OwnTurn(t, sys.tasks[t].entry, cell, k)
                                   && PassesOn(sys.tasks[t].entry, cell.replies[k], sys.tasks[t].phase.reply))
  {
    AlwaysConsistent(scene, first, schedule);
    var sys := After(scene, first, schedule);
    hide After, Serial, Finish, RunSection;
    forall id | id in sys.cells && sys.cells[id].holder.None?
      ensures id in first.cells
      ensures Served(sys.cells[id].rec, sys.cells[id].replies)
              == Serial(scene.worlds(id), scene.setup, first.cells[id].rec, sys.cells[id].turns)
    {
      assert id in sys.cells.Keys;
      assert CellConsistent(scene.worlds(id), scene.setup, first.cells[id].rec, id, sys.cells[id], sys.tasks);
    }
    forall t | 0 <= t < |sys.tasks| && sys.tasks[t].phase.Finished? && sys.tasks[t].id in sys.cells
      ensures var cell := sys.cells[sys.tasks[t].id];
              exists k: nat :: OwnTurn(t, sys.tasks[t].entry, cell, k)
                               && PassesOn(sys.tasks[t].entry, cell.replies[k], sys.tasks[t].phase.reply)
    {
      assert TaskConsistent(t, sys.tasks[t], sys.cells[sys.tasks[t].id]);
    }
  }

  ghost predicate SameSections(a: seq<Turn>, b: seq<Turn>) {
    |a| == |b| && forall k :: 0 <= k < |a| ==> a[k].section == b[k].section
  }

  lemma {:induction false} SerialBySections(w: World, s: Setup, rec: Rec, a: seq<Turn>, b: seq<Turn>)
    requires SameSections(a, b)
    ensures Serial(w, s, rec, a) == Serial(w, s, rec, b)
  {
    if a == [] {
    } else {
      SerialBySections(w, s, rec, a[..|a| - 1], b[..|b| - 1]);
    }
  }

  /**
   Calls on different items commute: what becomes of an item depends only on where it started, on its own
   adapters and on the order of sections on it, not on other items, other tasks or the schedule.
   */
  lemma ItemsAreIndependent(a: Scene, firstA: System, scheduleA: seq<nat>,
                            b: Scene, firstB: System, scheduleB: seq<nat>, id: string)
    requires Initial(firstA) && Initial(firstB) && id in firstA.cells && id in firstB.cells
    requires firstA.cells[id].rec == firstB.cells[id].rec
    requires a.setup == b.setup && a.worlds(id) == b.worlds(id)
    requires var sysA, sysB := After(a, firstA, scheduleA), After(b, firstB, scheduleB);
             && id in sysA.cells && id in sysB.cells
             && sysA.cells[id].holder.None? && sysB.cells[id].holder.None?
             && SameSections(sysA.cells[id].turns, sysB.cells[id].turns)
    ensures var sysA, sysB := After(a, firstA, scheduleA), After(b, firstB, scheduleB);
            sysA.cells[id].rec == sysB.cells[id].rec && sysA.cells[id].replies == sysB.cells[id].replies
  {
    EveryRunIsSerial(a, firstA, scheduleA);
    EveryRunIsSerial(b, firstB, scheduleB);
    SerialBySections(a.worlds(id), a.setup, firstA.cells[id].rec, After(a, firstA, scheduleA).cells[id].turns,
                     After(b, firstB, scheduleB).cells[id].turns);
    hide After, Serial;
  }

  // ----- The stored copy ------------------------------------------------------------

  /** A store that keeps values holds the item as it is now. */
  predicate Agrees(rec: Rec, initially: Option<ItemView>) {
    Stored(rec.log, initially) == Some(rec.item)
  }

  /** The section writes the item to the registry: a discovery always does. */
  predicate SectionSaves(w: World, s: Setup, section: Section, rec: Rec) {
    section == TrackA ==> Saves(w, s, rec)
  }

  /** Turn number k saved the item. */
  predicate TurnSaves(w: World, s: Setup, rec: Rec, turns: seq<Turn>, k: nat) {
    k < |turns| && SectionSaves(w, s, turns[k].section, Serial(w, s, rec, turns[..k]).rec)
  }

  lemma SectionKeepsStore(w: World, s: Setup, section: Section, rec: Rec, initially: Option<ItemView>)
    ensures Agrees(RunSection(w, s, section, rec).rec, initially)
            <==> Agrees(rec, initially) || SectionSaves(w, s, section, rec)
  {
    if section == TrackA {
      TrackAKeepsStore(w, s, rec, initially);
    } else {
      DiscoverResult(w, s, rec);
    }
    hide ResolveKnown, Discover, Saves;
  }

  lemma {:induction false} SerialKeepsStore(w: World, s: Setup, rec: Rec, turns: seq<Turn>, initially: Option<ItemView>)
    ensures Agrees(Serial(w, s, rec, turns).rec, initially)
            <==> Agrees(rec, initially) || exists k: nat :: TurnSaves(w, s, rec, turns, k)
  {
    hide RunSection, Agrees, SectionSaves;
    if turns == [] {
    } else {
      var n := |turns| - 1;
      SerialKeepsStore(w, s, rec, turns[..n], initially);
      SectionKeepsStore(w, s, turns[n].section, Serial(w, s, rec, turns[..n]).rec, initially);
      SerialStep(w, s, rec, turns);
      assert TurnSaves(w, s, rec, turns, n) <==>
          SectionSaves(w, s, turns[n].section, Serial(w, s, rec, turns[..n]).rec);
      forall k: nat | k != n
        ensures TurnSaves(w, s, rec, turns, k) <==> TurnSaves(w, s, rec, turns[..n], k)
      {
        assert k < n ==> turns[..k] == turns[..n][..k];
      }
      hide TurnSaves, Serial;
      if k: nat :| TurnSaves(w, s, rec, turns[..n], k) {
        assert k == n || TurnSaves(w, s, rec, turns, k);
        assert k != n by { NoTurnThere(w, s, rec, turns[..n], k); }
      }
    }
  }

  lemma NoTurnThere(w: World, s: Setup, rec: Rec, turns: seq<Turn>, k: nat)
    ensures TurnSaves(w, s, rec, turns, k) ==> k < |turns|
  {
  }

  /**
   In every interleaving, an item whose lock is free agrees with its stored copy exactly if it did so at the
   start or was saved in one of its turns.
   */
  lemma StoreAgreesExactly(scene: Scene, first: System, schedule: seq<nat>, id: string, initially: Option<ItemView>)
    requires Initial(first) && id in first.cells
    ensures var sys := After(scene, first, schedule);
            id in sys.cells && sys.cells[id].holder.None? ==>
              (Agrees(sys.cells[id].rec, initially) <==>
               || Agrees(first.cells[id].rec, initially)
               || exists k: nat ::
                    TurnSaves(scene.worlds(id), scene.setup, first.cells[id].rec, sys.cells[id].turns, k))
  {
    EveryRunIsSerial(scene, first, schedule);
    var sys := After(scene, first, schedule);
    if id in sys.cells && sys.cells[id].holder.None? {
      SerialKeepsStore(scene.worlds(id), scene.setup, first.cells[id].rec, sys.cells[id].turns, initially);
    }
    hide After, Serial, Agrees, TurnSaves;
  }

  lemma ActKeepsTurns(w: World, s: Setup, t: nat, task: Task, cell: Cell)
    ensures cell.turns <= Act(w, s, t, task, cell).1.turns
  {
    hide Begin, Advance;
  }

  /** The history of a lock only grows. */
  lemma {:induction false} TurnsGrow(scene: Scene, sys: System, later: seq<nat>, id: string)
    requires id in sys.cells
    ensures var sys' := After(scene, sys, later);
            id in sys'.cells && sys.cells[id].turns <= sys'.cells[id].turns
  {
    hide Act;
    if later == [] {
    } else {
      var before := After(scene, sys, later[..|later| - 1]);
      var t := later[|later| - 1];
      TurnsGrow(scene, sys, later[..|later| - 1], id);
      if t < |before.tasks| && before.tasks[t].id == id {
        ActKeepsTurns(scene.worlds(id), scene.setup, t, before.tasks[t], before.cells[id]);
      }
    }
  }

  /**
   In every interleaving, if a store agrees with an item at any point at which the lock is free, such as when it
   is about to be taken, it agrees with it at every later such point, whatever it held at the start.
   */
  lemma StoreAgreesWhenUnlocked(scene: Scene, first: System, schedule: seq<nat>, later: seq<nat>, id: string,
                                initially: Option<ItemView>)
    requires Initial(first) && id in first.cells
    ensures var sys, sys' := After(scene, first, schedule), After(scene, first, schedule + later);
            id in sys.cells && sys.cells[id].holder.None? && Agrees(sys.cells[id].rec, initially) ==>
              id in sys'.cells && (sys'.cells[id].holder.None? ==> Agrees(sys'.cells[id].rec, initially))
  {
    hide After, Agrees;
    var sys, sys' := After(scene, first, schedule), After(scene, first, schedule + later);
    if id in sys.cells {
      var w, s, rec := scene.worlds(id), scene.setup, first.cells[id].rec;
      AfterMore(scene, first, schedule, later);
      TurnsGrow(scene, sys, later, id);
      StoreAgreesExactly(scene, first, schedule, id, initially);
      StoreAgreesExactly(scene, first, schedule + later, id, initially);
      forall k: nat | TurnSaves(w, s, rec, sys.cells[id].turns, k)
        ensures TurnSaves(w, s, rec, sys'.cells[id].turns, k)
      {
        assert sys.cells[id].turns[..k] == sys'.cells[id].turns[..k];
      }
    }
  }

  // ----- The content hash -------------------------------------------------------------

  /** The number of the latest turn that was a Track A call and succeeded without a parser. */
  function LatestRecord(w: World, s: Setup, rec: Rec, turns: seq<Turn>): (k: Option<nat>)
    ensures k.Some? ==> k.value < |turns|
  {
    if turns == [] then None
    else
      var n := |turns| - 1;
      if turns[n].section == TrackA && Records(w, s, Serial(w, s, rec, turns[..n]).rec) then Some(n)
      else LatestRecord(w, s, rec, turns[..n])
  }

  /** The hash on record is the one of the latest success without a parser, or the initial one if there was none. */
  lemma {:induction false} HashIsLatestRecorded(w: World, s: Setup, rec: Rec, turns: seq<Turn>)
    ensures var served := Serial(w, s, rec, turns);
            && |served.replies| == |turns|
            && match LatestRecord(w, s, rec, turns)
               case None => served.rec.item.lastContentHash == rec.item.lastContentHash
               case Some(k) =>
                 && served.replies[k].Returned? && served.replies[k].outcome.Success?
                 && served.rec.item.lastContentHash == Some(served.replies[k].outcome.result.contentHash)
  {
    if turns == [] {
    } else {
      var n := |turns| - 1;
      HashIsLatestRecorded(w, s, rec, turns[..n]);
      SectionHash(w, s, turns[n].section, Serial(w, s, rec, turns[..n]).rec);
      SerialStep(w, s, rec, turns);
      hide Serial, RunSection, Records;
    }
  }

  /**
   In every interleaving, the hash of an unheld item is that of the reply of the latest turn that was a success
   without a parser, or the initial one if there was no such turn.
   */
  lemma HashInEveryRun(scene: Scene, first: System, schedule: seq<nat>, id: string)
    requires Initial(first) && id in first.cells
    ensures var sys := After(scene, first, schedule);
            id in sys.cells && sys.cells[id].holder.None? ==>
              && |sys.cells[id].replies| == |sys.cells[id].turns|
              && match LatestRecord(scene.worlds(id), scene.setup, first.cells[id].rec, sys.cells[id].turns)
                 case None =>
                   sys.cells[id].rec.item.lastContentHash == first.cells[id].rec.item.lastContentHash
                 case Some(k) =>
                   var reply := sys.cells[id].replies[k];
                   && reply.Returned? && reply.outcome.Success?
                   && sys.cells[id].rec.item.lastContentHash == Some(reply.outcome.result.contentHash)
  {
    EveryRunIsSerial(scene, first, schedule);
    var sys := After(scene, first, schedule);
    if id in sys.cells {
      HashIsLatestRecorded(scene.worlds(id), scene.setup, first.cells[id].rec, sys.cells[id].turns);
    }
    hide After, Serial, LatestRecord;
  }

  lemma SectionHash(w: World, s: Setup, section: Section, rec: Rec)
    ensures var run := RunSection(w, s, section, rec);
            if section == TrackA && Records(w, s, rec) then
              && run.reply.Returned? && run.reply.outcome.Success?
              && run.rec.item.lastContentHash == Some(run.reply.outcome.result.contentHash)
            else run.rec.item.lastContentHash == rec.item.lastContentHash
  {
    hide Walk, ParserFor, ResolveKnown, Discover;
    if section == TrackA {
      TrackAFrame(w, s, rec);
    } else {
      DiscoverResult(w, s, rec);
    }
  }

  // ----- A call on its own --------------------------------------------------------------

  /** A router method, run without other callers. */
  function Call(w: World, s: Setup, entry: Entry, rec: Rec): Run {
    match entry
    case ResolveKnownSource => ResolveKnown(w, s, rec)
    case DiscoverSource => Discover(w, s, rec)
    case ResolveItem => Resolve(w, s, rec)
  }

  /** The end of the joint entry point, after a find. */
  function Review(w: World, s: Setup, rec: Rec): Run {
    if rec.item.status == PendingReview && !s.config.requireReview then ResolveKnown(w, s, rec) else Run(rec, Nothing)
  }

  function Reviewed(w: World, s: Setup, entry: Entry, run: Run): Run {
    if entry == ResolveItem && run.reply.Found? then Review(w, s, run.rec) else run
  }

  /** What a call would come to if no other caller took a step from now on. */
  function WouldEnd(w: World, s: Setup, task: Task, rec: Rec): Run {
    match task.phase
    case Ready => Call(w, s, task.entry, rec)
    case Waiting(section) => Reviewed(w, s, task.entry, RunSection(w, s, section, rec))
    case Inside(pause) => Reviewed(w, s, task.entry, Finish(w, s, pause, rec))
    case Reviewing => Review(w, s, rec)
    case Finished(reply) => Run(rec, reply)
  }

  lemma TrackAFindsNothing(w: World, s: Setup, rec: Rec)
    ensures !ResolveKnown(w, s, rec).reply.Found?
  {
    hide Walk;
  }

  /** A caller's own steps never change what its call would come to; only the steps of others between its turns can. */
  lemma OwnStepsKeepEnd(w: World, s: Setup, t: nat, task: Task, cell: Cell)
    requires task.phase.Reviewing? ==> task.entry == ResolveItem
    ensures var (task', cell') := Act(w, s, t, task, cell);
            WouldEnd(w, s, task', cell'.rec) == WouldEnd(w, s, task, cell.rec)
  {
    hide ResolveKnown, Discover, Finish, Advance, Begin;
    match task.phase
    case Ready =>
      TrackAFindsNothing(w, s, cell.rec);
      DiscoverReplies(w, s, cell.rec);
    case Waiting(section) => BeginFinishes(w, s, section, cell.rec);
    case Inside(pause) =>
      if pause.Leaving? {
        LeavingFinishes(w, s, pause, cell.rec);
      } else {
        AdvanceFinishes(w, s, pause, cell.rec);
      }
    case Reviewing => TrackAFindsNothing(w, s, cell.rec);
    case Finished(_) =>
  }

  lemma LeavingFinishes(w: World, s: Setup, pause: Pause, rec: Rec)
    requires pause.Leaving?
    ensures Finish(w, s, pause, rec) == Run(rec, pause.reply)
  {
  }

  lemma DiscoverReplies(w: World, s: Setup, rec: Rec)
    ensures Discover(w, s, rec).reply == Nothing || Discover(w, s, rec).reply.Found?
  {
    DiscoverResult(w, s, rec);
  }

  lemma {:induction false} AloneKeepsEnd(scene: Scene, first: System, schedule: seq<nat>, id: string)
    requires Initial(first) && |first.tasks| == 1 && first.tasks[0].id == id && id in first.cells
    ensures var sys := After(scene, first, schedule);
            && |sys.tasks| == 1 && sys.tasks[0].id == id && id in sys.cells
            && WouldEnd(scene.worlds(id), scene.setup, sys.tasks[0], sys.cells[id].rec)
               == Call(scene.worlds(id), scene.setup, first.tasks[0].entry, first.cells[id].rec)
  {
    if schedule == [] {
    } else {
      var before := After(scene, first, schedule[..|schedule| - 1]);
      AloneKeepsEnd(scene, first, schedule[..|schedule| - 1], id);
      AlwaysConsistent(scene, first, schedule[..|schedule| - 1]);
      hide WouldEnd, Act, Call, CellConsistent;
      assert TaskConsistent(0, before.tasks[0], before.cells[id]);
      OwnStepsKeepEnd(scene.worlds(id), scene.setup, 0, before.tasks[0], before.cells[id]);
      ActKeepsIdentity(scene.worlds(id), scene.setup, 0, before.tasks[0], before.cells[id]);
    }
  }

  /** A call that is alone and has finished did exactly what the router's method does: same item, awaits and reply. */
  lemma AloneIsSequential(scene: Scene, first: System, schedule: seq<nat>, id: string)
    requires Initial(first) && |first.tasks| == 1 && first.tasks[0].id == id && id in first.cells
    ensures var sys := After(scene, first, schedule);
            && |sys.tasks| == 1 && id in sys.cells
            && (sys.tasks[0].phase.Finished? ==>
                  Run(sys.cells[id].rec, sys.tasks[0].phase.reply)
                  == Call(scene.worlds(id), scene.setup, first.tasks[0].entry, first.cells[id].rec))
  {
    AloneKeepsEnd(scene, first, schedule, id);
    hide After, Call;
  }
}
