/**
 Any number of tasks calling one router, one step per await. A task takes an item's lock, runs a
 section (Track A or Track B) that may pause at every await, and releases the lock; the checks of the
 joint entry point run outside the lock. A schedule is any sequence of task numbers, so the runs of
 this system include every interleaving an event loop can produce.
 */
module Tasks {
  import opened Wrappers
  import opened Results
  import opened Item
  import opened World
  import opened Setup
  import opened TrackA
  import opened TrackB

  datatype Section = TrackA | TrackB

  /** Where a section is paused: before an await, or with its reply ready and the lock still held. */
  datatype Pause =
    | Fetching(url: string, fetcher: Adapter, visited: set<Adapter>, idx: nat, attempt: nat)
    | Sleeping(url: string, fetcher: Adapter, visited: set<Adapter>, idx: nat, attempt: nat)
    | Parsing(parser: Adapter, data: seq<bv8>, mime: string)
    | Searching(searcher: Adapter, later: seq<Adapter>)
    | Judging(candidate: Candidate, more: seq<Candidate>, later: seq<Adapter>)
    | Saving(reply: Reply)
    | Leaving(reply: Reply)

  /** The section that ends with a reply, and the one a task is paused in. */
  function SectionOfReply(reply: Reply): Section {
    if reply.Found? || reply == Nothing then TrackB else TrackA
  }

  function SectionOf(pause: Pause): Section {
    match pause
    case Fetching(_, _, _, _, _) => TrackA
    case Sleeping(_, _, _, _, _) => TrackA
    case Parsing(_, _, _) => TrackA
    case Searching(_, _) => TrackB
    case Judging(_, _, _) => TrackB
    case Saving(reply) => SectionOfReply(reply)
    case Leaving(reply) => SectionOfReply(reply)
  }

  /** The point a section has got to, and the item and log it leaves there. */
  datatype Point = Point(pause: Pause, rec: Rec)

  // ----- The code between two awaits ---------------------------------------------

  /** Before the first attempt on a fetcher, or after the last one of the walk. */
  function TryNext(url: string, next: Option<Adapter>, visited: set<Adapter>, idx: nat,
                   last: Option<RetrievalError>, rec: Rec): Point {
    if next.None? || next.value in visited then
      Point(Saving(Returned(Failure(if last.Some? then last.value else NO_FETCHERS))),
            Rec(rec.item.(status := FetchExhausted), rec.log))
    else Point(Fetching(url, next.value, visited + {next.value}, idx, 0), rec)
  }

  /** After a successful fetch. */
  function Accept(s: Setup, f: Adapter, result: RetrievalResult, rec: Rec): Point {
    if Unchanged(rec.item, result) then
      Point(Saving(Returned(Success(result))), Rec(rec.item.(status := Resolved), rec.log))
    else
      match ParserFor(s, f.name, result.contentType)
      case Some(p) =>
        if result.rawBytes.None? then
          Point(Leaving(Returned(Failure(RetrievalError(UnsupportedFormat, NO_BYTES_MESSAGE, p.name)))), rec)
        else Point(Parsing(p, result.rawBytes.value, result.contentType), rec)
      case None =>
        Point(Saving(Returned(Success(result))),
              Rec(rec.item.(lastContentHash := Some(result.contentHash), status := Resolved), rec.log))
  }

  /** Before the next searcher, or after the last one. */
  function AskNext(searchers: seq<Adapter>, rec: Rec): Point {
    if searchers == [] then Point(Saving(Nothing), Rec(rec.item.(status := Unresolved), rec.log))
    else Point(Searching(searchers[0], searchers[1..]), rec)
  }

  /** Before the next hit that was not seen yet, or on to the next searcher. */
  function JudgeNext(hits: seq<Candidate>, later: seq<Adapter>, rec: Rec): Point {
    if hits == [] then AskNext(later, rec)
    else if hits[0].url in rec.item.discoveredUrlsSeen then JudgeNext(hits[1..], later, rec)
    else Point(Judging(hits[0], hits[1..], later), rec)
  }

  /** From taking the lock to the first await. */
  function Begin(s: Setup, section: Section, rec: Rec): Point {
    match section
    case TrackA =>
      if rec.item.currentSources == [] then Point(Leaving(Raised), rec)
      else if s.fetchers == [] then Point(Leaving(Returned(Failure(NO_FETCHERS))), rec)
      else TryNext(rec.item.currentSources[0], Some(s.fetchers[0]), {}, 0, None, rec)
    case TrackB => AskNext(s.searchers, rec)
  }

  function Note(rec: Rec, e: Event): Rec {
    Rec(rec.item, rec.log + [e])
  }

  /** One await, and the code up to the next one. */
  function Advance(w: World, s: Setup, pause: Pause, rec: Rec): Point
    requires !pause.Leaving?
  {
    match pause
    case Fetching(url, f, visited, idx, attempt) =>
      var o := w.fetch(rec.log, f, url);
      var rec' := Note(rec, Fetched(f, url, o));
      if Retries(s.config, o, attempt) then Point(Sleeping(url, f, visited, idx, attempt), rec')
      else
        (match o
         case Success(result) => Accept(s, f, result, rec')
         case Failure(e) => TryNext(url, Successor(s, f, idx, e.errorType), visited, NextIdx(s, idx), Some(e), rec'))
    case Sleeping(url, f, visited, idx, attempt) =>
      Point(Fetching(url, f, visited, idx, attempt + 1), Note(rec, Slept(Backoff(s.config, attempt))))
    case Parsing(p, data, mime) =>
      var o := w.parse(rec.log, p, data, mime);
      Point(Leaving(Returned(o)), Note(rec, Parsed(p, data, mime, o)))
    case Searching(searcher, later) =>
      var n := s.config.candidateCount;
      var hits := w.search(rec.log, searcher, rec.item.queryHint, n);
      JudgeNext(hits, later, Note(rec, Searched(searcher, rec.item.queryHint, n, hits)))
    case Judging(c, more, later) =>
      var trusted := w.isTrusted(rec.log, c);
      var rec' := Note(rec, Judged(c, trusted));
      if trusted then Point(Saving(Found(c)), Rec(Merge(rec'.item, c.url), rec'.log))
      else JudgeNext(more, later, rec')
    case Saving(reply) => Point(Leaving(reply), Save(rec))
  }

  lemma BeginSection(s: Setup, section: Section, rec: Rec)
    ensures SectionOf(Begin(s, section, rec).pause) == section
    ensures Begin(s, section, rec).rec.log == rec.log
  {
  }

  lemma {:induction false} JudgeNextSection(hits: seq<Candidate>, later: seq<Adapter>, rec: Rec)
    ensures SectionOf(JudgeNext(hits, later, rec).pause) == TrackB
    ensures JudgeNext(hits, later, rec).rec.log == rec.log
  {
    if hits != [] && hits[0].url in rec.item.discoveredUrlsSeen {
      JudgeNextSection(hits[1..], later, rec);
    } else {
    }
  }

  /** One await stays in its section and is noted in the log once. */
  lemma AdvanceSection(w: World, s: Setup, pause: Pause, rec: Rec)
    requires !pause.Leaving?
    ensures SectionOf(Advance(w, s, pause, rec).pause) == SectionOf(pause)
    ensures |Advance(w, s, pause, rec).rec.log| == |rec.log| + 1
  {
    match pause
    case Fetching(_, _, _, _, _) =>
    case Sleeping(_, _, _, _, _) =>
    case Parsing(_, _, _) =>
    case Searching(searcher, later) =>
      var n := s.config.candidateCount;
      var hits := w.search(rec.log, searcher, rec.item.queryHint, n);
      JudgeNextSection(hits, later, Note(rec, Searched(searcher, rec.item.queryHint, n, hits)));
    case Judging(c, more, later) =>
      JudgeNextSection(more, later, Note(rec, Judged(c, w.isTrusted(rec.log, c))));
    case Saving(_) =>
  }

  // ----- Tasks and the system ------------------------------------------------------

  /** Which method of the router a task calls. */
  datatype Entry = ResolveKnownSource | DiscoverSource | ResolveItem

  datatype Phase =
    | Ready
    | Waiting(section: Section)
    | Inside(pause: Pause)
    | Reviewing
    | Finished(reply: Reply)

  /** `sourceless` records that the joint entry point found no source; `fetches` counts its own fetches. */
  datatype Task = Task(id: string, entry: Entry, phase: Phase, sourceless: bool, fetches: nat)

  /** One taking of a lock. */
  datatype Turn = Turn(task: nat, section: Section)

  /** An item, who holds its lock, and the history of the lock: turns taken, and replies of those that ended. */
  datatype Cell = Cell(rec: Rec, holder: Option<nat>, turns: seq<Turn>, replies: seq<Reply>)

  /** One step of task number t on its item. A task that has to wait, or has finished, stays as it is. */
  function Act(w: World, s: Setup, t: nat, task: Task, cell: Cell): (Task, Cell) {
    match task.phase
    case Ready =>
      (match task.entry
       case ResolveKnownSource => (task.(phase := Waiting(TrackA)), cell)
       case DiscoverSource => (task.(phase := Waiting(TrackB)), cell)
       case ResolveItem =>
         if cell.rec.item.currentSources != [] then (task.(phase := Waiting(TrackA)), cell)
         else (task.(phase := Waiting(TrackB), sourceless := true), cell))
    case Waiting(section) =>
      if cell.holder.Some? then (task, cell)
      else
        var start := Begin(s, section, cell.rec);
        (task.(phase := Inside(start.pause)),
         cell.(rec := start.rec, holder := Some(t), turns := cell.turns + [Turn(t, section)]))
    case Inside(pause) =>
      if pause.Leaving? then
        var next := if task.entry == ResolveItem && pause.reply.Found? then Reviewing else Finished(pause.reply);
        (task.(phase := next), cell.(holder := None, replies := cell.replies + [pause.reply]))
      else
        var next := Advance(w, s, pause, cell.rec);
        (task.(phase := Inside(next.pause), fetches := task.fetches + if pause.Fetching? then 1 else 0),
         cell.(rec := next.rec))
    case Reviewing =>
      if cell.rec.item.status == PendingReview && !s.config.requireReview then (task.(phase := Waiting(TrackA)), cell)
      else (task.(phase := Finished(Nothing)), cell)
    case Finished(_) => (task, cell)
  }

  /** One router in its surroundings: each item has adapters of its own behaviour. */
  datatype Scene = Scene(setup: Setup, worlds: string -> World)

  datatype System = System(cells: map<string, Cell>, tasks: seq<Task>)

  /** A scheduled task takes a step; a number without a task, or a task without an item, does nothing. */
  function Step(scene: Scene, sys: System, t: nat): System {
    if t >= |sys.tasks| || sys.tasks[t].id !in sys.cells then sys
    else
      var id := sys.tasks[t].id;
      var (task, cell) := Act(scene.worlds(id), scene.setup, t, sys.tasks[t], sys.cells[id]);
      System(sys.cells[id := cell], sys.tasks[t := task])
  }

  /** The system after a schedule. */
  function After(scene: Scene, sys: System, schedule: seq<nat>): System {
    if schedule == [] then sys
    else Step(scene, After(scene, sys, schedule[..|schedule| - 1]), schedule[|schedule| - 1])
  }

  /** No lock is held, no turn was taken, and no task has begun. */
  ghost predicate Initial(sys: System) {
    && (forall id :: id in sys.cells ==> sys.cells[id] == Cell(sys.cells[id].rec, None, [], []))
    && forall t :: 0 <= t < |sys.tasks| ==>
         sys.tasks[t] == Task(sys.tasks[t].id, sys.tasks[t].entry, Ready, false, 0)
  }

  lemma {:induction false} AfterMore(scene: Scene, sys: System, a: seq<nat>, b: seq<nat>)
    ensures After(scene, sys, a + b) == After(scene, After(scene, sys, a), b)
  {
    if b == [] {
      assert a + b == a;
    } else {
      assert (a + b)[..|a + b| - 1] == a + b[..|b| - 1];
      AfterMore(scene, sys, a, b[..|b| - 1]);
    }
  }
}
