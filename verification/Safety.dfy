/** What holds of every item at every point of every interleaving, for items that start in order, such as fresh ones. */
module Safety {
  import opened Wrappers
  import opened Results
  import opened Item
  import opened World
  import opened Setup
  import opened TrackB
  import opened Discovery
  import opened Tasks
  import opened Serialisability
  import opened Progress
  import opened Sources

  // ----- Items that are in order --------------------------------------------------------

  /** At most one source; staged alternates without repetition and apart from it; together exactly what was seen. */
  ghost predicate Tidy(item: ItemView) {
    && |item.currentSources| <= 1
    && (forall i, j :: 0 <= i < j < |item.candidateSources| ==> item.candidateSources[i] != item.candidateSources[j])
    && Disjoint(item)
    && (forall u :: u in item.discoveredUrlsSeen <==> u in item.currentSources || u in item.candidateSources)
  }

  /** RESOLVED, FETCH_EXHAUSTED and PENDING_REVIEW are for items with a source. */
  ghost predicate Grounded(item: ItemView) {
    item.status in {Resolved, FetchExhausted, PendingReview} ==> item.currentSources != []
  }

  ghost predicate InOrder(item: ItemView) {
    Tidy(item) && Grounded(item)
  }

  /** The url was judged trusted at some point of the log, from a position on. */
  ghost predicate Vouched(log: Log, from: nat, url: string) {
    exists i :: from <= i < |log| && log[i].Judged? && log[i].trusted && log[i].candidate.url == url
  }

  /** The item is in order, and every url that counts as seen since a record of it was judged trusted since then. */
  ghost predicate Safe(first: Rec, rec: Rec) {
    && InOrder(rec.item) && first.log <= rec.log
    && forall u :: u in rec.item.discoveredUrlsSeen && u !in first.item.discoveredUrlsSeen ==>
         Vouched(rec.log, |first.log|, u)
  }

  /** A fresh item is in order, also with a registered source if this counts as seen. */
  lemma FreshIsInOrder(id: string, queryHint: string, url: string)
    ensures InOrder(FreshItem(id, queryHint))
    ensures InOrder(FreshItem(id, queryHint).(currentSources := [url], discoveredUrlsSeen := {url}))
  {
  }

  // ----- One step -----------------------------------------------------------------------

  lemma StillVouched(log: Log, log': Log, from: nat, url: string)
    requires log <= log' && Vouched(log, from, url)
    ensures Vouched(log', from, url)
  {
    var i :| from <= i < |log| && log[i].Judged? && log[i].trusted && log[i].candidate.url == url;
    assert log'[i] == log[i];
  }

  lemma MergeIsTidy(item: ItemView, url: string)
    requires Tidy(item) && url !in item.discoveredUrlsSeen
    ensures Tidy(Merge(item, url)) && |Merge(item, url).discoveredUrlsSeen| == |item.discoveredUrlsSeen| + 1
  {
    var item' := Merge(item, url);
    if item.currentSources != [] {
      assert item'.candidateSources == item.candidateSources + [url];
      assert forall i :: 0 <= i < |item.candidateSources| ==> item.candidateSources[i] in item.candidateSources;
    }
  }

  lemma MergeIsSafe(first: Rec, rec: Rec, rec': Rec, c: Candidate)
    requires Safe(first, rec) && Merged(rec, rec', c)
    ensures Safe(first, rec') && |rec'.item.discoveredUrlsSeen| == |rec.item.discoveredUrlsSeen| + 1
  {
    MergeIsTidy(rec.item, c.url);
    assert rec'.log[|rec.log|] == Judged(c, true);
    assert Vouched(rec'.log, |first.log|, c.url);
    forall u | Vouched(rec.log, |first.log|, u) ensures Vouched(rec'.log, |first.log|, u) {
      StillVouched(rec.log, rec'.log, |first.log|, u);
    }
    hide Tidy, Vouched;
  }

  /** An item in order stays in order, and every new seen url is counted by one find. */
  lemma EvolvesSafely(first: Rec, rec: Rec, finds: nat, rec': Rec, finds': nat)
    requires Safe(first, rec) && Evolves(rec, finds, rec', finds')
    ensures Safe(first, rec')
    ensures |rec'.item.discoveredUrlsSeen| + finds == |rec.item.discoveredUrlsSeen| + finds'
  {
    if finds' == finds {
      forall u | Vouched(rec.log, |first.log|, u) ensures Vouched(rec'.log, |first.log|, u) {
        StillVouched(rec.log, rec'.log, |first.log|, u);
      }
      hide Vouched;
    } else {
      var c :| Merged(rec, rec', c);
      MergeIsSafe(first, rec, rec', c);
    }
  }

  // ----- Every interleaving ---------------------------------------------------------------

  /** A system that starts from items in order. */
  ghost predicate SafeStart(first: System) {
    Initial(first) && forall id :: id in first.cells ==> InOrder(first.cells[id].rec.item)
  }

  /** The item is in order, its new urls are trusted, and there are as many of them as there were finds. */
  ghost predicate CellSafe(first: Rec, cell: Cell, tasks: seq<Task>) {
    && Safe(first, cell.rec)
    && |cell.rec.item.discoveredUrlsSeen| == |first.item.discoveredUrlsSeen| + FindsSoFar(cell, tasks)
  }

  ghost predicate AllSafe(first: System, sys: System) {
    forall id :: id in sys.cells ==> id in first.cells && CellSafe(first.cells[id].rec, sys.cells[id], sys.tasks)
  }

  lemma SafeAtStart(rec: Rec)
    requires InOrder(rec.item)
    ensures Safe(rec, rec)
  {
  }

  lemma NoFindsYet(cell: Cell, tasks: seq<Task>)
    requires cell.replies == [] && cell.holder.None?
    ensures FindsSoFar(cell, tasks) == 0
  {
  }

  lemma StepIsSafe(first: System, sys: System, sys': System)
    requires AllSafe(first, sys) && AllEvolve(sys, sys') && sys.cells.Keys == sys'.cells.Keys
    ensures AllSafe(first, sys')
  {
    hide Safe, FindsSoFar, Evolves;
    forall id | id in sys'.cells
      ensures id in first.cells && CellSafe(first.cells[id].rec, sys'.cells[id], sys'.tasks)
    {
      assert id in sys.cells;
      EvolvesSafely(first.cells[id].rec, sys.cells[id].rec, FindsSoFar(sys.cells[id], sys.tasks),
                    sys'.cells[id].rec, FindsSoFar(sys'.cells[id], sys'.tasks));
    }
  }

  /**
   In every interleaving, at every point: each item has at most one source, distinct staged alternates apart
   from it, both together being the seen urls; the new ones among these were judged trusted, and there are as
   many of them as finds; and the status fits.
   */
  lemma {:induction false} EveryInterleavingIsSafe(scene: Scene, first: System, schedule: seq<nat>)
    requires SafeStart(first)
    ensures AllSafe(first, After(scene, first, schedule))
  {
    hide Safe, FindsSoFar, Evolves;
    if schedule == [] {
      forall id | id in first.cells ensures CellSafe(first.cells[id].rec, first.cells[id], first.tasks) {
        assert first.cells[id] == Cell(first.cells[id].rec, None, [], []);
        SafeAtStart(first.cells[id].rec);
        NoFindsYet(first.cells[id], first.tasks);
      }
    } else {
      var init, t := schedule[..|schedule| - 1], schedule[|schedule| - 1];
      EveryInterleavingIsSafe(scene, first, init);
      EveryStepEvolves(scene, first, init, t);
      AlwaysConsistent(scene, first, init);
      AlwaysConsistent(scene, first, schedule);
      assert init + [t] == schedule;
      hide After, CellSafe, AllEvolve;
      StepIsSafe(first, After(scene, first, init), After(scene, first, schedule));
    }
  }

  // ----- Sources and staged alternates ------------------------------------------------------

  lemma EvolvesApart(rec: Rec, finds: nat, rec': Rec, finds': nat)
    requires Disjoint(rec.item) && Guarded(rec.item) && Evolves(rec, finds, rec', finds')
    ensures Disjoint(rec'.item) && Guarded(rec'.item)
  {
    if finds' != finds {
      var c :| Merged(rec, rec', c);
      MergeKeepsApart(rec.item, c.url);
    }
  }

  lemma {:induction false} AlwaysApart(scene: Scene, first: System, schedule: seq<nat>, id: string)
    requires Initial(first) && id in first.cells
    requires Disjoint(first.cells[id].rec.item) && Guarded(first.cells[id].rec.item)
    ensures var sys := After(scene, first, schedule);
            id in sys.cells && Disjoint(sys.cells[id].rec.item) && Guarded(sys.cells[id].rec.item)
  {
    hide Disjoint, Guarded, Evolves;
    if schedule == [] {
    } else {
      var init, t := schedule[..|schedule| - 1], schedule[|schedule| - 1];
      AlwaysApart(scene, first, init, id);
      EveryStepEvolves(scene, first, init, t);
      assert init + [t] == schedule;
      var sys, sys' := After(scene, first, init), After(scene, first, schedule);
      EvolvesApart(sys.cells[id].rec, FindsSoFar(sys.cells[id], sys.tasks),
                   sys'.cells[id].rec, FindsSoFar(sys'.cells[id], sys'.tasks));
    }
  }

  /**
   In every interleaving, an item whose exposed urls count as seen at the start has no url both as a source and
   staged, and no staged alternate was ever fetched.
   */
  lemma StagedIsNotFetched(scene: Scene, first: System, schedule: seq<nat>, id: string)
    requires Initial(first) && id in first.cells
    requires Disjoint(first.cells[id].rec.item) && Guarded(first.cells[id].rec.item)
    ensures var sys := After(scene, first, schedule);
            && id in sys.cells && Disjoint(sys.cells[id].rec.item)
            && var log := sys.cells[id].rec.log;
               forall i :: |first.cells[id].rec.log| <= i < |log| && log[i].Fetched? ==>
                 log[i].url !in sys.cells[id].rec.item.candidateSources
  {
    AlwaysApart(scene, first, schedule, id);
    OnlyTheSourceIsFetched(scene, first, [], schedule, id);
    assert [] + schedule == schedule;
    assert After(scene, first, []) == first;
    hide After, Guarded;
  }

  /** A system with one item and one caller, who asks for a discovery. */
  function OneDiscovery(rec: Rec): System {
    System(map["" := Cell(rec, None, [], [])], [Task("", DiscoverSource, Ready, false, 0)])
  }

  /** A run of that system to its end. */
  lemma DiscoveryRun(x: Steady, s: Setup, rec: Rec) returns (scene: Scene, schedule: seq<nat>)
    ensures scene.setup == s && Initial(OneDiscovery(rec))
    ensures var sys := After(scene, OneDiscovery(rec), schedule);
            "" in sys.cells && sys.cells[""].rec == Discover(x.AsWorld(), s, rec).rec
  {
    scene := Scene(s, id => x.AsWorld());
    var first := OneDiscovery(rec);
    AlwaysConsistent(scene, first, []);
    schedule := EveryRunCanEnd(scene, first, first);
    AloneIsSequential(scene, first, schedule, "");
    AlwaysConsistent(scene, first, schedule);
    hide After, Discover, TaskConsistent, CellConsistent;
  }

  /** All runs of all systems around a router keep the sources of an item with this start apart from the staged. */
  ghost predicate EveryRunKeepsApart(s: Setup, rec: Rec) {
    forall scene: Scene, first: System, schedule: seq<nat>, id: string ::
      scene.setup == s && Initial(first) && id in first.cells && first.cells[id].rec == rec
      && id in After(scene, first, schedule).cells ==>
        Disjoint(After(scene, first, schedule).cells[id].rec.item)
  }

  /**
   Over every interleaving, and whatever the adapters do, sources and staged alternates are kept apart exactly
   when the exposed urls all count as seen at the start.
   */
  lemma EveryRunKeepsApartExactly(s: Setup, rec: Rec)
    requires s.searchers != [] && Disjoint(rec.item)
    ensures EveryRunKeepsApart(s, rec) <==> Guarded(rec.item)
  {
    if Guarded(rec.item) {
      forall scene: Scene, first: System, schedule: seq<nat>, id: string |
          scene.setup == s && Initial(first) && id in first.cells && first.cells[id].rec == rec
        ensures id in After(scene, first, schedule).cells ==>
                  Disjoint(After(scene, first, schedule).cells[id].rec.item)
      {
        AlwaysApart(scene, first, schedule, id);
      }
    } else {
      var x := UnguardedClash(s, rec);
      var scene, schedule := DiscoveryRun(x, s, rec);
      hide After, Discover, Disjoint;
      assert OneDiscovery(rec).cells[""].rec == rec;
    }
  }
}
