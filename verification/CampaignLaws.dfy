/** What holds of every campaign run, whatever the fixtures, the replays and the missions answer. */
module CampaignLaws {
  import opened Wrappers
  import opened Campaign

  // ---------- each setup is restored before the next ----------

  datatype Phase = Closed | Opened(job: Job) | Used(job: Job) | Broken

  function Next(p: Phase, e: Event): Phase {
    match e
    case Setup(job) => if p.Closed? && job.fixtures then Opened(job) else Broken
    case Body(job, _) =>
      if p.Closed? && !job.fixtures then Closed
      else if p == Opened(job) then Used(job)
      else Broken
    case Restore(job) => if p == Opened(job) || p == Used(job) then Closed else Broken
  }

  function PhaseOf(t: Trace): Phase {
    if t == [] then Closed else Next(PhaseOf(t[..|t| - 1]), t[|t| - 1])
  }

  lemma PhaseSnoc(t: Trace, e: Event)
    ensures PhaseOf(t + [e]) == Next(PhaseOf(t), e)
  {
    assert (t + [e])[..|t|] == t;
  }

  lemma BracketCloses<T>(w: World, t: Trace, job: Job, work: Work, body: nat -> Option<T>)
    requires PhaseOf(t) == Closed
    ensures PhaseOf(Bracket(w, t, job, work, body).trace) == Closed
  {
    var t1 := t + [Setup(job)];
    PhaseSnoc(t, Body(job, work));
    PhaseSnoc(t, Setup(job));
    PhaseSnoc(t1, Restore(job));
    PhaseSnoc(t1, Body(job, work));
    PhaseSnoc(t1 + [Body(job, work)], Restore(job));
  }

  lemma {:induction false} DiscoveryCloses(w: World, s: Found, jobs: seq<Job>, n: nat, blocked: set<string>,
      checked: bool)
    requires n <= |jobs| && PhaseOf(s.trace) == Closed
    ensures PhaseOf(DiscoverAll(w, s, jobs, n, blocked, checked).trace) == Closed
  {
    if n > 0 {
      DiscoveryCloses(w, s, jobs, n - 1, blocked, checked);
      BracketCloses(w, DiscoverAll(w, s, jobs, n - 1, blocked, checked).trace, jobs[n - 1], Replaying, w.replay);
    }
  }

  lemma {:induction false} MissionsClose(w: World, s: Progress, cells: seq<Cell>, stale: map<string, string>)
    requires PhaseOf(s.trace) == Closed
    ensures PhaseOf(RunCells(w, s, cells, stale).trace) == Closed
  {
    if cells != [] {
      var n := |cells| - 1;
      MissionsClose(w, s, cells[..n], stale);
      var c := cells[n];
      BracketCloses(w, RunCells(w, s, cells[..n], stale).trace, c.job, Exploring(c.anchor, c.strategy), w.explore);
    }
  }

  /** However the run ends, also by an exception, no fixture is left set up. */
  lemma EveryRunCloses(w: World, jobs: seq<Job>, opts: Options)
    ensures PhaseOf(CampaignRun(w, jobs, opts).0) == Closed
  {
    var f := DiscoveryOf(w, jobs, opts);
    var problems := TargetProblems(jobs, opts);
    DiscoveryCloses(w, Found([], [], map[], problems, false), jobs, |jobs|, JobsOf(problems), opts.preflight.Check?);
    MissionsClose(w, Progress(f.trace, [], false), Plan(jobs), f.stale);
  }

  lemma {:induction false} NeverBroken(t: Trace, k: nat)
    requires k <= |t| && PhaseOf(t) != Broken
    ensures PhaseOf(t[..k]) != Broken
    decreases |t|
  {
    if k == |t| {
      assert t[..k] == t;
    } else {
      NeverBroken(t[..|t| - 1], k);
      assert t[..|t| - 1][..k] == t[..k];
    }
  }

  lemma PhaseAt(t: Trace, k: nat)
    requires k < |t| && PhaseOf(t) == Closed
    ensures PhaseOf(t[..k + 1]) == Next(PhaseOf(t[..k]), t[k]) && PhaseOf(t[..k + 1]) != Broken
  {
    NeverBroken(t, k + 1);
    assert t[..k + 1][..k] == t[..k];
  }

  /** In a closed trace a setup is followed by its restore, with at most its own body between them. */
  lemma SetupIsRestored(t: Trace, i: nat)
    requires PhaseOf(t) == Closed && i < |t| && t[i].Setup?
    ensures i + 1 < |t|
    ensures t[i + 1] == Restore(t[i].job)
          || (i + 2 < |t| && t[i + 1].Body? && t[i + 1].job == t[i].job && t[i + 2] == Restore(t[i].job))
  {
    PhaseAt(t, i);
    assert t[..|t|] == t;
    PhaseAt(t, i + 1);
    if t[i + 1].Body? {
      assert PhaseOf(t[..i + 2]) == Used(t[i].job);
      PhaseAt(t, i + 2);
    }
  }

  /** Each restore belongs to exactly one setup, and each body of a job with fixtures is enclosed by its own. */
  lemma RestoreHasSetup(t: Trace, i: nat)
    requires PhaseOf(t) == Closed && i < |t| && (t[i].Restore? || (t[i].Body? && t[i].job.fixtures))
    ensures i > 0 && (t[i - 1] == Setup(t[i].job)
          || (t[i].Restore? && i > 1 && t[i - 1].Body? && t[i - 1].job == t[i].job && t[i - 2] == Setup(t[i].job)))
    ensures t[i].Body? ==> i + 1 < |t| && t[i + 1] == Restore(t[i].job)
  {
    PhaseAt(t, i);
    assert t[..0] == [];
    PhaseAt(t, i - 1);
    if PhaseOf(t[..i]).Used? {
      assert i > 1;
      PhaseAt(t, i - 2);
    }
    if t[i].Body? {
      SetupIsRestored(t, i - 1);
    }
  }

  // ---------- the missions are the plan ----------

  /** `totalRuns` as the validation counts it. */
  method TotalRuns(jobs: seq<Job>) returns (totalRuns: nat)
    ensures totalRuns == |Plan(jobs)|
  {
    totalRuns := 0;
    for i := 0 to |jobs|
      invariant totalRuns == |JobCells(jobs, i)|
    {
      AnchorCellsCount(jobs[i], |jobs[i].anchors|);
      totalRuns := totalRuns + |jobs[i].anchors| * |jobs[i].strategies|;
    }
  }

  lemma {:induction false} StrategyCellsAt(job: Job, anchor: string, n: nat)
    requires n <= |job.strategies|
    ensures |StrategyCells(job, anchor, n)| == n
    ensures forall k :: 0 <= k < n ==> StrategyCells(job, anchor, n)[k] == Cell(job, anchor, job.strategies[k])
  {
    if n > 0 { StrategyCellsAt(job, anchor, n - 1); }
  }

  lemma {:induction false} AnchorCellsCount(job: Job, n: nat)
    requires n <= |job.anchors|
    ensures |AnchorCells(job, n)| == n * |job.strategies|
  {
    if n > 0 {
      AnchorCellsCount(job, n - 1);
      StrategyCellsAt(job, job.anchors[n - 1], |job.strategies|);
      assert (n - 1) * |job.strategies| + |job.strategies| == n * |job.strategies|;
    }
  }

  ghost predicate Covers(m: Mission, cell: Cell) {
    m.job == cell.job.id && m.anchor == cell.anchor && m.strategy == cell.strategy
  }

  ghost predicate Skips(m: Mission, cell: Cell, stale: map<string, string>) {
    (m.status.Skipped? <==> cell.job.id in stale) && (m.restored <==> cell.job.fixtures && !m.status.Skipped?)
  }

  lemma {:induction false} MissionsCover(w: World, s: Progress, cells: seq<Cell>, stale: map<string, string>)
    requires s.missions == [] && !RunCells(w, s, cells, stale).threw
    ensures var p := RunCells(w, s, cells, stale);
            && |p.missions| == |cells|
            && forall i :: 0 <= i < |cells| ==> Covers(p.missions[i], cells[i]) && Skips(p.missions[i], cells[i], stale)
  {
    if cells != [] {
      MissionsCover(w, s, cells[..|cells| - 1], stale);
    }
  }

  /** The discovery entry of a job that did not replay. */
  ghost predicate Stale(discovery: seq<Discovery>, id: string) {
    exists i :: 0 <= i < |discovery| && discovery[i].job == id && !discovery[i].verdict.ReplayOk?
  }

  lemma StaleSnoc(discovery: seq<Discovery>, d: Discovery, id: string)
    ensures Stale(discovery + [d], id) <==> Stale(discovery, id) || (d.job == id && !d.verdict.ReplayOk?)
  {
    if Stale(discovery, id) {
      var i :| 0 <= i < |discovery| && discovery[i].job == id && !discovery[i].verdict.ReplayOk?;
      assert (discovery + [d])[i] == discovery[i];
    }
    assert (discovery + [d])[|discovery|] == d;
  }

  ghost predicate StaleExactly(f: Found) {
    forall id :: id in f.stale <==> Stale(f.discovery, id)
  }

  lemma StaleStep(w: World, s: Found, job: Job, blocked: set<string>, checked: bool)
    requires StaleExactly(s)
    ensures StaleExactly(Discover(w, s, job, blocked, checked))
  {
    var run := Bracket(w, s.trace, job, Replaying, w.replay);
    if !s.threw && job.id !in blocked && !run.attempt.Threw? {
      var d := Judge(job, run.attempt);
      forall id | true ensures id in Discover(w, s, job, blocked, checked).stale <==> Stale(s.discovery + [d], id) {
        StaleSnoc(s.discovery, d, id);
      }
    }
  }

  lemma {:induction false} StaleIsExact(w: World, s: Found, jobs: seq<Job>, n: nat, blocked: set<string>, checked: bool)
    requires n <= |jobs| && StaleExactly(s)
    ensures StaleExactly(DiscoverAll(w, s, jobs, n, blocked, checked))
  {
    if n > 0 {
      StaleIsExact(w, s, jobs, n - 1, blocked, checked);
      StaleStep(w, DiscoverAll(w, s, jobs, n - 1, blocked, checked), jobs[n - 1], blocked, checked);
    }
  }

  lemma DiscoveryStale(w: World, jobs: seq<Job>, opts: Options)
    ensures StaleExactly(DiscoveryOf(w, jobs, opts))
  {
    var problems := TargetProblems(jobs, opts);
    StaleIsExact(w, Found([], [], map[], problems, false), jobs, |jobs|, JobsOf(problems), opts.preflight.Check?);
  }

  /**
   * A finished campaign has one mission per job, anchor and strategy, in plan order; a mission is skipped
   * exactly when its job's discovery failed, and restored exactly when its job has fixtures and it was not.
   */
  lemma MissionsAreThePlan(w: World, jobs: seq<Job>, opts: Options)
    requires CampaignRun(w, jobs, opts).1.Completed?
    ensures var r := CampaignRun(w, jobs, opts).1;
            && |r.missions| == |Plan(jobs)|
            && (forall i :: 0 <= i < |r.missions| ==> Covers(r.missions[i], Plan(jobs)[i]))
            && (forall i :: 0 <= i < |r.missions| ==>
                (r.missions[i].status.Skipped? <==> Stale(r.discovery, r.missions[i].job)))
            && (forall i :: 0 <= i < |r.missions| ==>
                (r.missions[i].restored <==> Plan(jobs)[i].job.fixtures && !r.missions[i].status.Skipped?))
  {
    var f := DiscoveryOf(w, jobs, opts);
    DiscoveryStale(w, jobs, opts);
    MissionsCover(w, Progress(f.trace, [], false), Plan(jobs), f.stale);
  }

  lemma AnchorCellsAt(job: Job, n: nat, a: nat, k: nat)
    requires a < n <= |job.anchors| && k < |job.strategies|
    ensures a * |job.strategies| + k < |AnchorCells(job, n)|
    ensures AnchorCells(job, n)[a * |job.strategies| + k] == Cell(job, job.anchors[a], job.strategies[k])
  {
    AnchorCellsCount(job, n - 1);
    AnchorCellsCount(job, n);
    StrategyCellsAt(job, job.anchors[n - 1], |job.strategies|);
    if a < n - 1 {
      AnchorCellsAt(job, n - 1, a, k);
    }
  }

  lemma {:induction false} JobCellsPrefix(jobs: seq<Job>, j: nat, n: nat)
    requires j <= n <= |jobs|
    ensures JobCells(jobs, j) <= JobCells(jobs, n)
  {
    if j < n { JobCellsPrefix(jobs, j, n - 1); }
  }

  /** Where the mission of a job's anchor and strategy stands in the plan. */
  lemma PlanAt(jobs: seq<Job>, j: nat, a: nat, k: nat)
    requires j < |jobs| && a < |jobs[j].anchors| && k < |jobs[j].strategies|
    ensures var at := |JobCells(jobs, j)| + (a * |jobs[j].strategies| + k);
            at < |Plan(jobs)| && Plan(jobs)[at] == Cell(jobs[j], jobs[j].anchors[a], jobs[j].strategies[k])
  {
    AnchorCellsAt(jobs[j], |jobs[j].anchors|, a, k);
    JobCellsPrefix(jobs, j + 1, |jobs|);
  }

  // ---------- what actually ran ----------

  /** The missions whose body ran, in order. */
  function Explorations(t: Trace): seq<Cell> {
    if t == [] then []
    else
      var front, e := Explorations(t[..|t| - 1]), t[|t| - 1];
      if e.Body? && e.work.Exploring? then front + [Cell(e.job, e.work.anchor, e.work.strategy)] else front
  }

  lemma ExplorationsSnoc(t: Trace, e: Event)
    ensures Explorations(t + [e]) == Explorations(t)
          + if e.Body? && e.work.Exploring? then [Cell(e.job, e.work.anchor, e.work.strategy)] else []
  {
    assert (t + [e])[..|t|] == t;
  }

  /** The cells whose missions were neither skipped nor stopped by their setup. */
  function Executed(cells: seq<Cell>, missions: seq<Mission>): seq<Cell>
    requires |cells| == |missions|
  {
    if cells == [] then []
    else
      var n := |cells| - 1;
      var front := Executed(cells[..n], missions[..n]);
      if missions[n].status.Ran? || missions[n].status.Failed? then front + [cells[n]] else front
  }

  lemma BodyExplores(t: Trace, job: Job, work: Work)
    ensures work.Replaying? ==> Explorations(t + [Body(job, work)]) == Explorations(t)
    ensures work.Exploring? ==>
          Explorations(t + [Body(job, work)]) == Explorations(t) + [Cell(job, work.anchor, work.strategy)]
  {
    ExplorationsSnoc(t, Body(job, work));
  }

  lemma FixtureExplores(t: Trace, e: Event)
    requires !e.Body?
    ensures Explorations(t + [e]) == Explorations(t)
  {
    ExplorationsSnoc(t, e);
  }

  ghost predicate Shape(t: Trace, job: Job, work: Work, after: Trace, ran: bool) {
    if !ran then after == t + [Setup(job)] + [Restore(job)]
    else after == t + [Body(job, work)] || after == t + [Setup(job)] + [Body(job, work)] + [Restore(job)]
  }

  lemma BracketShape<T>(w: World, t: Trace, job: Job, work: Work, body: nat -> Option<T>)
    ensures var run := Bracket(w, t, job, work, body);
            && (Shape(t, job, work, run.trace, true) || Shape(t, job, work, run.trace, false))
            && (run.attempt.Done? ==> Shape(t, job, work, run.trace, true))
            && (run.attempt.SetupFailed? ==> Shape(t, job, work, run.trace, false))
  {
  }

  lemma ShapeExplores(t: Trace, job: Job, work: Work, after: Trace, ran: bool)
    requires Shape(t, job, work, after, ran)
    ensures work.Replaying? || !ran ==> Explorations(after) == Explorations(t)
    ensures work.Exploring? && ran ==> Explorations(after) == Explorations(t) + [Cell(job, work.anchor, work.strategy)]
  {
    var t1 := t + [Setup(job)];
    FixtureExplores(t, Setup(job));
    if !ran {
      FixtureExplores(t1, Restore(job));
    } else if after == t + [Body(job, work)] {
      BodyExplores(t, job, work);
    } else {
      BodyExplores(t1, job, work);
      FixtureExplores(t1 + [Body(job, work)], Restore(job));
    }
  }

  lemma BracketExplores<T>(w: World, t: Trace, job: Job, work: Work, body: nat -> Option<T>)
    ensures var run := Bracket(w, t, job, work, body);
            && (work.Replaying? ==> Explorations(run.trace) == Explorations(t))
            && (work.Exploring? && run.attempt.Done? ==>
                Explorations(run.trace) == Explorations(t) + [Cell(job, work.anchor, work.strategy)])
            && (run.attempt.SetupFailed? ==> Explorations(run.trace) == Explorations(t))
  {
    BracketShape(w, t, job, work, body);
    var after := Bracket(w, t, job, work, body).trace;
    if Shape(t, job, work, after, true) { ShapeExplores(t, job, work, after, true); }
    if Shape(t, job, work, after, false) { ShapeExplores(t, job, work, after, false); }
  }

  lemma ExecutedSnoc(cells: seq<Cell>, missions: seq<Mission>, c: Cell, m: Mission)
    requires |cells| == |missions|
    ensures Executed(cells + [c], missions + [m]) == Executed(cells, missions)
          + if m.status.Ran? || m.status.Failed? then [c] else []
  {
    assert (cells + [c])[..|cells|] == cells && (missions + [m])[..|missions|] == missions;
  }

  ghost predicate Explores(p: Progress, cells: seq<Cell>) {
    |p.missions| == |cells| && Explorations(p.trace) == Executed(cells, p.missions)
  }

  lemma MissionExplores(w: World, s: Progress, cells: seq<Cell>, c: Cell, stale: map<string, string>)
    requires Explores(s, cells) && !s.threw && !RunMission(w, s, c, stale).threw
    ensures Explores(RunMission(w, s, c, stale), cells + [c])
  {
    var work := Exploring(c.anchor, c.strategy);
    BracketExplores(w, s.trace, c.job, work, w.explore);
    var p := RunMission(w, s, c, stale);
    ExecutedSnoc(cells, s.missions, c, p.missions[|s.missions|]);
  }

  lemma {:induction false} MissionsExplore(w: World, s: Progress, cells: seq<Cell>, stale: map<string, string>)
    requires s.missions == [] && Explorations(s.trace) == [] && !RunCells(w, s, cells, stale).threw
    ensures Explores(RunCells(w, s, cells, stale), cells)
  {
    if cells != [] {
      var n := |cells| - 1;
      MissionsExplore(w, s, cells[..n], stale);
      MissionExplores(w, RunCells(w, s, cells[..n], stale), cells[..n], cells[n], stale);
      assert cells == cells[..n] + [cells[n]];
    }
  }

  lemma {:induction false} DiscoveryExploresNothing(w: World, s: Found, jobs: seq<Job>, n: nat, blocked: set<string>,
      checked: bool)
    requires n <= |jobs|
    ensures Explorations(DiscoverAll(w, s, jobs, n, blocked, checked).trace) == Explorations(s.trace)
  {
    if n > 0 {
      DiscoveryExploresNothing(w, s, jobs, n - 1, blocked, checked);
      BracketExplores(w, DiscoverAll(w, s, jobs, n - 1, blocked, checked).trace, jobs[n - 1], Replaying, w.replay);
    }
  }

  lemma FoundExploresNothing(w: World, jobs: seq<Job>, opts: Options)
    ensures Explorations(DiscoveryOf(w, jobs, opts).trace) == []
  {
    var problems := TargetProblems(jobs, opts);
    DiscoveryExploresNothing(w, Found([], [], map[], problems, false), jobs, |jobs|, JobsOf(problems),
        opts.preflight.Check?);
  }

  /** A finished campaign ran exactly the missions it reports as run or failed, each once and in plan order. */
  lemma ReportsWhatRan(w: World, jobs: seq<Job>, opts: Options)
    requires CampaignRun(w, jobs, opts).1.Completed?
    ensures var (t, r) := CampaignRun(w, jobs, opts);
            |r.missions| == |Plan(jobs)| && Explorations(t) == Executed(Plan(jobs), r.missions)
  {
    var f := DiscoveryOf(w, jobs, opts);
    FoundExploresNothing(w, jobs, opts);
    MissionsExplore(w, Progress(f.trace, [], false), Plan(jobs), f.stale);
  }

  /** A refused run executes no mission at all; a starved host does not even start a discovery. */
  lemma RefusedRunsNothing(w: World, jobs: seq<Job>, opts: Options)
    ensures var (t, r) := CampaignRun(w, jobs, opts);
            && (r.PreflightFailed? ==> Explorations(t) == [])
            && (r.HostStarved? ==> t == [])
  {
    FoundExploresNothing(w, jobs, opts);
  }

  /** The missions of a trace are planned ones, of jobs outside `stale`. */
  ghost predicate RunsOnly(t: Trace, cells: seq<Cell>, stale: map<string, string>) {
    forall c <- Explorations(t) :: c in cells && c.job.id !in stale
  }

  lemma BracketRuns(w: World, t: Trace, c: Cell, cells: seq<Cell>, stale: map<string, string>)
    requires RunsOnly(t, cells, stale) && c in cells && c.job.id !in stale
    ensures RunsOnly(Bracket(w, t, c.job, Exploring(c.anchor, c.strategy), w.explore).trace, cells, stale)
  {
    var work := Exploring(c.anchor, c.strategy);
    var after := Bracket(w, t, c.job, work, w.explore).trace;
    BracketShape(w, t, c.job, work, w.explore);
    ShapeExplores(t, c.job, work, after, Shape(t, c.job, work, after, true));
  }

  lemma MissionRunsOnly(w: World, s: Progress, cells: seq<Cell>, stale: map<string, string>, c: Cell)
    requires RunsOnly(s.trace, cells, stale) && c in cells
    ensures RunsOnly(RunMission(w, s, c, stale).trace, cells, stale)
  {
    if !s.threw && c.job.id !in stale { BracketRuns(w, s.trace, c, cells, stale); }
  }

  lemma {:induction false} CellsRunOnly(w: World, s: Progress, cells: seq<Cell>, stale: map<string, string>, n: nat)
    requires n <= |cells| && Explorations(s.trace) == []
    ensures RunsOnly(RunCells(w, s, cells[..n], stale).trace, cells, stale)
  {
    if n > 0 {
      CellsRunOnly(w, s, cells, stale, n - 1);
      assert cells[..n] == cells[..n - 1] + [cells[n - 1]];
      RunCellsSnoc(w, s, cells[..n - 1], cells[n - 1], stale);
      MissionRunsOnly(w, RunCells(w, s, cells[..n - 1], stale), cells, stale, cells[n - 1]);
    }
  }

  /** However a run ends, a job whose discovery failed runs no mission body, and nothing unplanned runs. */
  lemma StaleJobsRunNothing(w: World, jobs: seq<Job>, opts: Options, c: Cell)
    requires c in Explorations(CampaignRun(w, jobs, opts).0)
    ensures c in Plan(jobs) && !Stale(DiscoveryOf(w, jobs, opts).discovery, c.job.id)
  {
    var f, cells := DiscoveryOf(w, jobs, opts), Plan(jobs);
    FoundExploresNothing(w, jobs, opts);
    DiscoveryStale(w, jobs, opts);
    CellsRunOnly(w, Progress(f.trace, [], false), cells, f.stale, |cells|);
    assert cells[..|cells|] == cells;
  }

  /** A finished campaign reports the discovery that decided this. */
  lemma ReportsItsDiscovery(w: World, jobs: seq<Job>, opts: Options)
    requires CampaignRun(w, jobs, opts).1.Completed? || CampaignRun(w, jobs, opts).1.PreflightFailed?
    ensures CampaignRun(w, jobs, opts).1.discovery == DiscoveryOf(w, jobs, opts).discovery
  {
  }

  // ---------- how a run can end ----------

  /** No body and no restore throws, and a setup fails only as a fixture setup. */
  ghost predicate Throwless(w: World) {
    forall n: nat :: w.restores(n) && w.replay(n).Some? && w.explore(n).Some? && !w.setup(n).SetupThrew?
  }

  lemma {:induction false} DiscoveryEnds(w: World, s: Found, jobs: seq<Job>, n: nat, blocked: set<string>,
      checked: bool)
    requires n <= |jobs| && Throwless(w) && !s.threw
    ensures !DiscoverAll(w, s, jobs, n, blocked, checked).threw
  {
    if n > 0 { DiscoveryEnds(w, s, jobs, n - 1, blocked, checked); }
  }

  lemma {:induction false} MissionsEnd(w: World, s: Progress, cells: seq<Cell>, stale: map<string, string>)
    requires Throwless(w) && !s.threw
    ensures !RunCells(w, s, cells, stale).threw
  {
    if cells != [] { MissionsEnd(w, s, cells[..|cells| - 1], stale); }
  }

  /** When nothing throws, a campaign finishes unless the host is starved or a preflight problem refuses it. */
  lemma EndsExactly(w: World, jobs: seq<Job>, opts: Options)
    requires Throwless(w)
    ensures var r := CampaignRun(w, jobs, opts).1;
            && !r.Aborted?
            && (r.HostStarved? <==> Starved(opts))
            && (r.Completed? <==> !Starved(opts) && !Refuses(DiscoveryOf(w, jobs, opts), opts))
  {
    var problems := TargetProblems(jobs, opts);
    DiscoveryEnds(w, Found([], [], map[], problems, false), jobs, |jobs|, JobsOf(problems), opts.preflight.Check?);
    var f := DiscoveryOf(w, jobs, opts);
    MissionsEnd(w, Progress(f.trace, [], false), Plan(jobs), f.stale);
  }

  lemma {:induction false} ProblemsStay(w: World, s: Found, jobs: seq<Job>, n: nat, blocked: set<string>, checked: bool)
    requires n <= |jobs|
    ensures s.problems <= DiscoverAll(w, s, jobs, n, blocked, checked).problems
  {
    if n > 0 { ProblemsStay(w, s, jobs, n - 1, blocked, checked); }
  }

  /** A problem with any start URL or session refuses the campaign, whatever discovery sees later. */
  lemma TargetProblemRefuses(w: World, jobs: seq<Job>, opts: Options)
    requires TargetProblems(jobs, opts) != []
    ensures !CampaignRun(w, jobs, opts).1.Completed?
  {
    var problems := TargetProblems(jobs, opts);
    ProblemsStay(w, Found([], [], map[], problems, false), jobs, |jobs|, JobsOf(problems), opts.preflight.Check?);
  }

  ghost predicate Avoids(t: Trace, blocked: set<string>) {
    forall i :: 0 <= i < |t| ==> t[i].job.id !in blocked
  }

  lemma BracketAvoids<T>(w: World, t: Trace, job: Job, work: Work, body: nat -> Option<T>, blocked: set<string>)
    requires Avoids(t, blocked) && job.id !in blocked
    ensures Avoids(Bracket(w, t, job, work, body).trace, blocked)
  {
    BracketShape(w, t, job, work, body);
  }

  /** A job with a start URL or session problem is not replayed. */
  lemma {:induction false} BlockedIsNotReplayed(w: World, s: Found, jobs: seq<Job>, n: nat, blocked: set<string>,
      checked: bool)
    requires n <= |jobs| && Avoids(s.trace, blocked)
    ensures Avoids(DiscoverAll(w, s, jobs, n, blocked, checked).trace, blocked)
  {
    if n > 0 {
      BlockedIsNotReplayed(w, s, jobs, n - 1, blocked, checked);
      if jobs[n - 1].id !in blocked {
        BracketAvoids(w, DiscoverAll(w, s, jobs, n - 1, blocked, checked).trace, jobs[n - 1], Replaying, w.replay,
            blocked);
      }
    }
  }
}
