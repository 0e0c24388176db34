/**
 * `runCampaign` (campaign-api.ts): discovery, preflight, then every anchored mission in plan order,
 * each between its job's fixture setup and restore. What the browser and the fixtures answer is a
 * `World`, asked by the position in the trace, so any answer may depend on the moment it is given.
 */
module Campaign {
  import opened Wrappers

  datatype Job = Job(id: string, journey: string, startUrl: string, fixtures: bool, anchors: seq<string>,
      strategies: seq<string>)

  /** One mission of the plan. */
  datatype Cell = Cell(job: Job, anchor: string, strategy: string)

  datatype Work = Replaying | Exploring(anchor: string, strategy: string)
  datatype Event = Setup(job: Job) | Body(job: Job, work: Work) | Restore(job: Job)
  type Trace = seq<Event>

  datatype Problem = Problem(job: string, message: string)
  datatype SetupReply = SetUp | Refused | SetupThrew

  /** A replay child's answer: it failed, or it ended with an outcome and the writes off the allow list. */
  datatype Replay = ReplayFailed(error: string) | Replayed(outcome: string, problems: seq<Problem>)
  datatype Exploration = ExploreFailed(error: string) | Explored(outcome: Option<string>)

  /** `None` from `replay` and `explore`, and false from `restores`, are exceptions. */
  datatype World = World(
    setup: nat -> SetupReply,
    restores: nat -> bool,
    replay: nat -> Option<Replay>,
    explore: nat -> Option<Exploration>)

  datatype Attempt<T> = Done(value: T) | SetupFailed | Threw
  datatype Run<T> = Run(trace: Trace, attempt: Attempt<T>)

  /** One body in its fixture bracket: whether the setup succeeds or not, the restore follows. */
  function Bracket<T>(w: World, t: Trace, job: Job, work: Work, body: nat -> Option<T>): Run<T> {
    if !job.fixtures then Run(t + [Body(job, work)], Ended(body(|t|)))
    else
      var t1 := t + [Setup(job)];
      match w.setup(|t|)
      case SetUp =>
        var t2 := t1 + [Body(job, work)];
        Run(t2 + [Restore(job)], if w.restores(|t2|) then Ended(body(|t1|)) else Threw)
      case Refused => Run(t1 + [Restore(job)], if w.restores(|t1|) then SetupFailed else Threw)
      case SetupThrew => Run(t1 + [Restore(job)], Threw)
  }

  function Ended<T>(answer: Option<T>): Attempt<T> {
    match answer
    case Some(x) => Done(x)
    case None => Threw
  }

  // ---------- discovery ----------

  datatype Verdict = ReplayOk | ReplayStale | ReplayError
  datatype Discovery = Discovery(job: string, verdict: Verdict, reason: string)

  datatype Found = Found(trace: Trace, discovery: seq<Discovery>, stale: map<string, string>, problems: seq<Problem>,
      threw: bool)

  function Judge(job: Job, attempt: Attempt<Replay>): Discovery
    requires !attempt.Threw?
  {
    match attempt
    case SetupFailed => Discovery(job.id, ReplayError, "fixture setup failed")
    case Done(ReplayFailed(error)) => Discovery(job.id, ReplayError, error)
    case Done(Replayed(outcome, _)) => if outcome == "ok" then Discovery(job.id, ReplayOk, "")
        else Discovery(job.id, ReplayStale, outcome)
  }

  function Discover(w: World, s: Found, job: Job, blocked: set<string>, checked: bool): Found {
    if s.threw || job.id in blocked then s
    else
      var run := Bracket(w, s.trace, job, Replaying, w.replay);
      if run.attempt.Threw? then s.(trace := run.trace, threw := true)
      else
        var d := Judge(job, run.attempt);
        Found(run.trace, s.discovery + [d],
              if d.verdict.ReplayOk? then s.stale else s.stale[d.job := d.reason],
              if checked && run.attempt.Done? && run.attempt.value.Replayed?
                  then s.problems + run.attempt.value.problems else s.problems,
              false)
  }

  /** Discovery over the first `n` jobs. */
  function DiscoverAll(w: World, s: Found, jobs: seq<Job>, n: nat, blocked: set<string>, checked: bool): Found
    requires n <= |jobs|
  {
    if n == 0 then s else Discover(w, DiscoverAll(w, s, jobs, n - 1, blocked, checked), jobs[n - 1], blocked, checked)
  }

  // ---------- missions ----------

  datatype Status = Skipped | Misconfigured | Failed | Ran
  datatype Mission = Mission(job: string, anchor: string, strategy: string, status: Status, outcome: string,
      restored: bool)

  datatype Progress = Progress(trace: Trace, missions: seq<Mission>, threw: bool)

  function Report(cell: Cell, attempt: Attempt<Exploration>): Mission
    requires !attempt.Threw?
  {
    var of := (status, outcome) => Mission(cell.job.id, cell.anchor, cell.strategy, status, outcome, cell.job.fixtures);
    match attempt
    case SetupFailed => of(Misconfigured, "inconclusive")
    case Done(ExploreFailed(_)) => of(Failed, "inconclusive")
    case Done(Explored(outcome)) => of(Ran, outcome.GetOr("inconclusive"))
  }

  function SkippedMission(cell: Cell): Mission {
    Mission(cell.job.id, cell.anchor, cell.strategy, Skipped, "inconclusive", false)
  }

  function RunMission(w: World, s: Progress, cell: Cell, stale: map<string, string>): Progress {
    if s.threw then s
    else if cell.job.id in stale then s.(missions := s.missions + [SkippedMission(cell)])
    else
      var run := Bracket(w, s.trace, cell.job, Exploring(cell.anchor, cell.strategy), w.explore);
      if run.attempt.Threw? then s.(trace := run.trace, threw := true)
      else Progress(run.trace, s.missions + [Report(cell, run.attempt)], false)
  }

  function RunCells(w: World, s: Progress, cells: seq<Cell>, stale: map<string, string>): Progress {
    if cells == [] then s
    else RunMission(w, RunCells(w, s, cells[..|cells| - 1], stale), cells[|cells| - 1], stale)
  }

  /** The first `n` strategies of one anchor, the first `n` anchors of a job, the first `n` jobs: in plan order. */
  function StrategyCells(job: Job, anchor: string, n: nat): seq<Cell>
    requires n <= |job.strategies|
  {
    if n == 0 then [] else StrategyCells(job, anchor, n - 1) + [Cell(job, anchor, job.strategies[n - 1])]
  }

  function AnchorCells(job: Job, n: nat): seq<Cell>
    requires n <= |job.anchors|
  {
    if n == 0 then [] else AnchorCells(job, n - 1) + StrategyCells(job, job.anchors[n - 1], |job.strategies|)
  }

  function JobCells(jobs: seq<Job>, n: nat): seq<Cell>
    requires n <= |jobs|
  {
    if n == 0 then [] else JobCells(jobs, n - 1) + AnchorCells(jobs[n - 1], |jobs[n - 1].anchors|)
  }

  function Plan(jobs: seq<Job>): seq<Cell> { JobCells(jobs, |jobs|) }

  // ---------- the whole run ----------

  /** `Check`: the host's reason for being starved, if it was asked, and the checks of the start URLs. */
  datatype Preflight = Absent | Skip | Check(starved: Option<string>, targets: seq<string> -> seq<Problem>)
  datatype Options = Options(discovery: bool, ignoreHostLoad: bool, preflight: Preflight)

  datatype Outcome =
    | HostStarved
    | Aborted
    | PreflightFailed(problems: seq<Problem>, discovery: seq<Discovery>)
    | Completed(discovery: seq<Discovery>, missions: seq<Mission>)

  function WithStartUrl(jobs: seq<Job>): seq<string> {
    if jobs == [] then []
    else
      var front := WithStartUrl(jobs[..|jobs| - 1]);
      if jobs[|jobs| - 1].startUrl != "" then front + [jobs[|jobs| - 1].id] else front
  }

  function TargetProblems(jobs: seq<Job>, opts: Options): seq<Problem> {
    if opts.preflight.Check? then opts.preflight.targets(WithStartUrl(jobs)) else []
  }

  function JobsOf(problems: seq<Problem>): set<string> { set i | 0 <= i < |problems| :: problems[i].job }

  function DiscoveryOf(w: World, jobs: seq<Job>, opts: Options): Found {
    var problems := TargetProblems(jobs, opts);
    var start := Found([], [], map[], problems, false);
    if opts.discovery then DiscoverAll(w, start, jobs, |jobs|, JobsOf(problems), opts.preflight.Check?) else start
  }

  predicate Starved(opts: Options) {
    !opts.ignoreHostLoad && opts.preflight.Check? && opts.preflight.starved.Some?
  }

  predicate Refuses(f: Found, opts: Options) {
    opts.preflight.Check? && f.problems != []
  }

  function CampaignRun(w: World, jobs: seq<Job>, opts: Options): (Trace, Outcome) {
    if Starved(opts) then ([], HostStarved)
    else
      var f := DiscoveryOf(w, jobs, opts);
      if f.threw then (f.trace, Aborted)
      else if Refuses(f, opts) then (f.trace, PreflightFailed(f.problems, f.discovery))
      else
        var p := RunCells(w, Progress(f.trace, [], false), Plan(jobs), f.stale);
        (p.trace, if p.threw then Aborted else Completed(f.discovery, p.missions))
  }

  // ---------- the runner ----------

  lemma RunCellsSnoc(w: World, s: Progress, cells: seq<Cell>, c: Cell, stale: map<string, string>)
    ensures RunCells(w, s, cells + [c], stale) == RunMission(w, RunCells(w, s, cells, stale), c, stale)
  {
    assert (cells + [c])[..|cells|] == cells;
  }

  lemma {:induction false} RunCellsConcat(w: World, s: Progress, a: seq<Cell>, b: seq<Cell>, stale: map<string, string>)
    ensures RunCells(w, s, a + b, stale) == RunCells(w, RunCells(w, s, a, stale), b, stale)
    decreases |b|
  {
    if b == [] {
      assert a + b == a;
    } else {
      var n := |b| - 1;
      RunCellsConcat(w, s, a, b[..n], stale);
      RunCellsSnoc(w, s, a + b[..n], b[n], stale);
      RunCellsSnoc(w, RunCells(w, s, a, stale), b[..n], b[n], stale);
      assert a + b == a + b[..n] + [b[n]] && b == b[..n] + [b[n]];
    }
  }

  class Runner {
    const world: World
    var trace: Trace
    var discovery: seq<Discovery>
    var staleOf: map<string, string>
    var problems: seq<Problem>
    var missions: seq<Mission>

    constructor (w: World)
      ensures world == w && trace == [] && discovery == [] && staleOf == map[] && problems == [] && missions == []
    {
      world := w;
      trace, discovery, staleOf, problems, missions := [], [], map[], [], [];
    }

    method Restored<T>(job: Job, work: Work, body: nat -> Option<T>) returns (r: Attempt<T>)
      modifies this`trace
      ensures Run(trace, r) == Bracket(world, old(trace), job, work, body)
    {
      if !job.fixtures {
        r := Ended(body(|trace|));
        trace := trace + [Body(job, work)];
        return;
      }
      var setup := world.setup(|trace|);
      trace := trace + [Setup(job)];
      if !setup.SetUp? {
        var ok := world.restores(|trace|);
        trace := trace + [Restore(job)];
        return if ok && setup.Refused? then SetupFailed else Threw;
      }
      r := Ended(body(|trace|));
      trace := trace + [Body(job, work)];
      var ok := world.restores(|trace|);
      trace := trace + [Restore(job)];
      if !ok { r := Threw; }
    }

    ghost function FoundNow(threw: bool): Found
      reads this
    {
      Found(trace, discovery, staleOf, problems, threw)
    }

    method DiscoverJobs(jobs: seq<Job>, blocked: set<string>, checked: bool) returns (threw: bool)
      modifies this
      ensures FoundNow(threw) == DiscoverAll(world, old(FoundNow(false)), jobs, |jobs|, blocked, checked)
      ensures missions == old(missions)
    {
      threw := false;
      for i := 0 to |jobs|
        invariant FoundNow(threw) == DiscoverAll(world, old(FoundNow(false)), jobs, i, blocked, checked)
        invariant missions == old(missions)
      {
        if threw || jobs[i].id in blocked { continue; }
        var attempt := Restored(jobs[i], Replaying, world.replay);
        if attempt.Threw? {
          threw := true;
        } else {
          if checked && attempt.Done? && attempt.value.Replayed? { problems := problems + attempt.value.problems; }
          var d := Judge(jobs[i], attempt);
          discovery := discovery + [d];
          if !d.verdict.ReplayOk? { staleOf := staleOf[d.job := d.reason]; }
        }
      }
    }

    ghost function ProgressNow(threw: bool): Progress
      reads this
    {
      Progress(trace, missions, threw)
    }

    method ExploreCell(cell: Cell, thrown: bool) returns (threw: bool)
      modifies this`trace, this`missions
      ensures ProgressNow(threw) == RunMission(world, old(ProgressNow(thrown)), cell, staleOf)
    {
      if thrown { return true; }
      if cell.job.id in staleOf {
        missions := missions + [SkippedMission(cell)];
        return false;
      }
      var attempt := Restored(cell.job, Exploring(cell.anchor, cell.strategy), world.explore);
      if attempt.Threw? { return true; }
      missions := missions + [Report(cell, attempt)];
      return false;
    }

    method ExploreAnchor(job: Job, anchor: string, thrown: bool) returns (threw: bool)
      modifies this`trace, this`missions
      ensures ProgressNow(threw)
            == RunCells(world, old(ProgressNow(thrown)), StrategyCells(job, anchor, |job.strategies|), staleOf)
    {
      threw := thrown;
      for k := 0 to |job.strategies|
        invariant ProgressNow(threw)
              == RunCells(world, old(ProgressNow(thrown)), StrategyCells(job, anchor, k), staleOf)
      {
        var cell := Cell(job, anchor, job.strategies[k]);
        RunCellsSnoc(world, old(ProgressNow(thrown)), StrategyCells(job, anchor, k), cell, staleOf);
        threw := ExploreCell(cell, threw);
      }
    }

    method ExploreJob(job: Job, thrown: bool) returns (threw: bool)
      modifies this`trace, this`missions
      ensures ProgressNow(threw) == RunCells(world, old(ProgressNow(thrown)), AnchorCells(job, |job.anchors|), staleOf)
    {
      threw := thrown;
      for a := 0 to |job.anchors|
        invariant ProgressNow(threw) == RunCells(world, old(ProgressNow(thrown)), AnchorCells(job, a), staleOf)
      {
        var more := StrategyCells(job, job.anchors[a], |job.strategies|);
        RunCellsConcat(world, old(ProgressNow(thrown)), AnchorCells(job, a), more, staleOf);
        threw := ExploreAnchor(job, job.anchors[a], threw);
      }
    }

    /** Job by job, anchor by anchor, strategy by strategy. */
    method ExploreJobs(jobs: seq<Job>) returns (threw: bool)
      modifies this`trace, this`missions
      ensures ProgressNow(threw) == RunCells(world, old(ProgressNow(false)), Plan(jobs), staleOf)
    {
      threw := false;
      for j := 0 to |jobs|
        invariant ProgressNow(threw) == RunCells(world, old(ProgressNow(false)), JobCells(jobs, j), staleOf)
      {
        RunCellsConcat(world, old(ProgressNow(false)), JobCells(jobs, j), AnchorCells(jobs[j], |jobs[j].anchors|),
            staleOf);
        threw := ExploreJob(jobs[j], threw);
      }
    }

    method RunCampaign(jobs: seq<Job>, opts: Options) returns (outcome: Outcome)
      requires trace == [] && FoundNow(false) == Found([], [], map[], [], false) && missions == []
      modifies this
      ensures (trace, outcome) == CampaignRun(world, jobs, opts)
    {
      var blocked: set<string> := {};
      if opts.preflight.Check? {
        if !opts.ignoreHostLoad && opts.preflight.starved.Some? { return HostStarved; }
        var found := opts.preflight.targets(WithStartUrl(jobs));
        problems := problems + found;
        blocked := JobsOf(found);
        assert [] + found == found;
      }
      assert FoundNow(false) == Found([], [], map[], TargetProblems(jobs, opts), false);
      assert blocked == JobsOf(TargetProblems(jobs, opts));
      var threw := false;
      if opts.discovery { threw := DiscoverJobs(jobs, blocked, opts.preflight.Check?); }
      assert FoundNow(threw) == DiscoveryOf(world, jobs, opts);
      if threw { return Aborted; }
      if opts.preflight.Check? && problems != [] { return PreflightFailed(problems, discovery); }
      threw := ExploreJobs(jobs);
      if threw { return Aborted; }
      return Completed(discovery, missions);
    }
  }
}
