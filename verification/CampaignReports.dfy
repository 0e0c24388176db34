/** What a campaign reports of each replay and each mission, in terms of what the fixtures and the browser answered. */
module CampaignReports {
  import opened Wrappers
  import opened Campaign
  import opened CampaignLaws

  // ---------- one replay, one mission ----------

  /** Where the body of the job's next bracket stands in the trace. */
  function BodyPlace(t: Trace, job: Job): nat { |t| + if job.fixtures then 1 else 0 }

  /** The job's fixture setup fails as such at the end of `t`. */
  predicate SetupRefused(w: World, t: Trace, job: Job) { job.fixtures && w.setup(|t|).Refused? }

  /** What a replay's answer means for its job. */
  ghost predicate Judged(answer: Replay, d: Discovery) {
    match answer
    case Replayed(outcome, _) =>
      && (d.verdict.ReplayOk? <==> outcome == "ok")
      && (outcome != "ok" ==> d.verdict.ReplayStale? && d.reason == outcome)
      && (outcome == "ok" ==> d.reason == "")
    case ReplayFailed(error) => d.verdict.ReplayError? && d.reason == error
  }

  /** The problems a replay's answer adds, when they are checked. */
  function ProblemsIn(answer: Replay, checked: bool): seq<Problem> {
    if checked && answer.Replayed? then answer.problems else []
  }

  /** One more discovery: of a setup that failed, or of what the replay answered. */
  lemma ReplayReported(w: World, s: Found, job: Job, blocked: set<string>, checked: bool)
    requires !s.threw && job.id !in blocked && !Discover(w, s, job, blocked, checked).threw
    ensures var z, p := Discover(w, s, job, blocked, checked), BodyPlace(s.trace, job);
            && |z.discovery| == |s.discovery| + 1 && s.discovery <= z.discovery
            && var d := z.discovery[|s.discovery|];
            && d.job == job.id
            && z.stale.Keys == s.stale.Keys + (if d.verdict.ReplayOk? then {} else {job.id})
            && (SetupRefused(w, s.trace, job) ==> d.verdict.ReplayError? && z.problems == s.problems)
            && (!SetupRefused(w, s.trace, job) ==>
                && p < |z.trace| && z.trace[p] == Body(job, Replaying) && w.replay(p).Some?
                && Judged(w.replay(p).value, d)
                && z.problems == s.problems + ProblemsIn(w.replay(p).value, checked))
  {
  }

  /** One more mission: skipped, misconfigured by its setup, or what the exploration answered. */
  lemma MissionReported(w: World, s: Progress, c: Cell, stale: map<string, string>)
    requires !s.threw && !RunMission(w, s, c, stale).threw
    ensures var z, p := RunMission(w, s, c, stale), BodyPlace(s.trace, c.job);
            && |z.missions| == |s.missions| + 1 && s.missions <= z.missions
            && var m := z.missions[|s.missions|];
            && m.job == c.job.id && m.anchor == c.anchor && m.strategy == c.strategy
            && (m.status.Skipped? <==> c.job.id in stale)
            && (m.status.Misconfigured? <==> c.job.id !in stale && SetupRefused(w, s.trace, c.job))
            && (m.status.Skipped? || m.status.Misconfigured? || m.status.Failed? ==> m.outcome == "inconclusive")
            && (c.job.id !in stale && !SetupRefused(w, s.trace, c.job) ==>
                && p < |z.trace| && z.trace[p] == Body(c.job, Exploring(c.anchor, c.strategy)) && w.explore(p).Some?
                && (m.status.Failed? <==> w.explore(p).value.ExploreFailed?)
                && (m.status.Ran? <==> w.explore(p).value.Explored?)
                && (m.status.Ran? ==>
                    w.explore(p).value.outcome == Some(m.outcome)
                    || (w.explore(p).value.outcome.None? && m.outcome == "inconclusive")))
  {
  }

  // ---------- a whole run ----------

  /** The job was replayed in `t`, and the replay ended well. */
  ghost predicate ReplayedWell(w: World, t: Trace, job: Job) {
    exists p :: 0 <= p < |t| && t[p] == Body(job, Replaying) && EndsWell(w, p)
  }

  predicate EndsWell(w: World, p: nat) {
    w.replay(p).Some? && w.replay(p).value.Replayed? && w.replay(p).value.outcome == "ok"
  }

  lemma ReplayedWellLater(w: World, t: Trace, u: Trace, job: Job)
    requires ReplayedWell(w, t, job) && t <= u
    ensures ReplayedWell(w, u, job)
  {
    var p :| 0 <= p < |t| && t[p] == Body(job, Replaying) && EndsWell(w, p);
    assert u[p] == t[p];
  }

  /** Each of the first `n` jobs that is not blocked, and was not found to fail, was replayed well. */
  ghost predicate WellUnlessStale(w: World, f: Found, jobs: seq<Job>, n: nat, blocked: set<string>)
    requires n <= |jobs|
  {
    forall k :: 0 <= k < n && jobs[k].id !in blocked && jobs[k].id !in f.stale ==> ReplayedWell(w, f.trace, jobs[k])
  }

  lemma DiscoverExtends(w: World, s: Found, job: Job, blocked: set<string>, checked: bool)
    ensures s.trace <= Discover(w, s, job, blocked, checked).trace
    ensures s.stale.Keys <= Discover(w, s, job, blocked, checked).stale.Keys
  {
  }

  lemma WellNext(w: World, s: Found, jobs: seq<Job>, n: nat, blocked: set<string>, checked: bool)
    requires n < |jobs| && !s.threw && WellUnlessStale(w, s, jobs, n, blocked)
    requires !Discover(w, s, jobs[n], blocked, checked).threw
    ensures WellUnlessStale(w, Discover(w, s, jobs[n], blocked, checked), jobs, n + 1, blocked)
  {
    var z := Discover(w, s, jobs[n], blocked, checked);
    DiscoverExtends(w, s, jobs[n], blocked, checked);
    if jobs[n].id !in blocked { ReplayReported(w, s, jobs[n], blocked, checked); }
    forall k | 0 <= k < n + 1 && jobs[k].id !in blocked && jobs[k].id !in z.stale
      ensures ReplayedWell(w, z.trace, jobs[k])
    {
      if k < n {
        ReplayedWellLater(w, s.trace, z.trace, jobs[k]);
      } else {
        assert EndsWell(w, BodyPlace(s.trace, jobs[n]));
      }
    }
  }

  lemma {:induction false} DiscoveredWell(
    w: World, s: Found, jobs: seq<Job>, n: nat, blocked: set<string>, checked: bool)
    requires n <= |jobs| && !DiscoverAll(w, s, jobs, n, blocked, checked).threw
    ensures WellUnlessStale(w, DiscoverAll(w, s, jobs, n, blocked, checked), jobs, n, blocked)
  {
    if n > 0 {
      DiscoveredWell(w, s, jobs, n - 1, blocked, checked);
      WellNext(w, DiscoverAll(w, s, jobs, n - 1, blocked, checked), jobs, n - 1, blocked, checked);
    }
  }

  lemma {:induction false} MissionsExtend(w: World, s: Progress, cells: seq<Cell>, stale: map<string, string>)
    ensures s.trace <= RunCells(w, s, cells, stale).trace
  {
    if cells != [] { MissionsExtend(w, s, cells[..|cells| - 1], stale); }
  }

  lemma {:induction false} PlanOfJobs(jobs: seq<Job>, n: nat, c: Cell)
    requires n <= |jobs| && c in JobCells(jobs, n)
    ensures c.job in jobs
  {
    if n > 0 {
      if c in AnchorCells(jobs[n - 1], |jobs[n - 1].anchors|) {
        AnchorsOfJob(jobs[n - 1], |jobs[n - 1].anchors|, c);
      } else {
        PlanOfJobs(jobs, n - 1, c);
      }
    }
  }

  lemma {:induction false} AnchorsOfJob(job: Job, n: nat, c: Cell)
    requires n <= |job.anchors| && c in AnchorCells(job, n)
    ensures c.job == job
  {
    if c in StrategyCells(job, job.anchors[n - 1], |job.strategies|) {
      StrategiesOfJob(job, job.anchors[n - 1], |job.strategies|, c);
    } else {
      AnchorsOfJob(job, n - 1, c);
    }
  }

  lemma {:induction false} StrategiesOfJob(job: Job, anchor: string, n: nat, c: Cell)
    requires n <= |job.strategies| && c in StrategyCells(job, anchor, n)
    ensures c.job == job
  {
    if c in StrategyCells(job, anchor, n - 1) { StrategiesOfJob(job, anchor, n - 1, c); }
  }

  /** With discovery, no mission body runs but after a replay of its own job that ended well. */
  lemma ExploredAfterReplay(w: World, jobs: seq<Job>, opts: Options, c: Cell)
    requires opts.discovery && c in Explorations(CampaignRun(w, jobs, opts).0)
    ensures ReplayedWell(w, CampaignRun(w, jobs, opts).0, c.job)
  {
    var f, problems := DiscoveryOf(w, jobs, opts), TargetProblems(jobs, opts);
    FoundExploresNothing(w, jobs, opts);
    StaleJobsRunNothing(w, jobs, opts, c);
    DiscoveryStale(w, jobs, opts);
    ProblemsStay(w, Found([], [], map[], problems, false), jobs, |jobs|, JobsOf(problems), opts.preflight.Check?);
    assert JobsOf(problems) == {};
    DiscoveredWell(w, Found([], [], map[], problems, false), jobs, |jobs|, {}, opts.preflight.Check?);
    MissionsExtend(w, Progress(f.trace, [], false), Plan(jobs), f.stale);
    PlanOfJobs(jobs, |jobs|, c);
    var k :| 0 <= k < |jobs| && jobs[k] == c.job;
    ReplayedWellLater(w, f.trace, CampaignRun(w, jobs, opts).0, c.job);
  }

  // ---------- what the preflight is asked ----------

  /** The checks of start URLs are put to exactly the jobs that have one, in plan order. */
  lemma {:induction false} StartUrlsAsked(a: seq<Job>, job: Job)
    ensures WithStartUrl([]) == []
    ensures WithStartUrl(a + [job]) == WithStartUrl(a) + if job.startUrl == "" then [] else [job.id]
  {
    assert (a + [job])[..|a|] == a;
  }

  /** The jobs named by a problem with their start URL or session. */
  ghost predicate TargetProblem(jobs: seq<Job>, opts: Options, id: string) {
    opts.preflight.Check? && exists p <- opts.preflight.targets(WithStartUrl(jobs)) :: p.job == id
  }

  /** A job with such a problem is not touched at all: no setup, no replay, no restore, no mission. */
  lemma ProblemJobsUntouched(w: World, jobs: seq<Job>, opts: Options, e: Event)
    requires e in CampaignRun(w, jobs, opts).0
    ensures !TargetProblem(jobs, opts, e.job.id)
  {
    var problems, f := TargetProblems(jobs, opts), DiscoveryOf(w, jobs, opts);
    var blocked, start := JobsOf(problems), Found([], [], map[], problems, false);
    BlockedIsNotReplayed(w, start, jobs, |jobs|, blocked, opts.preflight.Check?);
    ProblemsStay(w, start, jobs, |jobs|, blocked, opts.preflight.Check?);
    forall p | p in problems ensures p.job in blocked { var i :| 0 <= i < |problems| && problems[i] == p; }
    if problems != [] { assert e in f.trace && e.job.id !in blocked; }
  }

  /** A run is refused before its missions exactly for a starved host it does not ignore, or for a problem found. */
  lemma RefusedExactly(w: World, jobs: seq<Job>, opts: Options)
    ensures var r := CampaignRun(w, jobs, opts).1;
            var asked := match opts.preflight case Check(_, _) => true case _ => false;
            var starved := asked && opts.preflight.starved != None && !opts.ignoreHostLoad;
            && (r.HostStarved? <==> starved)
            && (r.PreflightFailed? ==> asked && r.problems != [])
            && (r.Completed? && asked ==> DiscoveryOf(w, jobs, opts).problems == [])
            && (asked && !starved ==> opts.preflight.targets(WithStartUrl(jobs)) <= DiscoveryOf(w, jobs, opts).problems)
  {
    var problems := TargetProblems(jobs, opts);
    ProblemsStay(w, Found([], [], map[], problems, false), jobs, |jobs|, JobsOf(problems), opts.preflight.Check?);
  }
}
