/** The catalog's reference checks (catalog-refs.ts): parent chains, and the problems of one job. */
module CatalogRefs {
  import opened Lists
  import opened Wrappers

  /** `Event` stands for abandon, repeat and assisted; `share` is the duration statistic `share_under`. */
  datatype Metric =
    | Duration(from: string, to: string, share: bool)
    | Completion(from: string, to: string)
    | Error(at: string)
    | Event(at: string)
    | Answer
  datatype MeasureUnit = Seconds | Percent | Count

  datatype DesiredOutcome = DesiredOutcome(id: string, step: Option<string>, metric: Option<Metric>,
      target: Option<MeasureUnit>)
  datatype CatalogJob = CatalogJob(id: string, parent: Option<string>, steps: seq<string>,
      outcomes: seq<DesiredOutcome>)
  datatype CatalogJourney = CatalogJourney(job: Option<string>, anchors: seq<string>)
  datatype Catalog = Catalog(jobs: seq<CatalogJob>, journeys: seq<CatalogJourney>)

  /** The first job of that id. */
  function FindJob(jobs: seq<CatalogJob>, id: string): (r: Option<CatalogJob>)
    ensures r.Some? ==> r.value in jobs && r.value.id == id
    ensures r.None? ==> forall j <- jobs :: j.id != id
  {
    if jobs == [] then None
    else if jobs[0].id == id then Some(jobs[0])
    else FindJob(jobs[1..], id)
  }

  function ParentOf(jobs: seq<CatalogJob>, id: string): Option<string> {
    var j := FindJob(jobs, id);
    if j.Some? then j.value.parent else None
  }

  /** The id `k` parent steps above `id`, when the chain is that long. */
  function Chain(jobs: seq<CatalogJob>, id: string, k: nat): Option<string> {
    if k == 0 then Some(id)
    else
      var below := Chain(jobs, id, k - 1);
      if below.Some? then ParentOf(jobs, below.value) else None
  }

  /** The job is reached again by one or more parent steps. */
  ghost predicate OwnAncestor(jobs: seq<CatalogJob>, id: string) {
    exists k: nat :: k > 0 && Chain(jobs, id, k) == Some(id)
  }

  function Declared(jobs: seq<CatalogJob>): set<string> { set i | 0 <= i < |jobs| :: jobs[i].id }

  lemma ParentIsOfDeclared(jobs: seq<CatalogJob>, id: string)
    ensures ParentOf(jobs, id).Some? ==> id in Declared(jobs)
    ensures FindJob(jobs, id).Some? <==> id in Declared(jobs)
  {
    var j := FindJob(jobs, id);
    if j.Some? {
      var i :| 0 <= i < |jobs| && jobs[i] == j.value;
      assert jobs[i].id in Declared(jobs);
    }
  }

  // ---------- chains ----------

  lemma {:induction false} ChainFrom(jobs: seq<CatalogJob>, id: string, i: nat, mid: string, k: nat)
    requires Chain(jobs, id, i) == Some(mid)
    ensures Chain(jobs, id, i + k) == Chain(jobs, mid, k)
  {
    if k > 0 { ChainFrom(jobs, id, i, mid, k - 1); }
  }

  lemma {:induction false} ChainEnded(jobs: seq<CatalogJob>, id: string, n: nat, m: nat)
    requires n <= m && Chain(jobs, id, n) == None
    ensures Chain(jobs, id, m) == None
    decreases m
  {
    if m > n { ChainEnded(jobs, id, n, m - 1); }
  }

  /** A chain that meets itself above the start goes round there and never comes back. */
  lemma {:induction false} CycleAvoids(jobs: seq<CatalogJob>, id: string, i: nat, n: nat, mid: string, m: nat)
    requires 1 <= i < n && 1 <= m && Chain(jobs, id, i) == Some(mid) == Chain(jobs, id, n)
    requires forall k: nat :: 1 <= k < n ==> Chain(jobs, id, k) != Some(id)
    ensures Chain(jobs, id, m) != Some(id)
    decreases m
  {
    if m >= n {
      ChainFrom(jobs, id, i, mid, m - n);
      ChainFrom(jobs, id, n, mid, m - n);
      CycleAvoids(jobs, id, i, n, mid, m - n + i);
    }
  }

  /** The ids on the first `n` places of a chain. */
  ghost function Visited(jobs: seq<CatalogJob>, id: string, n: nat): set<string> {
    if n == 0 then {}
    else
      var last := Chain(jobs, id, n - 1);
      Visited(jobs, id, n - 1) + if last.Some? then {last.value} else {}
  }

  lemma {:induction false} PlaceOf(jobs: seq<CatalogJob>, id: string, n: nat, x: string) returns (k: nat)
    requires x in Visited(jobs, id, n)
    ensures k < n && Chain(jobs, id, k) == Some(x)
  {
    if Chain(jobs, id, n - 1) == Some(x) {
      k := n - 1;
    } else {
      k := PlaceOf(jobs, id, n - 1, x);
    }
  }

  ghost predicate NotBackBefore(jobs: seq<CatalogJob>, id: string, n: nat) {
    forall k: nat :: 1 <= k < n ==> Chain(jobs, id, k) != Some(id)
  }

  /** After `n - 1` steps the walk stands at `next`, has seen the chain below it and not come back. */
  ghost predicate Walk(jobs: seq<CatalogJob>, id: string, n: nat, seen: set<string>, next: Option<string>) {
    n > 0 && Chain(jobs, id, n) == next && seen == Visited(jobs, id, n) && NotBackBefore(jobs, id, n)
  }

  lemma WalkOn(jobs: seq<CatalogJob>, id: string, n: nat, seen: set<string>, x: string)
    requires Walk(jobs, id, n, seen, Some(x)) && x != id
    ensures Walk(jobs, id, n + 1, seen + {x}, ParentOf(jobs, x))
  {
  }

  lemma NoReturn(jobs: seq<CatalogJob>, id: string, n: nat, seen: set<string>, next: Option<string>)
    requires Walk(jobs, id, n, seen, next)
    requires next.None? || (next.value != id && next.value in seen)
    ensures !OwnAncestor(jobs, id)
  {
    if OwnAncestor(jobs, id) {
      var m: nat :| m > 0 && Chain(jobs, id, m) == Some(id);
      if next.None? {
        ChainEnded(jobs, id, n, m);
      } else {
        var i := PlaceOf(jobs, id, n, next.value);
        CycleAvoids(jobs, id, i, n, next.value, m);
      }
    }
  }

  /** Walks the parents until they come back to the start, repeat, or run out. */
  method ParentCycle(jobs: seq<CatalogJob>, start: string) returns (cycle: bool)
    ensures cycle <==> OwnAncestor(jobs, start)
  {
    var seen := {start};
    var next := ParentOf(jobs, start);
    ghost var n: nat := 1;
    StartOfChain(jobs, start);
    while next.Some?
      invariant Walk(jobs, start, n, seen, next)
      decreases |Declared(jobs) - seen|, if next.Some? then 1 else 0
    {
      var x := next.value;
      if x == start {
        OwnAncestorAt(jobs, start, n);
        return true;
      }
      if x in seen {
        NoReturn(jobs, start, n, seen, next);
        return false;
      }
      ParentIsOfDeclared(jobs, x);
      Shrinks(Declared(jobs), seen, x);
      WalkOn(jobs, start, n, seen, x);
      seen := seen + {x};
      next := ParentOf(jobs, x);
      n := n + 1;
    }
    NoReturn(jobs, start, n, seen, next);
    return false;
  }

  lemma OwnAncestorAt(jobs: seq<CatalogJob>, id: string, n: nat)
    requires n > 0 && Chain(jobs, id, n) == Some(id)
    ensures OwnAncestor(jobs, id)
  {
  }

  lemma StartOfChain(jobs: seq<CatalogJob>, id: string)
    ensures Walk(jobs, id, 1, {id}, ParentOf(jobs, id))
  {
    assert Chain(jobs, id, 0) == Some(id);
    assert Visited(jobs, id, 0) == {};
  }

  lemma Shrinks(all: set<string>, before: set<string>, x: string)
    requires x !in before
    ensures if x in all then |all - (before + {x})| < |all - before| else all - (before + {x}) == all - before
  {
    if x in all {
      assert all - before == (all - (before + {x})) + {x};
    }
  }

  // ---------- the problems of one job ----------

  datatype Code =
    | DuplicateStep | UnknownOutcomeStep | DuplicateOutcome | UnknownParent | InParentCycle
    | UnmeasurableMetric | TargetUnitMismatch

  /** Where a problem is: a step, a desired outcome, a metric anchor of one, or the parent. */
  datatype Place = AtStep(i: nat) | AtOutcome(i: nat) | AtMetric(i: nat, field: nat) | AtParent
  datatype Issue = Issue(place: Place, code: Code)

  predicate Structural(code: Code) {
    !code.UnmeasurableMetric? && !code.TargetUnitMismatch?
  }

  function Anchors(m: Metric): seq<string> {
    match m
    case Duration(from, to, _) => [from, to]
    case Completion(from, to) => [from, to]
    case Answer => []
    case Error(at) => [at]
    case Event(at) => [at]
  }

  function Units(m: Metric): set<MeasureUnit> {
    match m
    case Duration(_, _, share) => if share then {Percent} else {Seconds}
    case Error(_) => {Count, Percent}
    case _ => {Percent}
  }

  function JobAnchors(journeys: seq<CatalogJourney>, id: string): set<string> {
    set i, k | 0 <= i < |journeys| && journeys[i].job == Some(id)
        && 0 <= k < |journeys[i].anchors| :: journeys[i].anchors[k]
  }

  predicate Measurable(anchors: set<string>, name: string) {
    name == "job_start" || name == "job_end" || name in anchors
  }

  function Ids(outcomes: seq<DesiredOutcome>): seq<string> {
    seq(|outcomes|, i requires 0 <= i < |outcomes| => outcomes[i].id)
  }

  /** What each problem says of the catalog. */
  ghost predicate Present(c: Catalog, j: CatalogJob, x: Issue) {
    match x
    case Issue(AtStep(i), DuplicateStep) => i < |j.steps| && RepeatsAt(j.steps, i)
    case Issue(AtOutcome(i), DuplicateOutcome) => i < |j.outcomes| && RepeatsAt(Ids(j.outcomes), i)
    case Issue(AtOutcome(i), UnknownOutcomeStep) => i < |j.outcomes| && j.outcomes[i].step.Some?
        && j.outcomes[i].step.value !in j.steps
    case Issue(AtMetric(i, k), UnmeasurableMetric) =>
      i < |j.outcomes| && j.outcomes[i].metric.Some? && k < |Anchors(j.outcomes[i].metric.value)|
      && !Measurable(JobAnchors(c.journeys, j.id), Anchors(j.outcomes[i].metric.value)[k])
    case Issue(AtOutcome(i), TargetUnitMismatch) =>
      i < |j.outcomes| && j.outcomes[i].metric.Some? && j.outcomes[i].target.Some?
      && j.outcomes[i].target.value !in Units(j.outcomes[i].metric.value)
    case Issue(AtParent, UnknownParent) => j.parent.Some? && FindJob(c.jobs, j.parent.value).None?
    case Issue(AtParent, InParentCycle) => j.parent.Some? && FindJob(c.jobs, j.parent.value).Some?
        && OwnAncestor(c.jobs, j.id)
    case _ => false
  }

  method OutcomeIssues(c: Catalog, j: CatalogJob, i: nat) returns (out: seq<Issue>)
    requires i < |j.outcomes|
    ensures forall x :: x in out <==> Present(c, j, x) && OfOutcome(x.place, i)
  {
    out := [];
    var o := j.outcomes[i];
    if RepeatsAt(Ids(j.outcomes), i) { out := out + [Issue(AtOutcome(i), DuplicateOutcome)]; }
    if o.step.Some? && o.step.value !in j.steps { out := out + [Issue(AtOutcome(i), UnknownOutcomeStep)]; }
    if o.metric.None? { return; }
    var anchors := Anchors(o.metric.value);
    ghost var before := out;
    for k := 0 to |anchors|
      invariant forall x :: x in out <==>
            x in before || (Present(c, j, x) && x.place.AtMetric? && x.place.i == i && x.place.field < k)
    {
      if !Measurable(JobAnchors(c.journeys, j.id), anchors[k]) {
        out := out + [Issue(AtMetric(i, k), UnmeasurableMetric)];
      }
    }
    if o.target.Some? && o.target.value !in Units(o.metric.value) {
      out := out + [Issue(AtOutcome(i), TargetUnitMismatch)];
    }
  }

  ghost predicate OfOutcome(place: Place, i: nat) {
    (place.AtOutcome? && place.i == i) || (place.AtMetric? && place.i == i)
  }

  /** Finds exactly the problems the job has; a job the catalog does not declare has none. */
  method JobRefIssues(c: Catalog, id: string) returns (out: seq<Issue>)
    ensures FindJob(c.jobs, id).None? ==> out == []
    ensures FindJob(c.jobs, id).Some? ==> forall x :: x in out <==> Present(c, FindJob(c.jobs, id).value, x)
  {
    var found := FindJob(c.jobs, id);
    if found.None? { return []; }
    var j := found.value;
    out := [];
    for i := 0 to |j.steps|
      invariant forall x :: x in out <==> Present(c, j, x) && x.place.AtStep? && x.place.i < i
    {
      if RepeatsAt(j.steps, i) { out := out + [Issue(AtStep(i), DuplicateStep)]; }
    }
    for i := 0 to |j.outcomes|
      invariant forall x :: x in out <==> Present(c, j, x) && !x.place.AtParent? && (x.place.AtStep? || x.place.i < i)
    {
      var more := OutcomeIssues(c, j, i);
      out := out + more;
    }
    if j.parent.Some? {
      if FindJob(c.jobs, j.parent.value).None? {
        out := out + [Issue(AtParent, UnknownParent)];
      } else {
        var cycle := ParentCycle(c.jobs, j.id);
        if cycle { out := out + [Issue(AtParent, InParentCycle)]; }
      }
    }
  }

  /** The `k`-th anchor a metric is measured at: from and to, or at. */
  ghost predicate MeasuredAt(m: Metric, k: nat, name: string) {
    match m
    case Duration(from, to, _) => (k == 0 && name == from) || (k == 1 && name == to)
    case Completion(from, to) => (k == 0 && name == from) || (k == 1 && name == to)
    case Error(at) => k == 0 && name == at
    case Event(at) => k == 0 && name == at
    case Answer => false
  }

  /** Some Journey of the job has an anchor of that name. */
  ghost predicate Anchored(c: Catalog, id: string, name: string) {
    exists journey <- c.journeys :: journey.job == Some(id) && name in journey.anchors
  }

  /** A metric cannot be measured at an anchor that is neither the job's start or end nor one of its Journeys'. */
  lemma UnmeasurableExactly(c: Catalog, j: CatalogJob, i: nat, k: nat)
    ensures Present(c, j, Issue(AtMetric(i, k), UnmeasurableMetric)) <==>
              (i < |j.outcomes| && j.outcomes[i].metric.Some?
               && exists name :: MeasuredAt(j.outcomes[i].metric.value, k, name)
                    && name != "job_start" && name != "job_end" && !Anchored(c, j.id, name))
  {
    forall name ensures name in JobAnchors(c.journeys, j.id) <==> Anchored(c, j.id, name) {
      if journey :| journey in c.journeys && journey.job == Some(j.id) && name in journey.anchors {
        var a :| 0 <= a < |c.journeys| && c.journeys[a] == journey;
        var b :| 0 <= b < |journey.anchors| && journey.anchors[b] == name;
      }
    }
    if i < |j.outcomes| && j.outcomes[i].metric.Some? {
      var m := j.outcomes[i].metric.value;
      forall name ensures MeasuredAt(m, k, name) <==> k < |Anchors(m)| && Anchors(m)[k] == name {}
      if k < |Anchors(m)| { assert MeasuredAt(m, k, Anchors(m)[k]); }
    }
  }

  /** What each metric counts in: a duration in seconds, an error in errors or their share, the others in shares. */
  ghost predicate CountsIn(m: Metric, u: MeasureUnit) {
    match m
    case Duration(_, _, false) => u == Seconds
    case Error(_) => u == Count || u == Percent
    case _ => u == Percent
  }

  lemma MismatchExactly(c: Catalog, j: CatalogJob, i: nat)
    ensures Present(c, j, Issue(AtOutcome(i), TargetUnitMismatch)) <==>
              (i < |j.outcomes| && j.outcomes[i].metric.Some? && j.outcomes[i].target.Some?
               && !CountsIn(j.outcomes[i].metric.value, j.outcomes[i].target.value))
  {
  }

  /** Of jobs with one id the first is meant. */
  lemma {:induction false} FirstFound(jobs: seq<CatalogJob>, i: nat)
    requires i < |jobs| && forall k :: 0 <= k < i ==> jobs[k].id != jobs[i].id
    ensures FindJob(jobs, jobs[i].id) == Some(jobs[i])
  {
    if i > 0 {
      assert jobs[0].id != jobs[i].id && jobs[1..][i - 1] == jobs[i];
      FirstFound(jobs[1..], i - 1);
    }
  }

  lemma RepeatedId(outcomes: seq<DesiredOutcome>, i: nat)
    requires i < |outcomes|
    ensures RepeatsAt(Ids(outcomes), i) <==> exists k :: 0 <= k < i && outcomes[k].id == outcomes[i].id
  {
    var ids := Ids(outcomes);
    if k :| 0 <= k < i && outcomes[k].id == outcomes[i].id { assert ids[..i][k] == ids[i]; }
    if RepeatsAt(ids, i) {
      var k :| 0 <= k < i && ids[..i][k] == ids[i];
      assert outcomes[k].id == outcomes[i].id;
    }
  }

  /** Every other problem, in terms of ids and parents; a gap of measure or unit stops no approval. */
  lemma StructureExactly(c: Catalog, j: CatalogJob, x: Issue)
    ensures Present(c, j, x) && x.code.DuplicateStep? <==>
              x.code.DuplicateStep? && x.place.AtStep? && x.place.i < |j.steps|
              && exists k :: 0 <= k < x.place.i && j.steps[k] == j.steps[x.place.i]
    ensures Present(c, j, x) && x.code.DuplicateOutcome? <==>
              x.code.DuplicateOutcome? && x.place.AtOutcome? && x.place.i < |j.outcomes|
              && exists k :: 0 <= k < x.place.i && j.outcomes[k].id == j.outcomes[x.place.i].id
    ensures Present(c, j, x) && x.code.UnknownParent? <==>
              x == Issue(AtParent, UnknownParent) && j.parent.Some? && forall d <- c.jobs :: d.id != j.parent.value
    ensures Present(c, j, x) && x.code.InParentCycle? ==> exists d <- c.jobs :: j.parent == Some(d.id)
    ensures Structural(x.code) <==> x.code != UnmeasurableMetric && x.code != TargetUnitMismatch
  {
    if x.place.AtOutcome? && x.place.i < |j.outcomes| { RepeatedId(j.outcomes, x.place.i); }
  }

  /** The references an approvable job keeps. */
  ghost predicate Sound(c: Catalog, j: CatalogJob) {
    && Distinct(j.steps)
    && Distinct(Ids(j.outcomes))
    && (forall i :: 0 <= i < |j.outcomes| ==> j.outcomes[i].step.Some? ==> j.outcomes[i].step.value in j.steps)
    && (j.parent.Some? ==> FindJob(c.jobs, j.parent.value).Some? && !OwnAncestor(c.jobs, j.id))
  }

  ghost predicate Broken(c: Catalog, j: CatalogJob) {
    exists x :: Present(c, j, x) && Structural(x.code)
  }

  lemma SoundHasNoBreak(c: Catalog, j: CatalogJob)
    requires Sound(c, j)
    ensures !Broken(c, j)
  {
    NoRepeats(j.steps);
    NoRepeats(Ids(j.outcomes));
  }

  lemma UnsoundIsBroken(c: Catalog, j: CatalogJob)
    requires !Sound(c, j)
    ensures Broken(c, j)
  {
    NoRepeats(j.steps);
    NoRepeats(Ids(j.outcomes));
    if !Distinct(j.steps) {
      var i :| 0 <= i < |j.steps| && RepeatsAt(j.steps, i);
      assert Present(c, j, Issue(AtStep(i), DuplicateStep));
    } else if !Distinct(Ids(j.outcomes)) {
      var i :| 0 <= i < |Ids(j.outcomes)| && RepeatsAt(Ids(j.outcomes), i);
      assert Present(c, j, Issue(AtOutcome(i), DuplicateOutcome));
    } else if i :| 0 <= i < |j.outcomes| && j.outcomes[i].step.Some? && j.outcomes[i].step.value !in j.steps {
      assert Present(c, j, Issue(AtOutcome(i), UnknownOutcomeStep));
    } else if FindJob(c.jobs, j.parent.value).None? {
      assert Present(c, j, Issue(AtParent, UnknownParent));
    } else {
      assert Present(c, j, Issue(AtParent, InParentCycle));
    }
  }

  lemma SoundnessIsNoBreak(c: Catalog, j: CatalogJob)
    ensures Sound(c, j) <==> !Broken(c, j)
  {
    if Sound(c, j) { SoundHasNoBreak(c, j); } else { UnsoundIsBroken(c, j); }
  }

  /** The refusal of an approval: a job is refused exactly when its own references are broken; gaps pass. */
  method AssertJobRefs(c: Catalog, id: string) returns (errors: seq<Issue>)
    ensures errors != [] <==> FindJob(c.jobs, id).Some? && !Sound(c, FindJob(c.jobs, id).value)
    ensures forall x <- errors :: Structural(x.code) && Present(c, FindJob(c.jobs, id).value, x)
  {
    var issues := JobRefIssues(c, id);
    errors := [];
    for i := 0 to |issues|
      invariant forall x :: x in errors <==> x in issues[..i] && Structural(x.code)
    {
      if Structural(issues[i].code) { errors := errors + [issues[i]]; }
    }
    assert issues[..|issues|] == issues;
    assert errors == [] || errors[0] in errors;
    ghost var found := FindJob(c.jobs, id);
    if found.Some? { SoundnessIsNoBreak(c, found.value); }
  }

  // ---------- a catalog of sound jobs is a forest ----------

  ghost predicate Acyclic(jobs: seq<CatalogJob>) {
    forall id <- Declared(jobs) :: !OwnAncestor(jobs, id)
  }

  lemma VisitIsNew(jobs: seq<CatalogJob>, id: string, n: nat, last: string)
    requires Acyclic(jobs) && Chain(jobs, id, n) == Some(last) && last in Declared(jobs)
    ensures last !in Visited(jobs, id, n)
  {
    if last in Visited(jobs, id, n) {
      var k := PlaceOf(jobs, id, n, last);
      ChainFrom(jobs, id, k, last, n - k);
      assert OwnAncestor(jobs, last);
    }
  }

  lemma {:induction false} VisitsAreNew(jobs: seq<CatalogJob>, id: string, n: nat)
    requires Acyclic(jobs) && Chain(jobs, id, n).Some?
    ensures |Visited(jobs, id, n)| == n && Visited(jobs, id, n) <= Declared(jobs)
  {
    if n > 0 {
      VisitsAreNew(jobs, id, n - 1);
      var last := Chain(jobs, id, n - 1).value;
      ParentIsOfDeclared(jobs, last);
      VisitIsNew(jobs, id, n - 1, last);
    }
  }

  lemma SubsetSize(a: set<string>, b: set<string>)
    requires a <= b
    ensures |a| <= |b|
  {
    if a != {} {
      var x :| x in a;
      SubsetSize(a - {x}, b - {x});
    }
  }

  /** When no declared job is its own ancestor, every parent chain ends, within as many steps as there are jobs. */
  lemma ChainsEnd(jobs: seq<CatalogJob>, id: string)
    requires Acyclic(jobs)
    ensures Chain(jobs, id, |Declared(jobs)| + 1) == None
  {
    var n := |Declared(jobs)| + 1;
    if Chain(jobs, id, n).Some? {
      VisitsAreNew(jobs, id, n);
      SubsetSize(Visited(jobs, id, n), Declared(jobs));
    }
  }

  /** So it is when every declared job may be approved. */
  lemma ApprovableJobsFormAForest(c: Catalog, id: string)
    requires forall j <- c.jobs :: FindJob(c.jobs, j.id) == Some(j) && Sound(c, j)
    ensures Chain(c.jobs, id, |Declared(c.jobs)| + 1) == None
  {
    forall x | x in Declared(c.jobs) ensures !OwnAncestor(c.jobs, x) {
      var i :| 0 <= i < |c.jobs| && c.jobs[i].id == x;
      var j := c.jobs[i];
      assert FindJob(c.jobs, j.id) == Some(j) && Sound(c, j);
      if j.parent.None? { RootHasNoAncestor(c.jobs, x); }
    }
    ChainsEnd(c.jobs, id);
  }

  lemma RootHasNoAncestor(jobs: seq<CatalogJob>, id: string)
    requires ParentOf(jobs, id) == None
    ensures !OwnAncestor(jobs, id)
  {
    StartOfChain(jobs, id);
    if OwnAncestor(jobs, id) {
      var k: nat :| k > 0 && Chain(jobs, id, k) == Some(id);
      ChainEnded(jobs, id, 1, k);
    }
  }
}
