/** The acceptance of a recorded baseline into a bundle (catalog-bundle.ts). */
module BundleBaselines {
  import opened Wrappers
  import opened Baselines
  import opened StepTiming
  import CatalogFile

  const MAX_MS := 86_400_000
  const MAX_STEP := 200

  /** A recorded baseline as it is read back; a field that is missing or of another type is `None`. */
  datatype RawPoint = RawPoint(name: Option<string>, step: Option<real>, stepId: Option<string>, atMs: Option<real>)
  datatype RawBaseline = RawBaseline(steps: Option<real>, totalMs: Option<real>, anchors: seq<RawPoint>)

  datatype Drop = NotARecord | BadSteps | BadTotal | NoName | BadName | NoStep | BadTime | TooMany
  datatype BundlePoint = BundlePoint(anchor: string, step: int, atMs: int)
  datatype BundleBaseline = BundleBaseline(steps: int, totalMs: int, anchors: seq<BundlePoint>)

  function IntMs(v: Option<real>): Option<int> {
    if v.None? || v.value < 0.0 then None
    else if Round(v.value) <= MAX_MS then Some(Round(v.value)) else None
  }

  /** A number that is an integer. */
  function Whole(v: Option<real>): Option<int> {
    if v.Some? && v.value.Floor as real == v.value then Some(v.value.Floor) else None
  }

  function StepOf(p: RawPoint, flat: seq<Option<string>>, steps: int): Option<int> {
    var at := if p.stepId.Some? then IndexOfId(flat, p.stepId.value) else |flat|;
    if at < |flat| then Some(at + 1)
    else if Whole(p.step).Some? then Whole(p.step)
    else if p.name == Some("job_start") then Some(1)
    else if p.name == Some("job_end") then Some(steps)
    else None
  }

  function Accepted(p: RawPoint, flat: seq<Option<string>>, steps: int): Result<BundlePoint, Drop> {
    if p.name.None? then Err(NoName)
    else if !CatalogFile.CatalogId(p.name.value) then Err(BadName)
    else
      var step, atMs := StepOf(p, flat, steps), IntMs(p.atMs);
      if step.None? || step.value < 1 || step.value > MAX_STEP then Err(NoStep)
      else if atMs.None? then Err(BadTime)
      else Ok(BundlePoint(p.name.value, step.value, atMs.value))
  }

  function AcceptedPoints(ps: seq<RawPoint>, flat: seq<Option<string>>, steps: int): seq<Result<BundlePoint, Drop>> {
    seq(|ps|, i requires 0 <= i < |ps| => Accepted(ps[i], flat, steps))
  }

  function Bundled(raw: Option<RawBaseline>, flat: seq<Option<string>>): Result<BundleBaseline, Drop> {
    if raw.None? then Err(NotARecord)
    else
      var steps, totalMs := Whole(raw.value.steps), IntMs(raw.value.totalMs);
      if steps.None? || steps.value < 1 || steps.value > MAX_STEP then Err(BadSteps)
      else if totalMs.None? then Err(BadTotal)
      else
        var anchors := Collect(AcceptedPoints(raw.value.anchors, flat, steps.value));
        if anchors.Err? then Err(anchors.error)
        else if |anchors.value| > MAX_STEP + 2 then Err(TooMany)
        else Ok(BundleBaseline(steps.value, totalMs.value, anchors.value))
  }

  method AcceptBaseline(raw: Option<RawBaseline>, flat: seq<Option<string>>) returns (r: Result<BundleBaseline, Drop>)
    ensures r == Bundled(raw, flat)
  {
    if raw.None? { return Err(NotARecord); }
    var steps, totalMs := Whole(raw.value.steps), IntMs(raw.value.totalMs);
    if steps.None? || steps.value < 1 || steps.value > MAX_STEP { return Err(BadSteps); }
    if totalMs.None? { return Err(BadTotal); }
    var ps := raw.value.anchors;
    var anchors: seq<BundlePoint> := [];
    ghost var accepted := AcceptedPoints(ps, flat, steps.value);
    for i := 0 to |ps|
      invariant |anchors| == i && forall k :: 0 <= k < i ==> accepted[k] == Ok(anchors[k])
    {
      var p := Accepted(ps[i], flat, steps.value);
      if p.Err? {
        CollectFirstError(accepted, i);
        return Err(p.error);
      }
      anchors := anchors + [p.value];
    }
    CollectAll(accepted, anchors);
    if |anchors| > MAX_STEP + 2 { return Err(TooMany); }
    return Ok(BundleBaseline(steps.value, totalMs.value, anchors));
  }

  // ---------- what a computed baseline becomes ----------

  /** A baseline as it is recorded. */
  function RecordedPoint(p: Point): RawPoint {
    RawPoint(Some(p.name), Some(p.step as real), p.stepId, Some(p.atMs as real))
  }

  function Recorded(b: Baseline): RawBaseline {
    RawBaseline(Some(b.steps as real), Some(b.totalMs as real),
        seq(|b.anchors|, i requires 0 <= i < |b.anchors| => RecordedPoint(b.anchors[i])))
  }

  function Carried(p: Point): BundlePoint { BundlePoint(p.name, p.step, p.atMs) }

  ghost predicate UniqueIds(flat: seq<Option<string>>) {
    forall i, j :: 0 <= i < j < |flat| && flat[i].Some? ==> flat[i] != flat[j]
  }

  lemma WholeRound(n: int)
    ensures Whole(Some(n as real)) == Some(n) && Round(n as real) == n
  {
  }

  /** A point of a computed baseline keeps its step, and is accepted within the bundle's limits. */
  lemma PointAccepted(flat: seq<Option<string>>, steps: seq<RunStep>, p: Point, count: int)
    requires steps != [] && AllTimed(steps) && UniqueIds(flat) && Genuine(flat, steps, p)
    ensures Accepted(RecordedPoint(p), flat, count).Ok? <==> Fits(p)
    ensures Accepted(RecordedPoint(p), flat, count).Ok? ==> Accepted(RecordedPoint(p), flat, count).value == Carried(p)
  {
    GenuineWithin(flat, steps, p);
    WholeRound(p.step);
    WholeRound(p.atMs);
    if p.stepId.Some? {
      var at := IndexOfId(flat, p.stepId.value);
      assert flat[p.step - 1] == p.stepId;
      assert at == p.step - 1;
    }
  }

  ghost predicate Fits(p: Point) { CatalogFile.CatalogId(p.name) && p.step <= MAX_STEP && p.atMs <= MAX_MS }

  ghost predicate AllGenuine(flat: seq<Option<string>>, steps: seq<RunStep>, ps: seq<Point>, raw: seq<RawPoint>)
    requires steps != []
  {
    |ps| == |raw| && forall i :: 0 <= i < |ps| ==> Genuine(flat, steps, ps[i]) && raw[i] == RecordedPoint(ps[i])
  }

  lemma GenuineAccepted(flat: seq<Option<string>>, steps: seq<RunStep>, ps: seq<Point>, raw: seq<RawPoint>, count: int,
      i: nat)
    requires steps != [] && AllTimed(steps) && UniqueIds(flat) && AllGenuine(flat, steps, ps, raw) && i < |ps|
    ensures Accepted(raw[i], flat, count).Ok? <==> Fits(ps[i])
    ensures Accepted(raw[i], flat, count).Ok? ==> Accepted(raw[i], flat, count).value == Carried(ps[i])
  {
    PointAccepted(flat, steps, ps[i], count);
  }

  ghost predicate AllFit(ps: seq<Point>) { forall i :: 0 <= i < |ps| ==> Fits(ps[i]) }

  function AllCarried(ps: seq<Point>): seq<BundlePoint> { seq(|ps|, i requires 0 <= i < |ps| => Carried(ps[i])) }

  lemma PointsAccepted(flat: seq<Option<string>>, steps: seq<RunStep>, ps: seq<Point>, raw: seq<RawPoint>, count: int)
    requires steps != [] && AllTimed(steps) && UniqueIds(flat) && AllGenuine(flat, steps, ps, raw)
    ensures Collect(AcceptedPoints(raw, flat, count)).Ok? <==> AllFit(ps)
    ensures AllFit(ps) ==> Collect(AcceptedPoints(raw, flat, count)) == Ok(AllCarried(ps))
  {
    var rs := AcceptedPoints(raw, flat, count);
    if AllFit(ps) {
      forall i | 0 <= i < |ps| ensures rs[i] == Ok(Carried(ps[i])) { GenuineAccepted(flat, steps, ps, raw, count, i); }
      CollectAll(rs, AllCarried(ps));
    } else {
      var i :| 0 <= i < |ps| && !Fits(ps[i]);
      GenuineAccepted(flat, steps, ps, raw, count, i);
      assert rs[i].Err?;
    }
  }

  /**
   * When the Journey's step ids are unique, the bundle carries a computed baseline with the same steps
   * and times exactly when its counts, names and total are within the bundle's limits.
   */
  lemma BaselineTravels(declared: seq<Declared>, flat: seq<Option<string>>, outcome: string, steps: seq<RunStep>)
    requires AllTimed(steps) && UniqueIds(flat) && BaselineOf(declared, flat, outcome, steps).Some?
    ensures var b := BaselineOf(declared, flat, outcome, steps).value;
            var r := Bundled(Some(Recorded(b)), flat);
            && (r.Ok? <==> WithinBundle(b))
            && (r.Ok? ==> r.value == BundleBaseline(b.steps, b.totalMs, AllCarried(b.anchors)))
  {
    var b := BaselineOf(declared, flat, outcome, steps).value;
    BaselineGenuine(declared, flat, outcome, steps);
    EndWithin(steps, steps[0]);
    WholeRound(b.steps);
    WholeRound(b.totalMs);
    PointsAccepted(flat, steps, b.anchors, Recorded(b).anchors, b.steps);
    forall i | 0 <= i < |b.anchors| ensures 0 <= b.anchors[i].atMs <= b.totalMs {
      GenuineWithin(flat, steps, b.anchors[i]);
    }
  }

  ghost predicate WithinBundle(b: Baseline) {
    && b.steps <= MAX_STEP && b.totalMs <= MAX_MS && |b.anchors| <= MAX_STEP + 2
    && forall i :: 0 <= i < |b.anchors| ==> CatalogFile.CatalogId(b.anchors[i].name) && b.anchors[i].step <= MAX_STEP
  }

  /** A declared name is an id and the Journey has at most 200 steps and 200 anchors: only the total can be too long. */
  lemma DayLongRunsTravel(declared: seq<Declared>, flat: seq<Option<string>>, outcome: string, steps: seq<RunStep>)
    requires AllTimed(steps) && UniqueIds(flat) && BaselineOf(declared, flat, outcome, steps).Some?
    requires |flat| <= MAX_STEP && |declared| <= MAX_STEP && |steps| <= MAX_STEP
    requires forall i :: 0 <= i < |steps| ==> steps[i].index < |flat|
    requires forall i :: 0 <= i < |declared| ==> CatalogFile.CatalogId(declared[i].name)
    ensures Bundled(Some(Recorded(BaselineOf(declared, flat, outcome, steps).value)), flat).Ok? <==>
          TotalMs(steps) <= MAX_MS
  {
    var b := BaselineOf(declared, flat, outcome, steps).value;
    BaselineGenuine(declared, flat, outcome, steps);
    PointNames(declared, flat, steps, |declared|);
    forall i | 0 <= i < |b.anchors| ensures b.anchors[i].step <= MAX_STEP { GenuineWithin(flat, steps, b.anchors[i]); }
    BaselineTravels(declared, flat, outcome, steps);
  }

  lemma {:induction false} PointNames(declared: seq<Declared>, flat: seq<Option<string>>, steps: seq<RunStep>, n: nat)
    requires steps != [] && n <= |declared|
    requires forall i :: 0 <= i < |declared| ==> CatalogFile.CatalogId(declared[i].name)
    ensures |Points(declared, flat, steps, n)| <= n + 1
    ensures forall i :: 0 <= i < |Points(declared, flat, steps, n)| ==>
          CatalogFile.CatalogId(Points(declared, flat, steps, n)[i].name)
  {
    if n == 0 {
      assert CatalogFile.CatalogId("job_start");
    } else {
      PointNames(declared, flat, steps, n - 1);
    }
  }
}
