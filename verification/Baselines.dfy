/** The machine baseline of a clean Journey run: its anchor times, from its step timings (anchor-baselines.ts). */
module Baselines {
  import opened Wrappers
  import opened StepTiming

  // ---------- the baseline ----------

  /** `Math.round`. */
  function Round(x: real): int { (x + 0.5).Floor }

  lemma RoundMonotone(x: real, y: real)
    requires x <= y
    ensures Round(x) <= Round(y)
  {
  }

  datatype Declared = Declared(name: string, step: nat, stepId: Option<string>)
  datatype Point = Point(name: string, step: int, stepId: Option<string>, atMs: int)
  datatype Baseline = Baseline(steps: nat, totalMs: int, anchors: seq<Point>)

  function Least(xs: seq<real>): (r: real)
    requires xs != []
    ensures r in xs && forall i :: 0 <= i < |xs| ==> r <= xs[i]
  {
    if |xs| == 1 then xs[0]
    else
      var n := |xs| - 1;
      var rest := Least(xs[..n]);
      if xs[n] < rest then xs[n] else rest
  }

  function Greatest(xs: seq<real>): (r: real)
    requires xs != []
    ensures r in xs && forall i :: 0 <= i < |xs| ==> xs[i] <= r
  {
    if |xs| == 1 then xs[0]
    else
      var n := |xs| - 1;
      var rest := Greatest(xs[..n]);
      if xs[n] > rest then xs[n] else rest
  }

  function Starts(steps: seq<RunStep>): seq<real> { seq(|steps|, i requires 0 <= i < |steps| => steps[i].atMs) }

  function FirstStart(steps: seq<RunStep>): real
    requires steps != []
  {
    Least(Starts(steps))
  }

  /** When a step completed, counted from the first start. */
  function End(steps: seq<RunStep>, s: RunStep): real
    requires steps != []
  {
    s.atMs - FirstStart(steps) + s.durationMs
  }

  function Ends(steps: seq<RunStep>): seq<real>
    requires steps != []
  {
    seq(|steps|, i requires 0 <= i < |steps| => End(steps, steps[i]))
  }

  function TotalMs(steps: seq<RunStep>): int
    requires steps != []
  {
    Round(Greatest(Ends(steps)))
  }

  function LastIndex(steps: seq<RunStep>): (r: nat)
    requires steps != []
    ensures forall i :: 0 <= i < |steps| ==> steps[i].index <= r
    ensures exists i :: 0 <= i < |steps| && steps[i].index == r
  {
    if |steps| == 1 then steps[0].index
    else
      var n := |steps| - 1;
      var rest := LastIndex(steps[..n]);
      assert forall i :: 0 <= i < n ==> steps[..n][i] == steps[i];
      if steps[n].index > rest then steps[n].index else rest
  }

  function FirstIndex(steps: seq<RunStep>): (r: nat)
    requires steps != []
    ensures forall i :: 0 <= i < |steps| ==> r <= steps[i].index
    ensures exists i :: 0 <= i < |steps| && steps[i].index == r
  {
    if |steps| == 1 then steps[0].index
    else
      var n := |steps| - 1;
      var rest := FirstIndex(steps[..n]);
      assert forall i :: 0 <= i < n ==> steps[..n][i] == steps[i];
      if steps[n].index < rest then steps[n].index else rest
  }

  /** The timing of a step: the last one recorded for its index. */
  function Ran(steps: seq<RunStep>, index: int): (r: Option<RunStep>)
    ensures r.Some? ==> r.value in steps && r.value.index == index
  {
    if steps == [] then None
    else if steps[|steps| - 1].index == index then Some(steps[|steps| - 1])
    else Ran(steps[..|steps| - 1], index)
  }

  /** The first step of that id, or the length. */
  function IndexOfId(flat: seq<Option<string>>, id: string): (i: nat)
    ensures i <= |flat| && (i < |flat| ==> flat[i] == Some(id)) && forall k :: 0 <= k < i ==> flat[k] != Some(id)
  {
    if flat == [] || flat[0] == Some(id) then 0 else 1 + IndexOfId(flat[1..], id)
  }

  function IndexOfAnchor(flat: seq<Option<string>>, a: Declared): int {
    var byId := if a.stepId.Some? then IndexOfId(flat, a.stepId.value) else |flat|;
    if byId < |flat| then byId else a.step - 1
  }

  function StepIdAt(flat: seq<Option<string>>, i: int): Option<string> { if 0 <= i < |flat| then flat[i] else None }

  function PointOf(flat: seq<Option<string>>, steps: seq<RunStep>, a: Declared): Option<Point>
    requires steps != []
  {
    var index := IndexOfAnchor(flat, a);
    var ran := Ran(steps, index);
    if ran.None? then None else Some(Point(a.name, index + 1, StepIdAt(flat, index), Round(End(steps, ran.value))))
  }

  /** The points of the first `n` declared anchors whose step ran, after the start point. */
  function Points(declared: seq<Declared>, flat: seq<Option<string>>, steps: seq<RunStep>, n: nat): seq<Point>
    requires steps != [] && n <= |declared|
  {
    if n == 0 then [Point("job_start", FirstIndex(steps) + 1, None, 0)]
    else
      var p := PointOf(flat, steps, declared[n - 1]);
      Points(declared, flat, steps, n - 1) + if p.Some? then [p.value] else []
  }

  function BaselineOf(declared: seq<Declared>, flat: seq<Option<string>>, outcome: string,
      steps: seq<RunStep>): Option<Baseline> {
    if outcome != "completed" || steps == [] then None
    else Some(Baseline(|steps|, TotalMs(steps),
                       Points(declared, flat, steps, |declared|)
                           + [Point("job_end", LastIndex(steps) + 1, None, TotalMs(steps))]))
  }

  method AnchorBaseline(declared: seq<Declared>, flat: seq<Option<string>>, outcome: string, steps: seq<RunStep>)
    returns (b: Option<Baseline>)
    ensures b == BaselineOf(declared, flat, outcome, steps)
  {
    if outcome != "completed" || steps == [] { return None; }
    var totalMs := TotalMs(steps);
    var anchors := [Point("job_start", FirstIndex(steps) + 1, None, 0)];
    for i := 0 to |declared|
      invariant anchors == Points(declared, flat, steps, i)
    {
      var a := declared[i];
      var index := IndexOfAnchor(flat, a);
      var ran := Ran(steps, index);
      if ran.None? { continue; }
      anchors := anchors + [Point(a.name, index + 1, StepIdAt(flat, index), Round(End(steps, ran.value)))];
    }
    anchors := anchors + [Point("job_end", LastIndex(steps) + 1, None, totalMs)];
    return Some(Baseline(|steps|, totalMs, anchors));
  }

  // ---------- anchor times ----------

  ghost predicate AllTimed(steps: seq<RunStep>) { forall i :: 0 <= i < |steps| ==> Timed(steps[i]) }

  lemma EndWithin(steps: seq<RunStep>, s: RunStep)
    requires s in steps && AllTimed(steps)
    ensures 0 <= Round(End(steps, s)) <= TotalMs(steps)
  {
    var i :| 0 <= i < |steps| && steps[i] == s;
    assert Starts(steps)[i] == s.atMs && Ends(steps)[i] == End(steps, s);
    RoundMonotone(0.0, End(steps, s));
    RoundMonotone(End(steps, s), Greatest(Ends(steps)));
  }

  lemma {:induction false} PointsPrefix(declared: seq<Declared>, flat: seq<Option<string>>, steps: seq<RunStep>,
      m: nat, n: nat)
    requires steps != [] && m <= n <= |declared|
    ensures Points(declared, flat, steps, m) <= Points(declared, flat, steps, n)
    decreases n
  {
    if m < n { PointsPrefix(declared, flat, steps, m, n - 1); }
  }

  /** Each declared anchor whose step ran is listed under its name, after those declared before it. */
  lemma RanAnchorIsListed(declared: seq<Declared>, flat: seq<Option<string>>, outcome: string, steps: seq<RunStep>,
      i: nat)
    requires i < |declared| && BaselineOf(declared, flat, outcome, steps).Some?
    requires Ran(steps, IndexOfAnchor(flat, declared[i])).Some?
    ensures var b, at := BaselineOf(declared, flat, outcome, steps).value, |Points(declared, flat, steps, i)|;
            && at < |b.anchors| - 1 && b.anchors[at].name == declared[i].name
            && b.anchors[at].step == IndexOfAnchor(flat, declared[i]) + 1 && RanPoint(flat, steps, b.anchors[at])
  {
    PointsPrefix(declared, flat, steps, i + 1, |declared|);
    var at := |Points(declared, flat, steps, i)|;
    assert Points(declared, flat, steps, i + 1)[at] == PointOf(flat, steps, declared[i]).value;
  }

  /** What a point of a baseline is: the start, the end, or an anchor whose step ran. */
  ghost predicate Genuine(flat: seq<Option<string>>, steps: seq<RunStep>, p: Point)
    requires steps != []
  {
    || p == Point("job_start", FirstIndex(steps) + 1, None, 0)
    || p == Point("job_end", LastIndex(steps) + 1, None, TotalMs(steps))
    || RanPoint(flat, steps, p)
  }

  ghost predicate RanPoint(flat: seq<Option<string>>, steps: seq<RunStep>, p: Point)
    requires steps != []
  {
    var ran := Ran(steps, p.step - 1);
    ran.Some? && p.stepId == StepIdAt(flat, p.step - 1) && p.atMs == Round(End(steps, ran.value))
  }

  lemma {:induction false} PointsGenuine(declared: seq<Declared>, flat: seq<Option<string>>, steps: seq<RunStep>,
      n: nat)
    requires steps != [] && n <= |declared|
    ensures forall i :: 0 <= i < |Points(declared, flat, steps, n)| ==>
          Genuine(flat, steps, Points(declared, flat, steps, n)[i])
  {
    if n > 0 { PointsGenuine(declared, flat, steps, n - 1); }
  }

  lemma BaselineGenuine(declared: seq<Declared>, flat: seq<Option<string>>, outcome: string, steps: seq<RunStep>)
    requires BaselineOf(declared, flat, outcome, steps).Some?
    ensures var b := BaselineOf(declared, flat, outcome, steps).value;
            forall i :: 0 <= i < |b.anchors| ==> Genuine(flat, steps, b.anchors[i])
  {
    PointsGenuine(declared, flat, steps, |declared|);
  }

  lemma GenuineWithin(flat: seq<Option<string>>, steps: seq<RunStep>, p: Point)
    requires steps != [] && AllTimed(steps) && Genuine(flat, steps, p)
    ensures 0 <= p.atMs <= TotalMs(steps)
    ensures FirstIndex(steps) + 1 <= p.step <= LastIndex(steps) + 1
  {
    EndWithin(steps, steps[0]);
    if RanPoint(flat, steps, p) {
      EndWithin(steps, Ran(steps, p.step - 1).value);
    }
  }

  /** Every anchor time of a baseline lies between 0 and its total. */
  lemma TimesWithin(declared: seq<Declared>, flat: seq<Option<string>>, outcome: string, steps: seq<RunStep>)
    requires AllTimed(steps) && BaselineOf(declared, flat, outcome, steps).Some?
    ensures var b := BaselineOf(declared, flat, outcome, steps).value;
            forall i :: 0 <= i < |b.anchors| ==> 0 <= b.anchors[i].atMs <= b.totalMs
  {
    BaselineGenuine(declared, flat, outcome, steps);
    var b := BaselineOf(declared, flat, outcome, steps).value;
    forall i | 0 <= i < |b.anchors| ensures 0 <= b.anchors[i].atMs <= b.totalMs {
      GenuineWithin(flat, steps, b.anchors[i]);
    }
  }

  lemma LaterEnd(steps: seq<RunStep>, s: RunStep, t: RunStep)
    requires s in steps && t in steps && AllTimed(steps) && Sequential(steps) && s.index < t.index
    ensures Round(End(steps, s)) <= Round(End(steps, t))
  {
    var i :| 0 <= i < |steps| && steps[i] == s;
    var j :| 0 <= j < |steps| && steps[j] == t;
    assert Timed(steps[j]);
    RoundMonotone(End(steps, s), End(steps, t));
  }

  lemma RanInOrder(flat: seq<Option<string>>, steps: seq<RunStep>, p: Point, q: Point)
    requires steps != [] && AllTimed(steps) && Sequential(steps)
    requires RanPoint(flat, steps, p) && RanPoint(flat, steps, q) && p.step < q.step
    ensures p.atMs <= q.atMs
  {
    LaterEnd(steps, Ran(steps, p.step - 1).value, Ran(steps, q.step - 1).value);
  }

  ghost predicate Within(steps: seq<RunStep>, p: Point)
    requires steps != []
  {
    0 <= p.atMs <= TotalMs(steps) && FirstIndex(steps) + 1 <= p.step <= LastIndex(steps) + 1
  }

  lemma StartOrEnd(flat: seq<Option<string>>, steps: seq<RunStep>, p: Point, q: Point)
    requires steps != [] && Within(steps, p) && Within(steps, q) && p.step < q.step
    requires Genuine(flat, steps, p) && Genuine(flat, steps, q)
          && !(RanPoint(flat, steps, p) && RanPoint(flat, steps, q))
    ensures p.atMs <= q.atMs
  {
  }

  lemma InStepOrder(flat: seq<Option<string>>, steps: seq<RunStep>, p: Point, q: Point)
    requires steps != [] && AllTimed(steps) && Sequential(steps)
    requires Genuine(flat, steps, p) && Genuine(flat, steps, q) && p.step < q.step
    ensures p.atMs <= q.atMs
  {
    if RanPoint(flat, steps, p) && RanPoint(flat, steps, q) {
      RanInOrder(flat, steps, p, q);
    } else {
      GenuineWithin(flat, steps, p);
      GenuineWithin(flat, steps, q);
      StartOrEnd(flat, steps, p, q);
    }
  }

  /** When step intervals do not overlap, a later step's anchor has no earlier time. */
  lemma TimesInStepOrder(declared: seq<Declared>, flat: seq<Option<string>>, outcome: string, steps: seq<RunStep>)
    requires AllTimed(steps) && Sequential(steps) && BaselineOf(declared, flat, outcome, steps).Some?
    ensures var b := BaselineOf(declared, flat, outcome, steps).value;
            forall i, j :: 0 <= i < |b.anchors| && 0 <= j < |b.anchors| && b.anchors[i].step < b.anchors[j].step ==>
                b.anchors[i].atMs <= b.anchors[j].atMs
  {
    BaselineGenuine(declared, flat, outcome, steps);
    var b := BaselineOf(declared, flat, outcome, steps).value;
    forall i, j | 0 <= i < |b.anchors| && 0 <= j < |b.anchors| && b.anchors[i].step < b.anchors[j].step
      ensures b.anchors[i].atMs <= b.anchors[j].atMs
    {
      InStepOrder(flat, steps, b.anchors[i], b.anchors[j]);
    }
  }
}
