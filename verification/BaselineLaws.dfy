/** What the times of a baseline are, and which baselines a bundle takes. */
module BaselineLaws {
  import opened Wrappers
  import opened StepTiming
  import opened Baselines
  import opened BundleBaselines
  import opened CatalogReading

  /** The whole number of milliseconds nearest to `x`, the later one of two. */
  ghost predicate Nearest(n: int, x: real) { n as real - 0.5 <= x < n as real + 0.5 }

  lemma RoundExactly(x: real, n: int)
    ensures Round(x) == n <==> Nearest(n, x)
  {
  }

  // ---------- times ----------

  /** No step started before `f`. */
  ghost predicate Earliest(steps: seq<RunStep>, f: RunStep) {
    f in steps && forall s <- steps :: f.atMs <= s.atMs
  }

  lemma StartIs(steps: seq<RunStep>, f: RunStep)
    requires Earliest(steps, f)
    ensures FirstStart(steps) == f.atMs
  {
    var starts := Starts(steps);
    var i :| 0 <= i < |steps| && steps[i] == f;
    assert starts[i] == f.atMs;
    var k :| 0 <= k < |starts| && starts[k] == Least(starts);
    assert steps[k] in steps;
  }

  /** A step's completion, counted from the first start. */
  function Completion(f: RunStep, s: RunStep): real { s.atMs + s.durationMs - f.atMs }

  lemma EndIs(steps: seq<RunStep>, f: RunStep, s: RunStep)
    requires Earliest(steps, f)
    ensures End(steps, s) == Completion(f, s)
  {
    StartIs(steps, f);
  }

  /** The total is the last completion. */
  lemma TotalExactly(steps: seq<RunStep>, f: RunStep, last: RunStep)
    requires Earliest(steps, f) && last in steps && forall s <- steps :: Completion(f, s) <= Completion(f, last)
    ensures Nearest(TotalMs(steps), Completion(f, last))
  {
    var ends := Ends(steps);
    forall i | 0 <= i < |steps| ensures ends[i] == Completion(f, steps[i]) { EndIs(steps, f, steps[i]); }
    var i :| 0 <= i < |steps| && steps[i] == last;
    assert ends[i] == Completion(f, last);
    var k :| 0 <= k < |ends| && ends[k] == Greatest(ends);
    assert steps[k] in steps;
  }

  // ---------- anchors ----------

  /** Where the anchor's step is: at its id's first place, if the Journey has it, and else at its number. */
  ghost predicate StandsAt(flat: seq<Option<string>>, a: Declared, i: int) {
    if a.stepId.Some? && a.stepId in flat then
      0 <= i < |flat| && flat[i] == a.stepId && forall k :: 0 <= k < i ==> flat[k] != a.stepId
    else i == a.step - 1
  }

  /** The step at `i` ran, last with this timing. */
  ghost predicate LastTiming(steps: seq<RunStep>, i: int, s: RunStep) {
    exists j :: 0 <= j < |steps| && LastAt(steps, i, s, j)
  }

  ghost predicate LastAt(steps: seq<RunStep>, i: int, s: RunStep, j: nat)
    requires j < |steps|
  {
    steps[j] == s && s.index == i && forall k :: j < k < |steps| ==> steps[k].index != i
  }

  lemma IndexExactly(flat: seq<Option<string>>, a: Declared, i: int)
    ensures IndexOfAnchor(flat, a) == i <==> StandsAt(flat, a, i)
  {
    if a.stepId.Some? {
      var at := IndexOfId(flat, a.stepId.value);
      if at == |flat| { assert a.stepId !in flat; } else { assert flat[at] in flat; }
    }
  }

  lemma {:induction false} RanExactly(steps: seq<RunStep>, i: int, s: RunStep)
    ensures Ran(steps, i) == Some(s) <==> LastTiming(steps, i, s)
  {
    if steps != [] && steps[|steps| - 1].index != i {
      var front := steps[..|steps| - 1];
      RanExactly(front, i, s);
      if LastTiming(front, i, s) {
        var j :| 0 <= j < |front| && LastAt(front, i, s, j);
        assert LastAt(steps, i, s, j);
      }
      if LastTiming(steps, i, s) {
        var j :| 0 <= j < |steps| && LastAt(steps, i, s, j);
        assert LastAt(front, i, s, j);
      }
    } else if steps != [] {
      assert LastAt(steps, i, steps[|steps| - 1], |steps| - 1);
    }
  }

  /** The anchor's step has no timing. */
  ghost predicate NeverRan(flat: seq<Option<string>>, steps: seq<RunStep>, a: Declared) {
    forall i: int, s :: StandsAt(flat, a, i) ==> !LastTiming(steps, i, s)
  }

  /** What is listed for an anchor. */
  ghost predicate PointFor(flat: seq<Option<string>>, steps: seq<RunStep>, a: Declared, p: Point) {
    exists i: int, s, f :: StandsAt(flat, a, i) && LastTiming(steps, i, s) && Earliest(steps, f)
      && p.name == a.name && p.step == i + 1 && p.stepId == (if 0 <= i < |flat| then flat[i] else None)
      && Nearest(p.atMs, Completion(f, s))
  }

  lemma SomeEarliest(steps: seq<RunStep>) returns (f: RunStep)
    requires steps != []
    ensures Earliest(steps, f)
  {
    var starts := Starts(steps);
    var k :| 0 <= k < |starts| && starts[k] == Least(starts);
    f := steps[k];
    forall s | s in steps ensures f.atMs <= s.atMs {
      var i :| 0 <= i < |steps| && steps[i] == s;
      assert Least(starts) <= starts[i] && starts[i] == s.atMs && starts[k] == f.atMs;
    }
  }

  /** An anchor is listed exactly when its step ran, with the step and the time of its completion. */
  lemma PointExactly(flat: seq<Option<string>>, steps: seq<RunStep>, a: Declared)
    requires steps != []
    ensures PointOf(flat, steps, a).None? <==> NeverRan(flat, steps, a)
    ensures PointOf(flat, steps, a).Some? ==> PointFor(flat, steps, a, PointOf(flat, steps, a).value)
  {
    var i := IndexOfAnchor(flat, a);
    var ran := Ran(steps, i);
    var f := SomeEarliest(steps);
    IndexExactly(flat, a, i);
    forall k: int ensures StandsAt(flat, a, k) <==> k == i { IndexExactly(flat, a, k); }
    forall s ensures ran == Some(s) <==> LastTiming(steps, i, s) { RanExactly(steps, i, s); }
    if ran.Some? {
      EndIs(steps, f, ran.value);
      assert LastTiming(steps, i, ran.value);
      assert Nearest(Round(End(steps, ran.value)), Completion(f, ran.value));
    }
  }

  /** The points between the first and the last are those of the anchors whose step ran, in their order. */
  ghost predicate Listing(declared: seq<Declared>, flat: seq<Option<string>>, steps: seq<RunStep>, ps: seq<Point>)
    requires steps != []
    decreases |declared|
  {
    if declared == [] then ps == []
    else
      var front, a := declared[..|declared| - 1], declared[|declared| - 1];
      if NeverRan(flat, steps, a) then Listing(front, flat, steps, ps)
      else ps != [] && PointFor(flat, steps, a, ps[|ps| - 1]) && Listing(front, flat, steps, ps[..|ps| - 1])
  }

  lemma ListingNext(
    front: seq<Declared>, flat: seq<Option<string>>, steps: seq<RunStep>, ps: seq<Point>, a: Declared,
    p: Option<Point>)
    requires steps != [] && Listing(front, flat, steps, ps) && (p.None? <==> NeverRan(flat, steps, a))
    requires p.Some? ==> PointFor(flat, steps, a, p.value)
    ensures Listing(front + [a], flat, steps, if p.Some? then ps + [p.value] else ps)
  {
    var all := front + [a];
    assert all[..|front|] == front && all[|front|] == a;
    if p.Some? { assert (ps + [p.value])[..|ps|] == ps; }
  }

  lemma {:induction false} StartFirst(
    declared: seq<Declared>, flat: seq<Option<string>>, steps: seq<RunStep>, n: nat)
    requires steps != [] && n <= |declared|
    ensures var ps := Points(declared, flat, steps, n);
            ps != [] && ps[0] == Point("job_start", FirstIndex(steps) + 1, None, 0)
  {
    if n > 0 { StartFirst(declared, flat, steps, n - 1); }
  }

  lemma NextPoint(
    declared: seq<Declared>, flat: seq<Option<string>>, steps: seq<RunStep>, n: nat, front: seq<Point>,
    p: Option<Point>)
    requires steps != [] && n < |declared| && front != [] && Points(declared, flat, steps, n) == front
    requires p == PointOf(flat, steps, declared[n])
    ensures Points(declared, flat, steps, n + 1)[1..] == if p.Some? then front[1..] + [p.value] else front[1..]
  {
  }

  lemma {:induction false} PointsListed(
    declared: seq<Declared>, flat: seq<Option<string>>, steps: seq<RunStep>, n: nat, ps: seq<Point>)
    requires steps != [] && n <= |declared| && Points(declared, flat, steps, n) == ps
    ensures ps != [] && Listing(declared[..n], flat, steps, ps[1..])
  {
    StartFirst(declared, flat, steps, n);
    if n > 0 {
      var front, a := Points(declared, flat, steps, n - 1), declared[n - 1];
      var p := PointOf(flat, steps, a);
      StartFirst(declared, flat, steps, n - 1);
      PointsListed(declared, flat, steps, n - 1, front);
      PointExactly(flat, steps, a);
      ListingNext(declared[..n - 1], flat, steps, front[1..], a, p);
      NextPoint(declared, flat, steps, n - 1, front, p);
      assert declared[..n] == declared[..n - 1] + [a];
    }
  }

  /** The whole baseline of a run that completed: its steps, its total, the anchors between its start and its end. */
  lemma BaselineExactly(declared: seq<Declared>, flat: seq<Option<string>>, outcome: string, steps: seq<RunStep>)
    ensures var r := BaselineOf(declared, flat, outcome, steps);
            && (r.Some? <==> outcome == "completed" && |steps| > 0)
            && (r.Some? ==>
                var (b, n) := (r.value, |r.value.anchors|);
                && b.steps == |steps| && b.totalMs == TotalMs(steps)
                && n >= 2
                && (forall s <- steps :: b.anchors[0].step <= s.index + 1 <= b.anchors[n - 1].step)
                && (exists s <- steps :: b.anchors[0] == Point("job_start", s.index + 1, None, 0))
                && (exists s <- steps :: b.anchors[n - 1] == Point("job_end", s.index + 1, None, b.totalMs))
                && Listing(declared, flat, steps, b.anchors[1..n - 1]))
  {
    if outcome == "completed" && steps != [] {
      var b, ps := BaselineOf(declared, flat, outcome, steps).value, Points(declared, flat, steps, |declared|);
      PointsListed(declared, flat, steps, |declared|, ps);
      StartFirst(declared, flat, steps, |declared|);
      assert declared[..|declared|] == declared;
      var n := |b.anchors|;
      assert b.anchors[..n - 1] == ps && b.anchors[0] == ps[0] && b.anchors[1..n - 1] == ps[1..];
      var i :| 0 <= i < |steps| && steps[i].index == FirstIndex(steps);
      var k :| 0 <= k < |steps| && steps[k].index == LastIndex(steps);
      assert steps[i] in steps && steps[k] in steps;
    }
  }

  // ---------- what a bundle takes ----------

  /** A time of up to a day. */
  ghost predicate TakenTime(v: Option<real>, ms: int) {
    v.Some? && v.value >= 0.0 && Nearest(ms, v.value) && ms <= 24 * 60 * 60 * 1000
  }

  lemma TimeExactly(v: Option<real>, ms: int)
    ensures IntMs(v) == Some(ms) <==> TakenTime(v, ms)
  {
  }

  predicate IsWhole(v: Option<real>, k: int) { v == Some(k as real) }

  /** The step a recorded point names: by its id, else by its number, else as the start or the end. */
  ghost predicate NamesStep(p: RawPoint, flat: seq<Option<string>>, steps: int, n: int) {
    if p.stepId.Some? && p.stepId in flat then
      1 <= n <= |flat| && flat[n - 1] == p.stepId && forall k :: 0 <= k < n - 1 ==> flat[k] != p.stepId
    else if exists k: int :: IsWhole(p.step, k) then IsWhole(p.step, n)
    else (p.name == Some("job_start") && n == 1) || (p.name == Some("job_end") && n == steps)
  }

  lemma WholeExactly(v: Option<real>, n: int)
    ensures Whole(v) == Some(n) <==> v == Some(n as real)
  {
  }

  lemma StepExactly(p: RawPoint, flat: seq<Option<string>>, steps: int, n: int)
    ensures StepOf(p, flat, steps) == Some(n) <==> NamesStep(p, flat, steps, n)
  {
    WholeExactly(p.step, n);
    if p.stepId.Some? {
      var at := IndexOfId(flat, p.stepId.value);
      if at == |flat| { assert p.stepId !in flat; } else { assert flat[at] in flat; }
    }
    if Whole(p.step).Some? {
      WholeExactly(p.step, Whole(p.step).value);
      assert IsWhole(p.step, Whole(p.step).value);
    } else if k: int :| IsWhole(p.step, k) {
      WholeExactly(p.step, k);
    }
  }

  /** A recorded point as the bundle takes it. */
  ghost predicate TakenPoint(p: RawPoint, flat: seq<Option<string>>, steps: int, q: BundlePoint) {
    && p.name == Some(q.anchor) && ProperId(q.anchor)
    && NamesStep(p, flat, steps, q.step) && 1 <= q.step <= 200
    && TakenTime(p.atMs, q.atMs)
  }

  lemma PointTaken(p: RawPoint, flat: seq<Option<string>>, steps: int, q: BundlePoint)
    ensures Accepted(p, flat, steps) == Ok(q) <==> TakenPoint(p, flat, steps, q)
  {
    if p.name.Some? { IdExactly(p.name.value); }
    StepExactly(p, flat, steps, q.step);
    TimeExactly(p.atMs, q.atMs);
  }

  /** A recorded baseline as the bundle takes it, and no other: every field within its limits and every point taken. */
  ghost predicate TakenBaseline(raw: RawBaseline, flat: seq<Option<string>>, b: BundleBaseline) {
    && raw.steps == Some(b.steps as real) && 1 <= b.steps <= 200
    && TakenTime(raw.totalMs, b.totalMs)
    && |b.anchors| == |raw.anchors| <= 202
    && forall i :: 0 <= i < |raw.anchors| ==> TakenPoint(raw.anchors[i], flat, b.steps, b.anchors[i])
  }

  lemma BaselineTaken(raw: RawBaseline, flat: seq<Option<string>>, b: BundleBaseline)
    ensures Bundled(Some(raw), flat) == Ok(b) <==> TakenBaseline(raw, flat, b)
    ensures Bundled(None, flat).Err?
  {
    WholeExactly(raw.steps, b.steps);
    TimeExactly(raw.totalMs, b.totalMs);
    var rs := AcceptedPoints(raw.anchors, flat, b.steps);
    forall i | 0 <= i < |raw.anchors| && i < |b.anchors|
      ensures rs[i] == Ok(b.anchors[i]) <==> TakenPoint(raw.anchors[i], flat, b.steps, b.anchors[i])
    {
      PointTaken(raw.anchors[i], flat, b.steps, b.anchors[i]);
    }
    if TakenBaseline(raw, flat, b) { CollectAll(rs, b.anchors); }
  }
}
