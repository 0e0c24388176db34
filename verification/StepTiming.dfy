/** The per-step timing of one Journey replay (check-execute.ts). */
module StepTiming {
  import opened Wrappers

  datatype RunStep = RunStep(index: nat, stepId: Option<string>, atMs: real, durationMs: real)

  /** Timings a monotonic clock gives: no negative start, no negative duration. */
  predicate Timed(s: RunStep) { s.atMs >= 0.0 && s.durationMs >= 0.0 }

  ghost predicate Increasing(steps: seq<RunStep>) {
    forall i, j :: 0 <= i < j < |steps| ==> steps[i].index < steps[j].index
  }

  class StepTimer {
    var origin: Option<real>
    var started: map<nat, real>
    var done: map<nat, RunStep>
    ghost var now: real

    ghost predicate Valid()
      reads this
    {
      && (if origin.None? then started == map[] else origin.value <= now)
      && (forall i <- started :: origin.Some? && origin.value <= started[i] <= now)
      && (forall i <- done ::
          origin.Some? && done[i].index == i && Timed(done[i])
          && origin.value + done[i].atMs + done[i].durationMs <= now)
    }

    constructor ()
      ensures Valid() && origin.None? && done == map[]
    {
      origin, started, done := None, map[], map[];
    }

    method BeforeStep(index: nat, clock: real)
      requires Valid() && (origin.Some? ==> now <= clock)
      modifies this
      ensures Valid() && now == clock && done == old(done)
      ensures origin == if old(origin).Some? then old(origin) else Some(clock)
      ensures started == old(started)[index := clock]
    {
      now := clock;
      if origin.None? { origin := Some(clock); }
      started := started[index := clock];
    }

    /** A step re-run keeps its last timing; one that failed or never started records nothing. */
    method AfterStep(index: nat, stepId: Option<string>, completed: bool, clock: real)
      requires Valid() && (origin.Some? ==> now <= clock)
      modifies this
      ensures Valid() && now == clock && origin == old(origin) && started == old(started)
      ensures done == if completed && index in started && origin.Some? then
                        old(done)[index := RunStep(index, stepId, started[index] - origin.value,
                            clock - started[index])]
                      else old(done)
    {
      now := clock;
      if !completed || index !in started || origin.None? { return; }
      done := done[index := RunStep(index, stepId, started[index] - origin.value, clock - started[index])];
    }

    /** The timings in step order. */
    method Steps() returns (steps: seq<RunStep>)
      requires Valid()
      ensures forall s :: s in steps <==> FromMap(done, s)
      ensures Increasing(steps)
      ensures forall i :: 0 <= i < |steps| ==> Timed(steps[i])
    {
      steps := [];
      var rest := done;
      ghost var last: int := -1;
      while rest != map[]
        invariant Drawing(done, rest, steps, last)
        decreases |rest|
      {
        LeastKey(rest.Keys);
        var least: nat :| least in rest && forall i <- rest :: least <= i;
        DrawLeast(done, rest, steps, last, least);
        steps := steps + [rest[least]];
        rest := rest - {least};
        last := least;
      }
    }
  }

  /** `steps` holds, in order, the timings up to `last`; `rest` holds the others. */
  ghost predicate Drawing(done: map<nat, RunStep>, rest: map<nat, RunStep>, steps: seq<RunStep>, last: int) {
    && (forall i <- rest :: i in done && rest[i] == done[i] && last < i)
    && (forall i <- done :: i in rest || done[i] in steps)
    && (forall k :: 0 <= k < |steps| ==> steps[k].index <= last && FromMap(done, steps[k]))
    && Increasing(steps)
  }

  ghost predicate FromMap(done: map<nat, RunStep>, s: RunStep) { s.index in done && done[s.index] == s }

  lemma DrawLeast(done: map<nat, RunStep>, rest: map<nat, RunStep>, steps: seq<RunStep>, last: int, least: nat)
    requires Drawing(done, rest, steps, last) && least in rest && forall i <- rest :: least <= i
    requires forall i <- done :: done[i].index == i
    ensures Drawing(done, rest - {least}, steps + [rest[least]], least)
  {
    var next := steps + [rest[least]];
    forall i | i in done ensures i in rest - {least} || done[i] in next {
      if i == least { assert next[|steps|] == done[i]; }
    }
    forall k | 0 <= k < |next| ensures next[k].index <= least && FromMap(done, next[k]) {
      if k < |steps| { assert FromMap(done, steps[k]); }
    }
  }

  lemma LeastKey(s: set<nat>)
    requires s != {}
    ensures exists x :: x in s && forall y <- s :: x <= y
  {
    var x :| x in s;
    if s != {x} {
      LeastKey(s - {x});
      var y :| y in s - {x} && forall z <- s - {x} :: y <= z;
      var least := if x < y then x else y;
      assert forall z <- s :: z == x || z in s - {x};
      assert least in s && forall z <- s :: least <= z;
    }
  }

  /** A step has completed before any later step starts. */
  ghost predicate Sequential(steps: seq<RunStep>) {
    forall i, j :: 0 <= i < |steps| && 0 <= j < |steps| && steps[i].index < steps[j].index ==>
        steps[i].atMs + steps[i].durationMs <= steps[j].atMs
  }

  // ---------- a replay, step by step ----------

  /** One step as the interpreter runs it. */
  datatype Turn = Turn(index: nat, stepId: Option<string>, completed: bool, start: real, end: real)

  /** Each step runs once, in order, and has ended before the next one starts. */
  ghost predicate InOrder(turns: seq<Turn>) {
    && (forall i :: 0 <= i < |turns| ==> turns[i].start <= turns[i].end)
    && (forall i, j :: 0 <= i < j < |turns| ==> turns[i].index < turns[j].index && turns[i].end <= turns[j].start)
  }

  function TimingOf(turns: seq<Turn>, i: nat): RunStep
    requires i < |turns|
  {
    RunStep(turns[i].index, turns[i].stepId, turns[i].start - turns[0].start, turns[i].end - turns[i].start)
  }

  /** A step's timing: counted from the start of the first step, as long as the step took. */
  lemma TimingExactly(turns: seq<Turn>, i: nat)
    requires i < |turns|
    ensures var s := TimingOf(turns, i);
            && s.index == turns[i].index && s.stepId == turns[i].stepId
            && turns[0].start + s.atMs == turns[i].start && turns[i].start + s.durationMs == turns[i].end
  {
  }

  /** The timings recorded are those of the completed ones among the first `n` steps. */
  ghost predicate Records(done: map<nat, RunStep>, turns: seq<Turn>, n: nat)
    requires n <= |turns|
  {
    && (forall i :: 0 <= i < n && turns[i].completed ==> FromMap(done, TimingOf(turns, i)))
    && (forall k <- done :: CompletedAs(done[k], turns, n))
  }

  ghost predicate CompletedAs(s: RunStep, turns: seq<Turn>, n: nat)
    requires n <= |turns|
  {
    exists i :: 0 <= i < n && turns[i].completed && s == TimingOf(turns, i)
  }

  lemma RecordsNext(done: map<nat, RunStep>, turns: seq<Turn>, n: nat)
    requires n < |turns| && InOrder(turns) && Records(done, turns, n)
    ensures Records(if turns[n].completed then done[turns[n].index := TimingOf(turns, n)] else done, turns, n + 1)
  {
    var next := if turns[n].completed then done[turns[n].index := TimingOf(turns, n)] else done;
    forall k | k in next ensures CompletedAs(next[k], turns, n + 1) {
      if k in done && next[k] == done[k] {
        assert CompletedAs(done[k], turns, n);
        var i :| 0 <= i < n && turns[i].completed && done[k] == TimingOf(turns, i);
      }
    }
    forall i | 0 <= i < n + 1 && turns[i].completed ensures FromMap(next, TimingOf(turns, i)) {
      if i < n { assert FromMap(done, TimingOf(turns, i)) && turns[i].index < turns[n].index; }
    }
  }

  lemma CompletedInSequence(steps: seq<RunStep>, turns: seq<Turn>)
    requires InOrder(turns) && forall k :: 0 <= k < |steps| ==> CompletedAs(steps[k], turns, |turns|)
    ensures Sequential(steps)
  {
    forall a, b | 0 <= a < |steps| && 0 <= b < |steps| && steps[a].index < steps[b].index
      ensures steps[a].atMs + steps[a].durationMs <= steps[b].atMs
    {
      assert CompletedAs(steps[a], turns, |turns|) && CompletedAs(steps[b], turns, |turns|);
      var i :| 0 <= i < |turns| && turns[i].completed && steps[a] == TimingOf(turns, i);
      var j :| 0 <= j < |turns| && turns[j].completed && steps[b] == TimingOf(turns, j);
      assert i < j;
    }
  }

  /** A timer driven step by step gives the timings of exactly the completed steps, in order and without overlap. */
  method Replay(turns: seq<Turn>) returns (steps: seq<RunStep>)
    requires InOrder(turns)
    ensures forall s :: s in steps <==> CompletedAs(s, turns, |turns|)
    ensures Increasing(steps) && Sequential(steps) && forall i :: 0 <= i < |steps| ==> Timed(steps[i])
  {
    var timer := new StepTimer();
    for i := 0 to |turns|
      invariant fresh(timer) && timer.Valid() && Records(timer.done, turns, i)
      invariant i == 0 ==> timer.origin.None?
      invariant i > 0 ==> timer.origin == Some(turns[0].start) && timer.now == turns[i - 1].end
    {
      timer.BeforeStep(turns[i].index, turns[i].start);
      RecordsNext(timer.done, turns, i);
      timer.AfterStep(turns[i].index, turns[i].stepId, turns[i].completed, turns[i].end);
    }
    steps := timer.Steps();
    forall s | s in steps ensures CompletedAs(s, turns, |turns|) { assert timer.done[s.index] == s; }
    forall s | CompletedAs(s, turns, |turns|) ensures s in steps { assert FromMap(timer.done, s); }
    CompletedInSequence(steps, turns);
  }
}
