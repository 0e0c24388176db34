/** What the sum of any runs' usage is, also of runs read back from older results. */
module UsageSums {
  import opened Wrappers
  import opened Lists
  import opened Usage

  function SumNat(f: Counts -> nat, runs: seq<Option<Counts>>): nat {
    if runs == [] then 0
    else SumNat(f, runs[..|runs| - 1]) + match runs[|runs| - 1] case Some(u) => f(u) case None => 0
  }

  function SumReal(f: Counts -> real, runs: seq<Option<Counts>>): real {
    if runs == [] then 0.0
    else SumReal(f, runs[..|runs| - 1]) + match runs[|runs| - 1] case Some(u) => f(u) case None => 0.0
  }

  /** How many runs reported nothing. */
  function Silent(runs: seq<Option<Counts>>): nat {
    if runs == [] then 0 else Silent(runs[..|runs| - 1]) + if runs[|runs| - 1].None? then 1 else 0
  }

  /** Only a total, with no cost by kind, as older results have it. */
  predicate TotalOnly(u: Counts) { u.jevUsd == None && u.generationUsd == None }

  function JudgmentCost(u: Counts): real { u.jevUsd.GetOr(0.0) }

  /** A total without kinds counts as generation. */
  function GenerationCost(u: Counts): real {
    if TotalOnly(u) then u.totalUsd.GetOr(0.0) else u.generationUsd.GetOr(0.0)
  }

  predicate HasCost(u: Counts) { u.jevUsd.Some? || u.generationUsd.Some? || u.totalUsd.Some? }

  /** Some of the run's calls may have a price that is not in its costs. */
  predicate Underpriced(u: Counts) { u.judgments + u.generations > 0 && (u.priced.Partial? || u.priced.Unknown?) }

  ghost predicate SomeRun(p: Counts -> bool, runs: seq<Option<Counts>>) {
    exists i :: 0 <= i < |runs| && runs[i].Some? && p(runs[i].value)
  }

  lemma SomeRunNext(p: Counts -> bool, front: seq<Option<Counts>>, run: Option<Counts>)
    ensures SomeRun(p, front + [run]) <==> SomeRun(p, front) || (run.Some? && p(run.value))
  {
    var all := front + [run];
    assert all[|front|] == run && forall i :: 0 <= i < |front| ==> all[i] == front[i];
    if i :| 0 <= i < |front| && front[i].Some? && p(front[i].value) { assert all[i].Some?; }
  }

  lemma {:induction false} CountsAddUp(runs: seq<Option<Counts>>)
    ensures var t := RunTallyOf(runs);
            && t.judgments == SumNat((u: Counts) => u.judgments, runs)
            && t.generations == SumNat((u: Counts) => u.generations, runs)
            && t.inputTokens == SumNat((u: Counts) => u.inputTokens, runs)
            && t.outputTokens == SumNat((u: Counts) => u.outputTokens, runs)
            && t.failed == SumNat((u: Counts) => u.failedCalls, runs)
            && t.unreported == Silent(runs)
  {
    if runs != [] { CountsAddUp(runs[..|runs| - 1]); }
  }

  lemma {:induction false} CostsAddUp(runs: seq<Option<Counts>>)
    ensures var t := RunTallyOf(runs);
            && t.jevUsd.GetOr(0.0) == SumReal(JudgmentCost, runs)
            && t.generationUsd.GetOr(0.0) == SumReal(GenerationCost, runs)
            && (t.jevUsd.Some? || t.generationUsd.Some? <==> SomeRun(HasCost, runs))
            && (t.incomplete <==> SomeRun(Underpriced, runs))
  {
    if runs != [] {
      var front, last := runs[..|runs| - 1], runs[|runs| - 1];
      CostsAddUp(front);
      SomeRunNext(HasCost, front, last);
      SomeRunNext(Underpriced, front, last);
      assert runs == front + [last];
    }
  }

  /** A text that says what is missing from the sum. */
  ghost predicate Gap(runs: seq<Option<Counts>>, x: string) {
    || SomeRun((u: Counts) => x in u.missing, runs)
    || (x == "a run's usage was not fully priced" && SomeRun((u: Counts) => Underpriced(u) && u.missing == [], runs))
  }

  lemma {:induction false} GapsCollected(runs: seq<Option<Counts>>, x: string)
    ensures x in RunTallyOf(runs).missing <==> Gap(runs, x)
    ensures x in RunTallyOf(runs).sources <==> SomeRun((u: Counts) => x in u.priceSource, runs)
  {
    if runs != [] {
      var front, last := runs[..|runs| - 1], runs[|runs| - 1];
      GapsCollected(front, x);
      SomeRunNext((u: Counts) => x in u.missing, front, last);
      SomeRunNext((u: Counts) => Underpriced(u) && u.missing == [], front, last);
      SomeRunNext((u: Counts) => x in u.priceSource, front, last);
      assert runs == front + [last];
    }
  }

  /** Counts, tokens and costs add up over the runs that reported; the others are counted. */
  lemma SumExactly(runs: seq<Option<Counts>>, ignoreUnreported: bool, text: nat -> string)
    ensures var a := AggregateOf(|runs|, RunTallyOf(runs), ignoreUnreported, text);
            && a.runs == |runs| && a.unreportedRuns == Silent(runs)
            && a.counts.judgments == SumNat((u: Counts) => u.judgments, runs)
            && a.counts.generations == SumNat((u: Counts) => u.generations, runs)
            && a.counts.inputTokens == SumNat((u: Counts) => u.inputTokens, runs)
            && a.counts.outputTokens == SumNat((u: Counts) => u.outputTokens, runs)
            && a.counts.failedCalls == SumNat((u: Counts) => u.failedCalls, runs)
            && a.tokens == a.counts.inputTokens + a.counts.outputTokens
  {
    CountsAddUp(runs);
  }

  /**
   * The costs add up too, by kind and in total; the sum is `full` exactly when there are calls, there is a cost,
   * no run was underpriced, and no silent run counts; it names every gap once.
   */
  lemma CostsExactly(runs: seq<Option<Counts>>, ignoreUnreported: bool, text: nat -> string)
    ensures var a := AggregateOf(|runs|, RunTallyOf(runs), ignoreUnreported, text);
            var open := Silent(runs) > 0 && !ignoreUnreported;
            var calls := a.counts.judgments + a.counts.generations;
            && a.counts.jevUsd.GetOr(0.0) == SumReal(JudgmentCost, runs)
            && a.counts.generationUsd.GetOr(0.0) == SumReal(GenerationCost, runs)
            && a.counts.totalUsd.GetOr(0.0) == SumReal(JudgmentCost, runs) + SumReal(GenerationCost, runs)
            && (a.counts.totalUsd.Some? <==> SomeRun(HasCost, runs))
            && (a.counts.priced.Full? <==>
                calls > 0 && SomeRun(HasCost, runs) && !SomeRun(Underpriced, runs) && !open)
            && (a.counts.priced.Partial? <==> SomeRun(HasCost, runs) && (SomeRun(Underpriced, runs) || open))
  {
    CountsAddUp(runs);
    CostsAddUp(runs);
  }

  lemma GapsExactly(runs: seq<Option<Counts>>, ignoreUnreported: bool, text: nat -> string, x: string)
    ensures var a := AggregateOf(|runs|, RunTallyOf(runs), ignoreUnreported, text);
            && (x in a.counts.missing <==>
                Gap(runs, x) || (Silent(runs) > 0 && !ignoreUnreported && x == text(Silent(runs))))
            && (x in a.counts.priceSource <==> SomeRun((u: Counts) => x in u.priceSource, runs))
            && Distinct(a.counts.missing) && Distinct(a.counts.priceSource)
  {
    var t := RunTallyOf(runs);
    CountsAddUp(runs);
    GapsCollected(runs, x);
    var open := t.unreported > 0 && !ignoreUnreported;
    UniqMembers(t.missing + if open then [text(t.unreported)] else []);
    UniqMembers(t.sources);
  }
}
