/** Usage accounting: summing a cut-up ledger, live views, and how a ledger's totals grow. */
module UsageLaws {
  import opened Wrappers
  import opened Lists
  import opened Usage

  // ---------- the fold over calls ----------

  lemma MergeAssociative(a: Tally, b: Tally, c: Tally)
    ensures Merge(Merge(a, b), c) == Merge(a, Merge(b, c))
  {
    PlusAssociative(a.jevUsd, b.jevUsd, c.jevUsd);
    PlusAssociative(a.generationUsd, b.generationUsd, c.generationUsd);
    assert a.sources + b.sources + c.sources == a.sources + (b.sources + c.sources);
  }

  lemma PlusAssociative(a: Option<real>, b: Option<real>, c: Option<real>)
    ensures Plus(Plus(a, b), c) == Plus(a, Plus(b, c))
  {
  }

  lemma MergeEmpty(a: Tally)
    ensures Merge(a, EMPTY_TALLY) == a
  {
    assert a.sources + [] == a.sources;
  }

  lemma TallySnoc(xs: seq<Call>, c: Call)
    ensures TallyOf(xs + [c]) == Merge(TallyOf(xs), OneCall(c))
  {
    assert (xs + [c])[..|xs|] == xs;
  }

  lemma SplitLast<T>(a: seq<T>, b: seq<T>)
    requires b != []
    ensures b == b[..|b| - 1] + [b[|b| - 1]] && a + b == (a + b[..|b| - 1]) + [b[|b| - 1]]
  {
  }

  lemma {:induction false} TallyConcat(a: seq<Call>, b: seq<Call>)
    ensures TallyOf(a + b) == Merge(TallyOf(a), TallyOf(b))
    decreases |b|
  {
    if b == [] {
      assert a + b == a;
      MergeEmpty(TallyOf(a));
    } else {
      var front, last := b[..|b| - 1], b[|b| - 1];
      TallyConcat(a, front);
      TallySnoc(front, last);
      TallySnoc(a + front, last);
      SplitLast(a, b);
      MergeAssociative(TallyOf(a), TallyOf(front), OneCall(last));
    }
  }

  lemma {:induction false} GapsConcat(a: seq<Entry>, b: seq<Entry>)
    ensures GapsOf(a + b) == GapsOf(a) + GapsOf(b)
    decreases |b|
  {
    if b == [] {
      assert a + b == a;
    } else {
      GapsConcat(a, b[..|b| - 1]);
      assert (a + b)[..|a + b| - 1] == a + b[..|b| - 1];
    }
  }

  function EntryTally(es: seq<Entry>): Tally { TallyOf(CallsOf(es)) }

  lemma CallsConcat(a: seq<Entry>, b: seq<Entry>)
    ensures CallsOf(a + b) == CallsOf(a) + CallsOf(b)
  {
  }

  lemma EntryTallyConcat(a: seq<Entry>, b: seq<Entry>)
    ensures EntryTally(a + b) == Merge(EntryTally(a), EntryTally(b))
  {
    CallsConcat(a, b);
    TallyConcat(CallsOf(a), CallsOf(b));
  }

  /** Every entry has a price, or the text that says why not. */
  predicate Honest(es: seq<Entry>) {
    forall i :: 0 <= i < |es| ==> (es[i].missing.Some? <==> es[i].call.usd.None?)
  }

  /** What a tally of an honest ledger satisfies. */
  predicate Consistent(t: Tally, gaps: seq<string>) {
    && (gaps == [] <==> t.unpriced == 0)
    && (Total(t.jevUsd, t.generationUsd).None? <==> t.unpriced == t.judgments + t.generations)
    && t.unpriced <= t.judgments + t.generations
  }

  lemma {:induction false} HonestConsistent(es: seq<Entry>)
    requires Honest(es)
    ensures Consistent(EntryTally(es), GapsOf(es))
  {
    if es != [] {
      var front, last := es[..|es| - 1], es[|es| - 1];
      HonestConsistent(front);
      assert CallsOf(es)[..|es| - 1] == CallsOf(front);
      assert EntryTally(es) == Merge(EntryTally(front), OneCall(last.call));
    }
  }

  // ---------- cutting a ledger into runs ----------

  function Flatten(parts: seq<seq<Entry>>): seq<Entry> {
    if parts == [] then [] else Flatten(parts[..|parts| - 1]) + parts[|parts| - 1]
  }

  /** Each part's snapshot, as a run reports it. */
  function RunsOf(parts: seq<seq<Entry>>): seq<Option<Counts>> {
    seq(|parts|, i requires 0 <= i < |parts| => Some(SnapshotOf(parts[i])))
  }

  /** What summing the parts' snapshots has in common with one pass over the whole. */
  ghost predicate Agrees(r: RunTally, t: Tally, gaps: seq<string>) {
    && r.judgments == t.judgments && r.generations == t.generations
    && r.inputTokens == t.inputTokens && r.outputTokens == t.outputTokens
    && r.jevUsd == t.jevUsd && r.generationUsd == t.generationUsd
    && r.failed == t.failed && r.unreported == 0
    && (r.incomplete <==> t.unpriced > 0)
    && Uniq(r.sources) == Uniq(t.sources)
    && Uniq(r.missing) == Uniq(gaps)
  }

  /** Appending a list, duplicates removed or not, to lists that are alike without duplicates. */
  lemma UniqAppend(a: seq<string>, b: seq<string>, x: seq<string>)
    requires Uniq(a) == Uniq(b)
    ensures Uniq(a + Uniq(x)) == Uniq(b + x)
  {
    UniqAbsorbsTail(a, x);
    UniqAbsorbs(a, x);
    UniqAbsorbs(b, x);
  }

  lemma UniqEmpty(x: seq<string>)
    ensures Uniq(x) == [] <==> x == []
  {
    UniqMembers(x);
    if x != [] { assert x[0] in Uniq(x); }
  }

  lemma AddSnapshot(r: RunTally, t: Tally, gaps: seq<string>, part: seq<Entry>)
    requires Honest(part) && Agrees(r, t, gaps)
    ensures Agrees(AddRun(r, Some(SnapshotOf(part))), Merge(t, EntryTally(part)), gaps + GapsOf(part))
  {
    var p, g := EntryTally(part), GapsOf(part);
    HonestConsistent(part);
    UniqEmpty(g);
    UniqAppend(r.sources, t.sources, p.sources);
    UniqAppend(r.missing, gaps, g);
    var u := SnapshotOf(part);
    assert u.totalUsd.None? <== u.jevUsd.None? && u.generationUsd.None?;
    assert u.judgments + u.generations > 0 && u.priced != Full <==> p.unpriced > 0;
    assert r.missing + Uniq(g) + [] == r.missing + Uniq(g);
  }

  lemma {:induction false} PartsAgree(parts: seq<seq<Entry>>)
    requires forall i :: 0 <= i < |parts| ==> Honest(parts[i])
    ensures Agrees(RunTallyOf(RunsOf(parts)), EntryTally(Flatten(parts)), GapsOf(Flatten(parts)))
    ensures Honest(Flatten(parts))
  {
    if parts != [] {
      var front, last := parts[..|parts| - 1], parts[|parts| - 1];
      PartsAgree(front);
      assert RunsOf(parts)[..|parts| - 1] == RunsOf(front);
      AddSnapshot(RunTallyOf(RunsOf(front)), EntryTally(Flatten(front)), GapsOf(Flatten(front)), last);
      EntryTallyConcat(Flatten(front), last);
      GapsConcat(Flatten(front), last);
    }
  }

  /** Summing the snapshots of consecutive runs gives the snapshot of the whole ledger. */
  lemma SumOfRunsIsWhole(parts: seq<seq<Entry>>, ignoreUnreported: bool, unreportedText: nat -> string)
    requires forall i :: 0 <= i < |parts| ==> Honest(parts[i])
    ensures var a := AggregateOf(|parts|, RunTallyOf(RunsOf(parts)), ignoreUnreported, unreportedText);
            var whole := SnapshotOf(Flatten(parts));
            a == Aggregate(|parts|, whole.inputTokens + whole.outputTokens, whole, 0)
  {
    PartsAgree(parts);
    HonestConsistent(Flatten(parts));
    AgreementAggregates(|parts|, RunTallyOf(RunsOf(parts)), EntryTally(Flatten(parts)), GapsOf(Flatten(parts)),
                        ignoreUnreported, unreportedText);
  }

  lemma AgreementAggregates(n: nat, r: RunTally, t: Tally, gaps: seq<string>, ignoreUnreported: bool,
      unreportedText: nat -> string)
    requires Agrees(r, t, gaps) && Consistent(t, gaps)
    ensures AggregateOf(n, r, ignoreUnreported, unreportedText)
         == Aggregate(n, t.inputTokens + t.outputTokens, CountsOf(t, gaps), 0)
  {
    assert r.missing + [] == r.missing;
    var total := Total(t.jevUsd, t.generationUsd);
    assert total == Total(r.jevUsd, r.generationUsd);
    assert AggregateOf(n, r, ignoreUnreported, unreportedText).counts.priced
        == DerivePriced(t.judgments + t.generations, t.unpriced, total.Some?);
  }

  // ---------- every run of the tracker ----------

  datatype Op = Record(kind: Kind, record: Record) | Scope

  /** What a tracker holds, and where each view taken so far starts. */
  datatype State = State(entries: seq<Entry>, views: seq<nat>)

  function Apply(s: State, pricing: Pricing, op: Op): State {
    match op
    case Record(kind, r) => s.(entries := s.entries + [NewEntry(|s.entries|, kind, r, pricing)])
    case Scope => s.(views := s.views + [|s.entries|])
  }

  function Run(s: State, pricing: Pricing, ops: seq<Op>): State {
    if ops == [] then s else Apply(Run(s, pricing, ops[..|ops| - 1]), pricing, ops[|ops| - 1])
  }

  /** The entries the records among `ops` make, the first of them numbered `before + 1`. */
  function Recorded(before: nat, pricing: Pricing, ops: seq<Op>): seq<Entry> {
    if ops == [] then []
    else
      var es := Recorded(before, pricing, ops[..|ops| - 1]);
      match ops[|ops| - 1]
      case Record(kind, r) => es + [NewEntry(before + |es|, kind, r, pricing)]
      case Scope => es
  }

  lemma {:induction false} RunConcat(s: State, pricing: Pricing, a: seq<Op>, b: seq<Op>)
    ensures Run(s, pricing, a + b) == Run(Run(s, pricing, a), pricing, b)
    decreases |b|
  {
    if b == [] {
      assert a + b == a;
    } else {
      assert (a + b)[..|a + b| - 1] == a + b[..|b| - 1];
      RunConcat(s, pricing, a, b[..|b| - 1]);
    }
  }

  lemma {:induction false} RunAppends(s: State, pricing: Pricing, ops: seq<Op>)
    ensures Run(s, pricing, ops).entries == s.entries + Recorded(|s.entries|, pricing, ops)
    ensures s.views <= Run(s, pricing, ops).views
  {
    if ops != [] {
      RunAppends(s, pricing, ops[..|ops| - 1]);
    }
  }

  /**
   * A view is exact and live: after any further calls and scopes it holds exactly the calls recorded
   * since it was taken, and what it held at any earlier point is a prefix of what it holds now.
   */
  lemma ViewExact(pricing: Pricing, before: seq<Op>, after: seq<Op>, later: seq<Op>)
    ensures var k := |Run(State([], []), pricing, before).views|;
            var s := Run(State([], []), pricing, before + [Scope] + after);
            var z := Run(State([], []), pricing, before + [Scope] + after + later);
            && k < |s.views| && k < |z.views| && s.views[k] == z.views[k] <= |s.entries| <= |z.entries|
            && s.entries[s.views[k]..] == Recorded(s.views[k], pricing, after)
            && s.entries[s.views[k]..] <= z.entries[z.views[k]..]
  {
    var s0 := Run(State([], []), pricing, before);
    var s1 := Apply(s0, pricing, Scope);
    RunConcat(State([], []), pricing, before, [Scope]);
    assert [Scope][..0] == [];
    assert Run(s0, pricing, [Scope]) == Apply(Run(s0, pricing, []), pricing, Scope) == s1;
    RunConcat(State([], []), pricing, before + [Scope], after);
    RunAppends(s1, pricing, after);
    var s := Run(s1, pricing, after);
    RunConcat(State([], []), pricing, before + [Scope] + after, later);
    RunAppends(s, pricing, later);
    var z := Run(s, pricing, later);
    assert s1.views[|s0.views|] == |s0.entries|;
    assert s.entries[|s0.entries|..] == Recorded(|s0.entries|, pricing, after);
    assert z.entries[|s0.entries|..] == s.entries[|s0.entries|..] + Recorded(|s.entries|, pricing, later);
  }

  /** Calls are numbered 1, 2, … in the order they were made, and every entry is honest. */
  lemma {:induction false} Numbered(pricing: Pricing, ops: seq<Op>)
    ensures var es := Run(State([], []), pricing, ops).entries;
            Honest(es) && forall i :: 0 <= i < |es| ==> es[i].call.seqNo == i + 1
  {
    if ops != [] { Numbered(pricing, ops[..|ops| - 1]); }
  }

  /** The class does what the runs above say. */
  method Replay(tracker: UsageTracker, ops: seq<Op>) returns (views: seq<UsageView>)
    requires tracker.entries == []
    modifies tracker
    ensures var s := Run(State([], []), tracker.pricing, ops);
            && tracker.entries == s.entries
            && |views| == |s.views|
            && forall i :: 0 <= i < |views| ==>
                views[i].tracker == tracker && views[i].from == s.views[i] <= |tracker.entries|
  {
    views := [];
    for k := 0 to |ops|
      invariant var s := Run(State([], []), tracker.pricing, ops[..k]);
                tracker.entries == s.entries && |views| == |s.views|
                && forall i :: 0 <= i < |views| ==>
                    views[i].tracker == tracker && views[i].from == s.views[i] <= |s.entries|
    {
      assert ops[..k + 1][..k] == ops[..k];
      match ops[k]
      case Record(kind, r) => tracker.Record(kind, r);
      case Scope =>
        var v := tracker.Scope();
        views := views + [v];
    }
    assert ops[..|ops|] == ops;
  }

  // ---------- how totals grow ----------

  ghost predicate Costs(es: seq<Entry>) {
    forall i :: 0 <= i < |es| ==> es[i].call.usd.GetOr(0.0) >= 0.0
  }

  lemma {:induction false} TotalsNonNegative(es: seq<Entry>)
    requires Costs(es)
    ensures EntryTally(es).jevUsd.GetOr(0.0) >= 0.0 && EntryTally(es).generationUsd.GetOr(0.0) >= 0.0
  {
    if es != [] {
      TotalsNonNegative(es[..|es| - 1]);
      assert CallsOf(es)[..|es| - 1] == CallsOf(es[..|es| - 1]);
    }
  }

  /** More calls never lower a total, and never make an incomplete one complete. */
  lemma SnapshotGrows(es: seq<Entry>, more: seq<Entry>)
    requires Honest(es) && Honest(more) && Costs(more)
    ensures var a, b := SnapshotOf(es), SnapshotOf(es + more);
            && a.totalUsd.GetOr(0.0) <= b.totalUsd.GetOr(0.0)
            && a.judgments + a.generations <= b.judgments + b.generations
            && (a.judgments + a.generations > 0 && a.priced != Full ==> b.priced != Full)
  {
    EntryTallyConcat(es, more);
    TotalsNonNegative(more);
    HonestConsistent(es);
  }

  // ---------- what the totals mean ----------

  /** The calls `p` holds of, in order. */
  function Select(p: Call -> bool, calls: seq<Call>): seq<Call> {
    if calls == [] then []
    else
      var front := Select(p, calls[..|calls| - 1]);
      if p(calls[|calls| - 1]) then front + [calls[|calls| - 1]] else front
  }

  function SumUsd(calls: seq<Call>): real {
    if calls == [] then 0.0 else SumUsd(calls[..|calls| - 1]) + calls[|calls| - 1].usd.GetOr(0.0)
  }

  function SumTokens(size: Call -> nat, calls: seq<Call>): nat {
    if calls == [] then 0 else SumTokens(size, calls[..|calls| - 1]) + size(calls[|calls| - 1])
  }

  predicate IsPriced(c: Call) { c.usd.Some? }
  predicate IsJudgment(c: Call) { c.kind == Judgment }
  predicate IsGeneration(c: Call) { c.kind == Generation }
  predicate HasFailed(c: Call) { !c.ok }
  predicate PricedJudgment(c: Call) { c.kind == Judgment && c.usd.Some? }
  predicate PricedGeneration(c: Call) { c.kind == Generation && c.usd.Some? }

  /** A total over the priced calls `p` selects: absent exactly when there are none. */
  ghost predicate TotalOf(total: Option<real>, p: Call -> bool, calls: seq<Call>) {
    (total.None? <==> Select(p, calls) == []) && total.GetOr(0.0) == SumUsd(Select(p, calls))
  }

  lemma SelectSnoc(p: Call -> bool, calls: seq<Call>, c: Call)
    ensures Select(p, calls + [c]) == if p(c) then Select(p, calls) + [c] else Select(p, calls)
  {
    assert (calls + [c])[..|calls|] == calls;
  }

  lemma SumUsdSnoc(calls: seq<Call>, c: Call)
    ensures SumUsd(calls + [c]) == SumUsd(calls) + c.usd.GetOr(0.0)
  {
    assert (calls + [c])[..|calls|] == calls;
  }

  lemma TotalNext(total: Option<real>, p: Call -> bool, calls: seq<Call>, c: Call)
    requires TotalOf(total, p, calls) && (p(c) ==> c.usd.Some?)
    ensures TotalOf(Plus(total, if p(c) then c.usd else None), p, calls + [c])
  {
    SelectSnoc(p, calls, c);
    if p(c) { SumUsdSnoc(Select(p, calls), c); }
  }

  lemma {:induction false} CostsMean(calls: seq<Call>)
    ensures TotalOf(TallyOf(calls).jevUsd, PricedJudgment, calls)
          && TotalOf(TallyOf(calls).generationUsd, PricedGeneration, calls)
  {
    if calls != [] {
      var front, c := calls[..|calls| - 1], calls[|calls| - 1];
      CostsMean(front);
      assert calls == front + [c];
      TotalNext(TallyOf(front).jevUsd, PricedJudgment, front, c);
      TotalNext(TallyOf(front).generationUsd, PricedGeneration, front, c);
    }
  }

  lemma {:induction false} CountsMean(calls: seq<Call>)
    ensures var t := TallyOf(calls);
            && t.judgments == |Select(IsJudgment, calls)| && t.generations == |Select(IsGeneration, calls)|
            && t.failed == |Select(HasFailed, calls)| && t.unpriced == |calls| - |Select(IsPriced, calls)|
            && t.judgments + t.generations == |calls|
            && t.inputTokens == SumTokens((c: Call) => c.inputTokens, calls)
            && t.outputTokens == SumTokens((c: Call) => c.outputTokens, calls)
  {
    if calls != [] { CountsMean(calls[..|calls| - 1]); }
  }

  lemma {:induction false} SelectAll(p: Call -> bool, calls: seq<Call>)
    ensures |Select(p, calls)| <= |calls|
    ensures |Select(p, calls)| == |calls| <==> forall i :: 0 <= i < |calls| ==> p(calls[i])
    ensures Select(p, calls) == [] <==> forall i :: 0 <= i < |calls| ==> !p(calls[i])
  {
    if calls != [] {
      SelectAll(p, calls[..|calls| - 1]);
      assert forall i :: 0 <= i < |calls| - 1 ==> calls[..|calls| - 1][i] == calls[i];
    }
  }

  ghost predicate SomePriced(calls: seq<Call>) { exists i :: 0 <= i < |calls| && calls[i].usd.Some? }

  ghost predicate AllPriced(calls: seq<Call>) { forall i :: 0 <= i < |calls| ==> calls[i].usd.Some? }

  lemma TotalMeans(calls: seq<Call>)
    ensures var total := Total(TallyOf(calls).jevUsd, TallyOf(calls).generationUsd);
            (total.Some? <==> SomePriced(calls)) && total.GetOr(0.0) == SumUsd(calls)
  {
    CostsMean(calls);
    KindsAddUp(calls);
    SelectAll(PricedJudgment, calls);
    SelectAll(PricedGeneration, calls);
    if i :| 0 <= i < |calls| && calls[i].usd.Some? {
      assert PricedJudgment(calls[i]) || PricedGeneration(calls[i]);
    }
  }

  lemma ClassMeans(calls: seq<Call>)
    ensures var t := TallyOf(calls);
            var priced := DerivePriced(t.judgments + t.generations, t.unpriced, SomePriced(calls));
            (priced == Full <==> calls != [] && AllPriced(calls)) && (priced == Unknown <==> !SomePriced(calls))
  {
    CountsMean(calls);
    SelectAll(IsPriced, calls);
    if SomePriced(calls) {
      var i :| 0 <= i < |calls| && calls[i].usd.Some?;
      assert IsPriced(calls[i]);
    }
  }

  /** How many calls there are, what they cost, and when every one has a price. */
  lemma SpendTold(calls: seq<Call>, t: Tally, u: Counts, missing: seq<string>)
    requires t == TallyOf(calls) && u == CountsOf(t, missing)
    ensures u.judgments + u.generations == |calls| && u.totalUsd.GetOr(0.0) == SumUsd(calls)
    ensures u.priced == Full <==> calls != [] && AllPriced(calls)
  {
    NumberOfCalls(calls);
    CountsKeep(t, missing);
    TotalMeans(calls);
    ClassMeans(calls);
    assert Total(t.jevUsd, t.generationUsd).Some? <==> SomePriced(calls);
  }

  lemma CountsKeep(t: Tally, missing: seq<string>)
    ensures var (u, total) := (CountsOf(t, missing), Total(t.jevUsd, t.generationUsd));
            && u.judgments == t.judgments && u.generations == t.generations && u.totalUsd == total
            && u.priced == DerivePriced(t.judgments + t.generations, t.unpriced, total.Some?)
  {
  }

  lemma {:induction false} NumberOfCalls(calls: seq<Call>)
    ensures TallyOf(calls).judgments + TallyOf(calls).generations == |calls|
  {
    if calls != [] { NumberOfCalls(calls[..|calls| - 1]); }
  }

  /**
   * The totals, by an independent account: counts of the calls of a kind, sums over them, a cost per kind
   * over its priced calls, and the class `full` exactly when there are calls and each is priced.
   */
  lemma TotalsExact(calls: seq<Call>, missing: seq<string>)
    ensures var c := CountsOf(TallyOf(calls), missing);
            && c.judgments == |Select(IsJudgment, calls)| && c.generations == |Select(IsGeneration, calls)|
            && c.failedCalls == |Select(HasFailed, calls)|
            && c.inputTokens == SumTokens((x: Call) => x.inputTokens, calls)
            && c.outputTokens == SumTokens((x: Call) => x.outputTokens, calls)
            && TotalOf(c.jevUsd, PricedJudgment, calls) && TotalOf(c.generationUsd, PricedGeneration, calls)
            && (c.totalUsd.Some? <==> SomePriced(calls)) && c.totalUsd.GetOr(0.0) == SumUsd(calls)
            && (c.priced == Full <==> calls != [] && AllPriced(calls))
            && (c.priced == Unknown <==> !SomePriced(calls))
  {
    CountsMean(calls);
    CostsMean(calls);
    TotalMeans(calls);
    ClassMeans(calls);
  }

  lemma SelectedSnoc(p: Call -> bool, calls: seq<Call>, c: Call)
    ensures SumUsd(Select(p, calls + [c])) == SumUsd(Select(p, calls)) + if p(c) then c.usd.GetOr(0.0) else 0.0
  {
    SelectSnoc(p, calls, c);
    if p(c) { SumUsdSnoc(Select(p, calls), c); }
  }

  /** What the calls of both kinds cost is what all calls cost. */
  lemma {:induction false} KindsAddUp(calls: seq<Call>)
    ensures SumUsd(Select(PricedJudgment, calls)) + SumUsd(Select(PricedGeneration, calls)) == SumUsd(calls)
  {
    if calls != [] {
      var front, c := calls[..|calls| - 1], calls[|calls| - 1];
      KindsAddUp(front);
      SelectedSnoc(PricedJudgment, front, c);
      SelectedSnoc(PricedGeneration, front, c);
      SumUsdSnoc(front, c);
      assert calls == front + [c];
    }
  }
}
