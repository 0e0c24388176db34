/**
 * Usage accounting (usage.ts): how one call is priced, what a list of calls sums to, the tracker
 * that records calls, and the sum over several runs. Money is real, token counts are natural.
 */
module Usage {
  import opened Wrappers
  import opened Lists

  // ---------- pricing one call ----------

  datatype Kind = Judgment | Generation

  datatype ModelPrice = ModelPrice(inputUsdPerMtok: real, outputUsdPerMtok: real)
  datatype PriceTable = PriceTable(id: string, source: string, models: map<string, ModelPrice>)
  datatype UnitPrice = UnitPrice(usd: real, source: string)
  datatype ConfiguredPrices = ConfiguredPrices(prices: map<string, ModelPrice>, source: string)
  datatype Pricing = Pricing(
    jevUnitPrice: Option<UnitPrice>, modelPrices: Option<ConfiguredPrices>,
    jevTable: Option<PriceTable>, generationTable: Option<PriceTable>)

  const JEV_1_13 := ModelPrice(0.042, 0.0)

  const JEV_PRICE_TABLE := PriceTable("typesafe-models@2026-09-24", "https://docs.typesafe.ai/models.md", map[
    "jev-1.13.0" := JEV_1_13, "jev-latest" := JEV_1_13, "jev-preview" := JEV_1_13,
    "typesafe/jev-1.13" := JEV_1_13, "typesafe/jev-1.13-20260917" := JEV_1_13, "~typesafe/jev-latest" := JEV_1_13])

  const GENERATION_PRICE_TABLE := PriceTable("openrouter-models@2026-09-24", "https://openrouter.ai/api/v1/models", map[
    "openai/gpt-4o-mini" := ModelPrice(0.15, 0.6)])

  const FAKE_MODEL := "fake"

  /** What a seam reports for one call. */
  datatype Record = Record(
    inputTokens: nat, outputTokens: nat, usd: Option<real>, source: Option<string>,
    model: Option<string>, task: Option<string>, failure: Option<string>)

  datatype Price = Price(usd: Option<real>, source: string, missing: Option<string>)

  function ByTokens(p: ModelPrice, r: Record): real {
    (r.inputTokens as real * p.inputUsdPerMtok + r.outputTokens as real * p.outputUsdPerMtok) / 1000000.0
  }

  function TableLabel(t: PriceTable): string {
    "table:" + t.id + " (" + t.source + ")"
  }

  function Unpriced(why: string, missing: string): Price {
    Price(None, "unpriced:" + why, Some(missing))
  }

  /** `priceCall`: a price, or the text that says why there is none; never both, never neither. */
  function PriceCall(kind: Kind, r: Record, pricing: Pricing): (p: Price)
    ensures p.missing.Some? <==> p.usd.None?
  {
    var what := if kind == Judgment then "jev" else "generation";
    if r.usd.Some? then
      Price(r.usd, r.source.GetOr(if kind == Judgment then "provider:typesafe" else "provider:openrouter usage.cost"),
          None)
    else if r.failure.Some? && r.inputTokens + r.outputTokens == 0 then
      Unpriced("failed attempt reported no usage", what + ": failed attempt(s) reported no usage")
    else if kind == Judgment && pricing.jevUnitPrice.Some? then
      Price(Some(pricing.jevUnitPrice.value.usd), pricing.jevUnitPrice.value.source, None)
    else if r.model.None? then
      Unpriced("model not reported", what + ": model not reported")
    else
      var model := r.model.value;
      if pricing.modelPrices.Some? && model in pricing.modelPrices.value.prices then
        Price(Some(ByTokens(pricing.modelPrices.value.prices[model], r)), pricing.modelPrices.value.source, None)
      else if model == FAKE_MODEL then Price(Some(0.0), "fake:no model call", None)
      else
        var table := if kind == Judgment then pricing.jevTable.GetOr(JEV_PRICE_TABLE)
                     else pricing.generationTable.GetOr(GENERATION_PRICE_TABLE);
        if model in table.models then Price(Some(ByTokens(table.models[model], r)), TableLabel(table), None)
        else Unpriced("no price for model " + model, what + ": no price for model " + model)
  }

  ghost predicate NonNegativePrices(prices: map<string, ModelPrice>) {
    forall m :: m in prices ==> prices[m].inputUsdPerMtok >= 0.0 && prices[m].outputUsdPerMtok >= 0.0
  }

  ghost predicate NonNegative(p: Pricing) {
    && (p.jevUnitPrice.Some? ==> p.jevUnitPrice.value.usd >= 0.0)
    && (p.modelPrices.Some? ==> NonNegativePrices(p.modelPrices.value.prices))
    && (p.jevTable.Some? ==> NonNegativePrices(p.jevTable.value.models))
    && (p.generationTable.Some? ==> NonNegativePrices(p.generationTable.value.models))
  }

  lemma ByTokensNonNegative(p: ModelPrice, r: Record)
    requires p.inputUsdPerMtok >= 0.0 && p.outputUsdPerMtok >= 0.0
    ensures ByTokens(p, r) >= 0.0
  {
    assert r.inputTokens as real * p.inputUsdPerMtok >= 0.0;
    assert r.outputTokens as real * p.outputUsdPerMtok >= 0.0;
  }

  /** With non-negative prices no call costs less than nothing. */
  lemma PriceNonNegative(kind: Kind, r: Record, pricing: Pricing)
    requires NonNegative(pricing) && (r.usd.Some? ==> r.usd.value >= 0.0)
    ensures PriceCall(kind, r, pricing).usd.GetOr(0.0) >= 0.0
  {
    forall p: ModelPrice | p.inputUsdPerMtok >= 0.0 && p.outputUsdPerMtok >= 0.0 ensures ByTokens(p, r) >= 0.0 {
      ByTokensNonNegative(p, r);
    }
    assert NonNegativePrices(JEV_PRICE_TABLE.models) && NonNegativePrices(GENERATION_PRICE_TABLE.models);
  }

  // ---------- what a list of calls sums to ----------

  datatype Call = Call(
    seqNo: nat, kind: Kind, task: Option<string>, model: Option<string>, ok: bool,
    inputTokens: nat, outputTokens: nat, usd: Option<real>, source: string, failure: Option<string>)

  datatype Priced = Full | Partial | Unknown

  /** Totals over calls. A list that would be empty, and a failure count of 0, stand for an absent field. */
  datatype Counts = Counts(
    judgments: nat, generations: nat, inputTokens: nat, outputTokens: nat,
    jevUsd: Option<real>, generationUsd: Option<real>, totalUsd: Option<real>,
    priced: Priced, priceSource: seq<string>, missing: seq<string>, failedCalls: nat)

  /** `(a ?? 0) + b`, where an absent `b` adds nothing. */
  function Plus(a: Option<real>, b: Option<real>): Option<real> {
    match b
    case None => a
    case Some(x) => Some(a.GetOr(0.0) + x)
  }

  /** The running values of the summing loop. */
  datatype Tally = Tally(
    judgments: nat, generations: nat, inputTokens: nat, outputTokens: nat,
    jevUsd: Option<real>, generationUsd: Option<real>, unpriced: nat, failed: nat, sources: seq<string>)

  const EMPTY_TALLY := Tally(0, 0, 0, 0, None, None, 0, 0, [])

  function OneCall(c: Call): Tally {
    Tally(
      if c.kind == Judgment then 1 else 0, if c.kind == Generation then 1 else 0, c.inputTokens, c.outputTokens,
      if c.kind == Judgment then c.usd else None, if c.kind == Generation then c.usd else None,
      if c.usd.None? then 1 else 0, if c.ok then 0 else 1, if c.usd.None? then [] else [c.source])
  }

  function Merge(a: Tally, b: Tally): Tally {
    Tally(
      a.judgments + b.judgments, a.generations + b.generations, a.inputTokens + b.inputTokens,
      a.outputTokens + b.outputTokens, Plus(a.jevUsd, b.jevUsd), Plus(a.generationUsd, b.generationUsd),
      a.unpriced + b.unpriced, a.failed + b.failed, a.sources + b.sources)
  }

  function TallyOf(calls: seq<Call>): Tally {
    if calls == [] then EMPTY_TALLY else Merge(TallyOf(calls[..|calls| - 1]), OneCall(calls[|calls| - 1]))
  }

  function DerivePriced(calls: nat, unpriced: nat, anyPriced: bool): Priced {
    if calls == 0 then Unknown else if unpriced == 0 then Full else if anyPriced then Partial else Unknown
  }

  function Total(jev: Option<real>, generation: Option<real>): Option<real> {
    if jev.None? && generation.None? then None else Some(jev.GetOr(0.0) + generation.GetOr(0.0))
  }

  function CountsOf(t: Tally, gaps: seq<string>): Counts {
    var total := Total(t.jevUsd, t.generationUsd);
    Counts(
      t.judgments, t.generations, t.inputTokens, t.outputTokens, t.jevUsd, t.generationUsd, total,
      DerivePriced(t.judgments + t.generations, t.unpriced, total.Some?), Uniq(t.sources), Uniq(gaps), t.failed)
  }

  lemma TallyNext(calls: seq<Call>, i: nat)
    requires i < |calls|
    ensures TallyOf(calls[..i + 1]) == Merge(TallyOf(calls[..i]), OneCall(calls[i]))
  {
    assert calls[..i + 1][..i] == calls[..i];
  }

  /** One turn of the summing loop. */
  method CountCall(t: Tally, c: Call) returns (r: Tally)
    ensures r == Merge(t, OneCall(c))
  {
    r := t.(inputTokens := t.inputTokens + c.inputTokens, outputTokens := t.outputTokens + c.outputTokens);
    if c.kind == Judgment {
      r := r.(judgments := t.judgments + 1);
    } else {
      r := r.(generations := t.generations + 1);
    }
    if !c.ok { r := r.(failed := t.failed + 1); }
    if c.usd.None? { return r.(unpriced := t.unpriced + 1); }
    r := r.(sources := t.sources + [c.source]);
    if c.kind == Judgment {
      r := r.(jevUsd := Some(t.jevUsd.GetOr(0.0) + c.usd.value));
    } else {
      r := r.(generationUsd := Some(t.generationUsd.GetOr(0.0) + c.usd.value));
    }
  }

  /** `summarizeCalls`. */
  method SummarizeCalls(calls: seq<Call>, missing: seq<string>) returns (counts: Counts)
    ensures counts == CountsOf(TallyOf(calls), missing)
  {
    var t := EMPTY_TALLY;
    for i := 0 to |calls|
      invariant t == TallyOf(calls[..i])
    {
      TallyNext(calls, i);
      t := CountCall(t, calls[i]);
    }
    assert calls[..|calls|] == calls;
    var total := if t.jevUsd.None? && t.generationUsd.None? then None
        else Some(t.jevUsd.GetOr(0.0) + t.generationUsd.GetOr(0.0));
    var priced := DerivePriced(t.judgments + t.generations, t.unpriced, total.Some?);
    counts := Counts(t.judgments, t.generations, t.inputTokens, t.outputTokens, t.jevUsd, t.generationUsd, total,
        priced,
                     Uniq(t.sources), Uniq(missing), t.failed);
  }

  // ---------- the tracker ----------

  datatype Entry = Entry(call: Call, missing: Option<string>)

  function NewEntry(before: nat, kind: Kind, r: Record, pricing: Pricing): Entry {
    var p := PriceCall(kind, r, pricing);
    var call := Call(before + 1, kind, r.task, r.model, r.failure.None?, r.inputTokens, r.outputTokens,
      p.usd, p.source, r.failure);
    Entry(call, p.missing)
  }

  function CallsOf(es: seq<Entry>): seq<Call> {
    seq(|es|, i requires 0 <= i < |es| => es[i].call)
  }

  /** The entries' texts of what could not be priced, in order. */
  function GapsOf(es: seq<Entry>): seq<string> {
    if es == [] then []
    else GapsOf(es[..|es| - 1]) + match es[|es| - 1].missing case Some(m) => [m] case None => []
  }

  function SnapshotOf(es: seq<Entry>): Counts {
    CountsOf(TallyOf(CallsOf(es)), GapsOf(es))
  }

  class UsageTracker {
    var entries: seq<Entry>
    const pricing: Pricing

    constructor (pricing: Pricing)
      ensures entries == [] && this.pricing == pricing
    {
      this.pricing := pricing;
      entries := [];
    }

    method Record(kind: Kind, r: Record)
      modifies this
      ensures entries == old(entries) + [NewEntry(|old(entries)|, kind, r, pricing)]
    {
      var priced := PriceCall(kind, r, pricing);
      var call := Call(|entries| + 1, kind, r.task, r.model, r.failure.None?, r.inputTokens, r.outputTokens,
                       priced.usd, priced.source, r.failure);
      entries := entries + [Entry(call, priced.missing)];
    }

    /** A view over the calls recorded from now on. */
    method Scope() returns (v: UsageView)
      ensures v.tracker == this && v.from == |entries|
    {
      v := new UsageView(this, |entries|);
    }
  }

  /** A live view over the entries from a place on. */
  class UsageView {
    const tracker: UsageTracker
    const from: nat

    constructor (tracker: UsageTracker, from: nat)
      ensures this.tracker == tracker && this.from == from
    {
      this.tracker := tracker;
      this.from := from;
    }

    method Calls() returns (calls: seq<Call>)
      requires from <= |tracker.entries|
      ensures calls == CallsOf(tracker.entries[from..])
    {
      calls := CallsOf(tracker.entries[from..]);
    }

    method Snapshot() returns (counts: Counts)
      requires from <= |tracker.entries|
      ensures counts == SnapshotOf(tracker.entries[from..])
    {
      var es := tracker.entries[from..];
      counts := SummarizeCalls(CallsOf(es), GapsOf(es));
    }
  }

  // ---------- the sum over runs ----------

  datatype Aggregate = Aggregate(runs: nat, tokens: nat, counts: Counts, unreportedRuns: nat)

  /** The running values of `sumUsage`. */
  datatype RunTally = RunTally(
    judgments: nat, generations: nat, inputTokens: nat, outputTokens: nat,
    jevUsd: Option<real>, generationUsd: Option<real>, failed: nat, unreported: nat, incomplete: bool,
    sources: seq<string>, missing: seq<string>)

  const EMPTY_RUN_TALLY := RunTally(0, 0, 0, 0, None, None, 0, 0, false, [], [])
  const NOT_FULLY_PRICED := "a run's usage was not fully priced"

  function AddRun(t: RunTally, run: Option<Counts>): RunTally {
    match run
    case None => t.(unreported := t.unreported + 1)
    case Some(u) =>
      var legacy := if u.jevUsd.None? && u.generationUsd.None? then u.totalUsd else None;
      var partial := u.judgments + u.generations > 0 && u.priced != Full;
      RunTally(
        t.judgments + u.judgments, t.generations + u.generations, t.inputTokens + u.inputTokens,
        t.outputTokens + u.outputTokens, Plus(t.jevUsd, u.jevUsd), Plus(Plus(t.generationUsd, u.generationUsd), legacy),
        t.failed + u.failedCalls, t.unreported, t.incomplete || partial, t.sources + u.priceSource,
        t.missing + u.missing + (if partial && u.missing == [] then [NOT_FULLY_PRICED] else []))
  }

  function RunTallyOf(runs: seq<Option<Counts>>): RunTally {
    if runs == [] then EMPTY_RUN_TALLY else AddRun(RunTallyOf(runs[..|runs| - 1]), runs[|runs| - 1])
  }

  function AggregateOf(runs: nat, t: RunTally, ignoreUnreported: bool, unreportedText: nat -> string): Aggregate {
    var open := t.unreported > 0 && !ignoreUnreported;
    var incomplete := t.incomplete || open;
    var missing := t.missing + if open then [unreportedText(t.unreported)] else [];
    var total := Total(t.jevUsd, t.generationUsd);
    var priced :=
      if t.judgments + t.generations == 0 && !incomplete then Unknown
      else if incomplete then (if total.None? then Unknown else Partial)
      else if total.None? then Unknown else Full;
    Aggregate(
      runs, t.inputTokens + t.outputTokens,
      Counts(t.judgments, t.generations, t.inputTokens, t.outputTokens, t.jevUsd, t.generationUsd, total, priced,
             Uniq(t.sources), Uniq(missing), t.failed),
      t.unreported)
  }

  lemma RunTallyNext(runs: seq<Option<Counts>>, i: nat)
    requires i < |runs|
    ensures RunTallyOf(runs[..i + 1]) == AddRun(RunTallyOf(runs[..i]), runs[i])
  {
    assert runs[..i + 1][..i] == runs[..i];
  }

  /** One turn of the loop over the runs. */
  method CountRun(t: RunTally, run: Option<Counts>) returns (r: RunTally)
    ensures r == AddRun(t, run)
  {
    if run.None? { return t.(unreported := t.unreported + 1); }
    var u := run.value;
    var jevUsd := if u.jevUsd.Some? then Some(t.jevUsd.GetOr(0.0) + u.jevUsd.value) else t.jevUsd;
    var generationUsd := if u.generationUsd.Some? then Some(t.generationUsd.GetOr(0.0) + u.generationUsd.value)
        else t.generationUsd;
    if u.jevUsd.None? && u.generationUsd.None? && u.totalUsd.Some? {
      generationUsd := Some(generationUsd.GetOr(0.0) + u.totalUsd.value);
    }
    var missing, incomplete := t.missing + u.missing, t.incomplete;
    if u.judgments + u.generations > 0 && u.priced != Full {
      incomplete := true;
      if u.missing == [] { missing := missing + [NOT_FULLY_PRICED]; }
    }
    return RunTally(t.judgments + u.judgments, t.generations + u.generations, t.inputTokens + u.inputTokens,
                    t.outputTokens + u.outputTokens, jevUsd, generationUsd, t.failed + u.failedCalls, t.unreported,
                    incomplete, t.sources + u.priceSource, missing);
  }

  /** `sumUsage`; `unreportedText` words how many runs reported no usage. */
  method SumUsage(runs: seq<Option<Counts>>, ignoreUnreported: bool, unreportedText: nat -> string)
    returns (a: Aggregate)
    ensures a == AggregateOf(|runs|, RunTallyOf(runs), ignoreUnreported, unreportedText)
  {
    var t := EMPTY_RUN_TALLY;
    for i := 0 to |runs|
      invariant t == RunTallyOf(runs[..i])
    {
      RunTallyNext(runs, i);
      t := CountRun(t, runs[i]);
    }
    assert runs[..|runs|] == runs;
    a := AggregateOf(|runs|, t, ignoreUnreported, unreportedText);
  }
}
