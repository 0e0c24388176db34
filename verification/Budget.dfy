/**
 * The suite budget meter (check-budget.ts) and the cap a remaining budget puts on an item
 * (`bounds`, check-execute.ts). Time is in milliseconds; the clock's reading is passed in.
 */
module Budget {
  import opened Wrappers
  import opened Usage
  import opened UsageLaws

  datatype Limits = Limits(maxActions: Option<int>, maxMinutes: Option<real>, maxUsd: Option<real>)

  datatype Reason =
    | ActionsExceeded | TimeExceeded | UsdExceeded
    | ActionsExhausted | TimeExhausted | UsdExhausted
    | SpendNotMeasurable

  /** A meter's whole state. */
  datatype Meter = Meter(limits: Limits, start: real, costKnownZero: bool, actions: int, exceeded: Option<Reason>) {

    function Minutes(now: real): real { (now - start) / 60000.0 }

    function RemainingActions(): Option<int> {
      if limits.maxActions.None? then None else Some(limits.maxActions.value - actions)
    }

    /** The spend so far, when it is measurable. */
    function Usd(usage: Option<Counts>): Option<real> {
      if usage.None? || usage.value.judgments + usage.value.generations == 0 then Some(0.0)
      else if costKnownZero || usage.value.priced == Full then Some(usage.value.totalUsd.GetOr(0.0))
      else None
    }

    function UsdOver(usage: Option<Counts>): Option<Reason> {
      match (limits.maxUsd, Usd(usage))
      case (None, _) => None
      case (Some(_), None) => Some(SpendNotMeasurable)
      case (Some(max), Some(usd)) => if usd > max then Some(UsdExceeded) else None
    }

    function Charged(more: nat, usage: Option<Counts>, now: real): Meter {
      var m := this.(actions := actions + more);
      if exceeded.Some? then m
      else if limits.maxActions.Some? && m.actions > limits.maxActions.value then m.(exceeded := Some(ActionsExceeded))
      else if limits.maxMinutes.Some? && Minutes(now) > limits.maxMinutes.value then m.(exceeded := Some(TimeExceeded))
      else m.(exceeded := UsdOver(usage))
    }

    function Blocked(usage: Option<Counts>, now: real): Option<Reason> {
      if exceeded.Some? then exceeded
      else if limits.maxActions.Some? && actions >= limits.maxActions.value then Some(ActionsExhausted)
      else if limits.maxMinutes.Some? && Minutes(now) >= limits.maxMinutes.value then Some(TimeExhausted)
      else
        match (limits.maxUsd, Usd(usage))
        case (None, _) => None
        case (Some(_), None) => Some(SpendNotMeasurable)
        case (Some(max), Some(usd)) => if usd >= max then Some(UsdExhausted) else None
    }
  }

  class BudgetMeter {
    const limits: Limits
    const start: real
    const costKnownZero: bool
    var actions: int
    var exceeded: Option<Reason>

    ghost function State(): Meter
      reads this
    {
      Meter(limits, start, costKnownZero, actions, exceeded)
    }

    constructor (limits: Limits, now: real, costKnownZero: bool)
      ensures State() == Meter(limits, now, costKnownZero, 0, None)
    {
      this.limits, this.start, this.costKnownZero := limits, now, costKnownZero;
      actions, exceeded := 0, None;
    }

    method RemainingActions() returns (n: Option<int>)
      ensures n == State().RemainingActions()
    {
      n := if limits.maxActions.None? then None else Some(limits.maxActions.value - actions);
    }

    method Minutes(now: real) returns (m: real)
      ensures m == State().Minutes(now)
    {
      m := (now - start) / 60000.0;
    }

    method Usd(usage: Option<Counts>) returns (usd: Option<real>)
      ensures usd == State().Usd(usage)
    {
      if usage.None? || usage.value.judgments + usage.value.generations == 0 { return Some(0.0); }
      if costKnownZero { return Some(usage.value.totalUsd.GetOr(0.0)); }
      usd := if usage.value.priced == Full then Some(usage.value.totalUsd.GetOr(0.0)) else None;
    }

    method Charge(more: nat, usage: Option<Counts>, now: real) returns (over: Option<Reason>)
      modifies this
      ensures State() == old(State()).Charged(more, usage, now) && over == exceeded
    {
      actions := actions + more;
      if exceeded.None? && limits.maxActions.Some? && actions > limits.maxActions.value {
        exceeded := Some(ActionsExceeded);
      }
      var minutes := Minutes(now);
      if exceeded.None? && limits.maxMinutes.Some? && minutes > limits.maxMinutes.value {
        exceeded := Some(TimeExceeded);
      }
      if exceeded.None? && limits.maxUsd.Some? {
        var usd := Usd(usage);
        if usd.None? {
          exceeded := Some(SpendNotMeasurable);
        } else if usd.value > limits.maxUsd.value {
          exceeded := Some(UsdExceeded);
        }
      }
      over := exceeded;
    }

    method Blocked(usage: Option<Counts>, now: real) returns (why: Option<Reason>)
      ensures why == State().Blocked(usage, now)
    {
      if exceeded.Some? { return exceeded; }
      if limits.maxActions.Some? && actions >= limits.maxActions.value { return Some(ActionsExhausted); }
      var minutes := Minutes(now);
      if limits.maxMinutes.Some? && minutes >= limits.maxMinutes.value { return Some(TimeExhausted); }
      if limits.maxUsd.Some? {
        var usd := Usd(usage);
        if usd.None? { return Some(SpendNotMeasurable); }
        if usd.value >= limits.maxUsd.value { return Some(UsdExhausted); }
      }
      return None;
    }
  }

  /** `bounds(…).maxActions`: the actions an item may take, given its own limit and what remains. */
  function Cap(own: Option<int>, remaining: Option<int>): Option<int> {
    match (own, remaining)
    case (None, None) => None
    case (Some(a), None) => Some(Max(1, a))
    case (None, Some(b)) => Some(Max(1, b))
    case (Some(a), Some(b)) => Some(Max(1, if a < b then a else b))
  }

  function Max(a: int, b: int): int { if a < b then b else a }

  // ---------- refusals are permanent ----------

  /** The tracker's entries, or none while no gateway was ever asked for. */
  type Ledger = Option<seq<Entry>>

  function UsageOf(l: Ledger): Option<Counts> {
    match l
    case None => None
    case Some(es) => Some(SnapshotOf(es))
  }

  ghost predicate Sound(l: Ledger) {
    l.Some? ==> Honest(l.value) && Costs(l.value)
  }

  /** An append-only tracker: entries are only ever added. */
  ghost predicate Extends(a: Ledger, b: Ledger) {
    a.Some? ==> b.Some? && a.value <= b.value
  }

  /** The same meter, later: more actions charged, and once exceeded still exceeded. */
  ghost predicate Later(a: Meter, b: Meter) {
    && a.limits == b.limits && a.start == b.start && a.costKnownZero == b.costKnownZero
    && a.actions <= b.actions
    && (a.exceeded.Some? ==> b.exceeded.Some?)
  }

  datatype Charge = Charge(actions: nat, usage: Option<Counts>, now: real)

  /** The meter after some charges. */
  function ChargedAll(m: Meter, charges: seq<Charge>): Meter {
    if charges == [] then m
    else
      var last := charges[|charges| - 1];
      ChargedAll(m, charges[..|charges| - 1]).Charged(last.actions, last.usage, last.now)
  }

  lemma {:induction false} ChargesLater(m: Meter, charges: seq<Charge>)
    ensures Later(m, ChargedAll(m, charges))
  {
    if charges != [] { ChargesLater(m, charges[..|charges| - 1]); }
  }

  // ---------- the ledgers a tracker gives ----------

  /** No call reported a negative cost of its own. */
  ghost predicate NonNegativeReports(ops: seq<Op>) {
    forall i :: 0 <= i < |ops| && ops[i].Record? ==> ops[i].record.usd.GetOr(0.0) >= 0.0
  }

  /** A tracker read at some moment: before any gateway was asked for, or after its first operations. */
  type Moment = Option<nat>

  ghost predicate NoLater(a: Moment, b: Moment) { a.Some? ==> b.Some? && a.value <= b.value }

  function LedgerAt(pricing: Pricing, ops: seq<Op>, at: Moment): Ledger
    requires at.Some? ==> at.value <= |ops|
  {
    if at.None? then None else Some(Run(State([], []), pricing, ops[..at.value]).entries)
  }

  /** Non-negative prices give a sound ledger: every entry is priced or says why not, at no negative cost. */
  lemma {:induction false} TrackerIsSound(pricing: Pricing, ops: seq<Op>)
    requires NonNegative(pricing) && NonNegativeReports(ops)
    ensures Sound(Some(Run(State([], []), pricing, ops).entries))
  {
    if ops != [] {
      TrackerIsSound(pricing, ops[..|ops| - 1]);
      match ops[|ops| - 1]
      case Record(kind, r) => PriceNonNegative(kind, r, pricing);
      case Scope =>
    }
  }

  /** What a tracker with non-negative prices shows later extends what it showed before, soundly. */
  lemma LedgersExtend(pricing: Pricing, ops: seq<Op>, a: Moment, b: Moment)
    requires NonNegative(pricing) && NonNegativeReports(ops) && NoLater(a, b) && (b.Some? ==> b.value <= |ops|)
    ensures Sound(LedgerAt(pricing, ops, a)) && Sound(LedgerAt(pricing, ops, b))
    ensures Extends(LedgerAt(pricing, ops, a), LedgerAt(pricing, ops, b))
  {
    if b.Some? { TrackerIsSound(pricing, ops[..b.value]); }
    if a.Some? {
      TrackerIsSound(pricing, ops[..a.value]);
      var more := ops[a.value..b.value];
      assert ops[..b.value] == ops[..a.value] + more;
      RunConcat(State([], []), pricing, ops[..a.value], more);
      RunAppends(Run(State([], []), pricing, ops[..a.value]), pricing, more);
    }
  }

  /** What growth of a ledger means for its totals. */
  predicate Grown(a: Counts, b: Counts) {
    && 0.0 <= a.totalUsd.GetOr(0.0) <= b.totalUsd.GetOr(0.0)
    && a.judgments + a.generations <= b.judgments + b.generations
    && (a.judgments + a.generations > 0 && a.priced != Full ==> b.priced != Full)
  }

  lemma LedgerGrown(es: seq<Entry>, all: seq<Entry>)
    requires es <= all && Honest(all) && Costs(all)
    ensures Grown(SnapshotOf(es), SnapshotOf(all))
  {
    var more := all[|es|..];
    assert all == es + more;
    assert forall i :: 0 <= i < |es| ==> es[i] == all[i];
    assert forall i :: 0 <= i < |more| ==> more[i] == all[|es| + i];
    SnapshotGrows(es, more);
    TotalsNonNegative(es);
  }

  /** Nothing recorded is measured as nothing spent. */
  lemma NoUsageNoSpend(m: Meter)
    ensures m.Usd(UsageOf(None)) == m.Usd(UsageOf(Some([]))) == Some(0.0)
  {
    assert CallsOf([]) == [];
  }

  lemma UsdGrows(a: Meter, b: Meter, u: Counts, v: Counts)
    requires Later(a, b) && Grown(u, v)
    ensures a.Usd(Some(u)).None? ==> b.Usd(Some(v)).None?
    ensures b.Usd(Some(v)).Some? ==> a.Usd(Some(u)).Some? && a.Usd(Some(u)).value <= b.Usd(Some(v)).value
  {
  }

  /** A measured spend never falls; an unmeasurable one stays so. */
  lemma SpendGrows(a: Meter, b: Meter, u: Ledger, v: Ledger)
    requires Later(a, b) && Extends(u, v) && Sound(u) && Sound(v)
    ensures a.Usd(UsageOf(u)).None? ==> b.Usd(UsageOf(v)).None?
    ensures b.Usd(UsageOf(v)).Some? ==> a.Usd(UsageOf(u)).Some? && a.Usd(UsageOf(u)).value <= b.Usd(UsageOf(v)).value
  {
    NoUsageNoSpend(a);
    NoUsageNoSpend(b);
    if v.Some? {
      var es := u.GetOr([]);
      LedgerGrown(es, v.value);
      UsdGrows(a, b, SnapshotOf(es), SnapshotOf(v.value));
    }
  }

  lemma BlockedOnGrowth(a: Meter, b: Meter, x: Option<Counts>, y: Option<Counts>, t: real, t': real)
    requires Later(a, b) && t <= t'
    requires a.Usd(x).None? ==> b.Usd(y).None?
    requires b.Usd(y).Some? ==> a.Usd(x).Some? && a.Usd(x).value <= b.Usd(y).value
    requires a.Blocked(x, t).Some?
    ensures b.Blocked(y, t').Some?
  {
    assert a.Minutes(t) <= b.Minutes(t');
  }

  /** A refusal stays one on sound ledgers of which the later extends the earlier. */
  lemma BlockedStays(a: Meter, b: Meter, u: Ledger, v: Ledger, t: real, t': real)
    requires Later(a, b) && Extends(u, v) && Sound(u) && Sound(v) && t <= t'
    requires a.Blocked(UsageOf(u), t).Some?
    ensures b.Blocked(UsageOf(v), t').Some?
  {
    SpendGrows(a, b, u, v);
    BlockedOnGrowth(a, b, UsageOf(u), UsageOf(v), t, t');
  }

  /**
   * Once refused, refused at every later time: for one tracker with non-negative prices read at two moments,
   * whatever it recorded and whatever was charged in between.
   */
  lemma BlockedForever(
    m: Meter, charges: seq<Charge>, pricing: Pricing, ops: seq<Op>, a: Moment, b: Moment, t: real, t': real)
    requires NonNegative(pricing) && NonNegativeReports(ops) && NoLater(a, b) && (b.Some? ==> b.value <= |ops|)
    requires t <= t' && m.Blocked(UsageOf(LedgerAt(pricing, ops, a)), t).Some?
    ensures ChargedAll(m, charges).Blocked(UsageOf(LedgerAt(pricing, ops, b)), t').Some?
  {
    ChargesLater(m, charges);
    LedgersExtend(pricing, ops, a, b);
    BlockedStays(m, ChargedAll(m, charges), LedgerAt(pricing, ops, a), LedgerAt(pricing, ops, b), t, t');
  }

  /** A call whose own cost is reported. */
  function Costing(usd: real): Op {
    Op.Record(Generation, Usage.Record(0, 0, Some(usd), None, None, None, None))
  }

  function CostingEntry(before: nat, usd: real, pricing: Pricing): (e: Entry)
    ensures e.call.kind == Generation && e.call.usd == Some(usd)
  {
    NewEntry(before, Generation, Costing(usd).record, pricing)
  }

  lemma TwoCallsRun(pricing: Pricing, a: real, b: real)
    ensures var ops := [Costing(a), Costing(b)];
            && LedgerAt(pricing, ops, Some(1)) == Some([CostingEntry(0, a, pricing)])
            && LedgerAt(pricing, ops, Some(2)) == Some([CostingEntry(0, a, pricing), CostingEntry(1, b, pricing)])
  {
    var ops := [Costing(a), Costing(b)];
    var none := State([], []);
    assert ops[..1] == [Costing(a)] && [Costing(a)][..0] == [] && ops[..2] == ops;
    assert Run(none, pricing, []) == none;
    assert Run(none, pricing, [Costing(a)]) == Apply(none, pricing, Costing(a));
    var (e, f) := (CostingEntry(0, a, pricing), CostingEntry(1, b, pricing));
    assert Apply(none, pricing, Costing(a)).entries == [] + [e] == [e];
    assert Run(none, pricing, ops) == Apply(Apply(none, pricing, Costing(a)), pricing, Costing(b));
    assert Run(none, pricing, ops).entries == [e] + [f] == [e, f];
  }

  lemma TwoCallsTally(c: Call, d: Call)
    requires c.kind == d.kind == Generation && c.usd.Some? && d.usd.Some?
    ensures var t := TallyOf([c]);
            t.judgments == t.unpriced == 0 && t.generations == 1 && t.jevUsd == None && t.generationUsd == c.usd
    ensures var t := TallyOf([c, d]);
            && t.judgments == t.unpriced == 0 && t.generations == 2 && t.jevUsd == None
            && t.generationUsd == Some(c.usd.value + d.usd.value)
  {
    assert [c][..0] == [] && TallyOf([]) == EMPTY_TALLY;
    assert [c, d][..1] == [c];
  }

  /** A negative reported cost unblocks: with 5 spent of 5 an item is refused, and after a call of -5 it is not. */
  lemma RefundUnblocks(pricing: Pricing, start: real)
    ensures var m := Meter(Limits(None, None, Some(5.0)), start, false, 0, None);
            var ops := [Costing(5.0), Costing(-5.0)];
            && m.Blocked(UsageOf(LedgerAt(pricing, ops, Some(1))), start) == Some(UsdExhausted)
            && m.Blocked(UsageOf(LedgerAt(pricing, ops, Some(2))), start).None?
  {
    var c, d := CostingEntry(0, 5.0, pricing), CostingEntry(1, -5.0, pricing);
    TwoCallsRun(pricing, 5.0, -5.0);
    TwoCallsTally(c.call, d.call);
    assert CallsOf([c]) == [c.call] && CallsOf([c, d]) == [c.call, d.call];
  }

  /** An item that may start, and keeps to its cap, cannot take the suite past its action limit. */
  lemma CapHolds(m: Meter, own: Option<int>, usage: Option<Counts>, now: real, taken: nat)
    requires m.limits.maxActions.Some? && m.Blocked(usage, now).None?
    requires Cap(own, m.RemainingActions()).Some? ==> taken <= Cap(own, m.RemainingActions()).value
    ensures m.actions + taken <= m.limits.maxActions.value
  {
  }
}
