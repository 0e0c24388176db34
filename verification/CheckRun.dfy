/**
 * `runCheck` (check-api.ts): the item loop under the suite budget, then the gate that turns what ran
 * and what was found into verdicts, a summary and an exit code.
 */
module CheckRun {
  import opened Wrappers
  import opened Usage
  import UsageLaws
  import opened Budget

  // ---------- the item loop ----------

  /** A planned item: left out by the plan or not, and its own action limit. */
  datatype Item = Item(skipped: bool, maxActions: Option<int>)

  /** What running an item gives: an error or an outcome, its actions, its result file, a brittle-locator defect. */
  datatype Executed = Executed(
    error: bool, actions: nat, outcome: Option<string>, resultPath: Option<string>, brittle: Option<Defect>)

  const THROWN := Executed(true, 0, None, None, None)

  /**
   * One turn of the loop as the world would have it: the clock and the tracker when the budget is
   * asked, what the item gives back (none: it throws), and the clock and the tracker afterwards.
   */
  datatype Turn = Turn(askedAt: real, before: Ledger, result: Option<Executed>, chargedAt: real, after: Ledger)

  datatype Outcome = Skipped | Refused(why: Reason) | Ran(ex: Executed)

  datatype LoopState = LoopState(meter: Meter, exceeded: Option<Reason>, outcomes: seq<Outcome>)

  function OrElse<T>(a: Option<T>, b: Option<T>): Option<T> {
    if a.Some? then a else b
  }

  function Step(s: LoopState, reuse: bool, item: Item, turn: Turn): LoopState {
    if reuse || item.skipped then s.(outcomes := s.outcomes + [Skipped])
    else
      match s.meter.Blocked(UsageOf(turn.before), turn.askedAt)
      case Some(why) => s.(exceeded := OrElse(s.exceeded, Some(why)), outcomes := s.outcomes + [Refused(why)])
      case None =>
        var ex := turn.result.GetOr(THROWN);
        var m := s.meter.Charged(ex.actions, UsageOf(turn.after), turn.chargedAt);
        LoopState(m, OrElse(s.exceeded, m.exceeded), s.outcomes + [Ran(ex)])
  }

  /** The loop after its first `n` items. */
  function After(m: Meter, reuse: bool, items: seq<Item>, turns: seq<Turn>, n: nat): (s: LoopState)
    requires n <= |items| == |turns|
    ensures |s.outcomes| == n
  {
    if n == 0 then LoopState(m, None, [])
    else Step(After(m, reuse, items, turns, n - 1), reuse, items[n - 1], turns[n - 1])
  }

  method ItemLoop(meter: BudgetMeter, reuse: bool, items: seq<Item>, turns: seq<Turn>)
    returns (exceeded: Option<Reason>, outcomes: seq<Outcome>)
    requires |items| == |turns|
    modifies meter
    ensures LoopState(meter.State(), exceeded, outcomes) == After(old(meter.State()), reuse, items, turns, |items|)
  {
    exceeded, outcomes := None, [];
    for i := 0 to |items|
      invariant LoopState(meter.State(), exceeded, outcomes) == After(old(meter.State()), reuse, items, turns, i)
    {
      if reuse || items[i].skipped {
        outcomes := outcomes + [Skipped];
        continue;
      }
      var blocked := meter.Blocked(UsageOf(turns[i].before), turns[i].askedAt);
      if blocked.Some? {
        exceeded := OrElse(exceeded, blocked);
        outcomes := outcomes + [Refused(blocked.value)];
        continue;
      }
      var ex := turns[i].result.GetOr(THROWN);
      var over := meter.Charge(ex.actions, UsageOf(turns[i].after), turns[i].chargedAt);
      exceeded := OrElse(exceeded, over);
      outcomes := outcomes + [Ran(ex)];
    }
  }

  /** When a turn reads the tracker: before its item is executed, and after. */
  datatype Moments = Moments(before: Moment, after: Moment)

  ghost predicate ReadAt(turn: Turn, at: Moments, pricing: Pricing, ops: seq<UsageLaws.Op>) {
    && NoLater(at.before, at.after) && (at.after.Some? ==> at.after.value <= |ops|)
    && turn.before == LedgerAt(pricing, ops, at.before) && turn.after == LedgerAt(pricing, ops, at.after)
  }

  /** The turns read one tracker, turn after turn, on a clock that does not run back. */
  ghost predicate Timeline(turns: seq<Turn>, at: seq<Moments>, pricing: Pricing, ops: seq<UsageLaws.Op>) {
    && |at| == |turns|
    && (forall i :: 0 <= i < |turns| ==>
        ReadAt(turns[i], at[i], pricing, ops) && turns[i].askedAt <= turns[i].chargedAt)
    && (forall i, j :: 0 <= i < j < |turns| ==>
        NoLater(at[i].after, at[j].before) && turns[i].chargedAt <= turns[j].askedAt)
  }

  lemma {:induction false} LoopLater(m: Meter, reuse: bool, items: seq<Item>, turns: seq<Turn>, i: nat, j: nat)
    requires i <= j <= |items| == |turns|
    ensures var (a, b) := (After(m, reuse, items, turns, i), After(m, reuse, items, turns, j));
            Later(a.meter, b.meter) && a.outcomes <= b.outcomes && (a.exceeded.Some? ==> b.exceeded.Some?)
    decreases j
  {
    if i < j { LoopLater(m, reuse, items, turns, i, j - 1); }
  }

  /** The outcome of item `i`, read off the state before it. */
  lemma OutcomeAt(m: Meter, reuse: bool, items: seq<Item>, turns: seq<Turn>, i: nat)
    requires i < |items| == |turns|
    ensures var outcomes := After(m, reuse, items, turns, |items|).outcomes;
            var before := After(m, reuse, items, turns, i);
            && outcomes[..i] == before.outcomes
            && outcomes[i] == Step(before, reuse, items[i], turns[i]).outcomes[i]
  {
    LoopLater(m, reuse, items, turns, i, |items|);
    LoopLater(m, reuse, items, turns, i + 1, |items|);
  }

  /** Once one item is refused, every later item that would run is refused, for one tracker with non-negative prices. */
  lemma RefusedForever(
    m: Meter, reuse: bool, items: seq<Item>, turns: seq<Turn>, at: seq<Moments>, pricing: Pricing,
        ops: seq<UsageLaws.Op>, i: nat, j: nat)
    requires i < j < |items| == |turns| && Timeline(turns, at, pricing, ops)
    requires NonNegative(pricing) && NonNegativeReports(ops)
    ensures var outcomes := After(m, reuse, items, turns, |items|).outcomes;
            outcomes[i].Refused? && !outcomes[j].Skipped? ==> outcomes[j].Refused?
  {
    OutcomeAt(m, reuse, items, turns, i);
    OutcomeAt(m, reuse, items, turns, j);
    var (a, b) := (After(m, reuse, items, turns, i).meter, After(m, reuse, items, turns, j).meter);
    LoopLater(m, reuse, items, turns, i, j);
    if a.Blocked(UsageOf(turns[i].before), turns[i].askedAt).Some? {
      assert ReadAt(turns[i], at[i], pricing, ops) && ReadAt(turns[j], at[j], pricing, ops);
      LedgersExtend(pricing, ops, at[i].before, at[j].before);
      BlockedStays(a, b, turns[i].before, turns[j].before, turns[i].askedAt, turns[j].askedAt);
    }
  }

  function Taken(o: Outcome): nat {
    match o
    case Ran(ex) => ex.actions
    case _ => 0
  }

  function ActionsOf(outcomes: seq<Outcome>): nat {
    if outcomes == [] then 0 else ActionsOf(outcomes[..|outcomes| - 1]) + Taken(outcomes[|outcomes| - 1])
  }

  lemma StepCounts(s: LoopState, reuse: bool, item: Item, turn: Turn)
    ensures var z := Step(s, reuse, item, turn);
            && z.meter.limits == s.meter.limits
            && z.meter.actions == s.meter.actions + ActionsOf(z.outcomes) - ActionsOf(s.outcomes)
  {
    var z := Step(s, reuse, item, turn);
    assert z.outcomes[..|s.outcomes|] == s.outcomes;
  }

  lemma {:induction false} MeterCounts(m: Meter, reuse: bool, items: seq<Item>, turns: seq<Turn>, n: nat)
    requires n <= |items| == |turns|
    ensures var s := After(m, reuse, items, turns, n);
            s.meter.actions == m.actions + ActionsOf(s.outcomes) && s.meter.limits == m.limits
  {
    if n > 0 {
      MeterCounts(m, reuse, items, turns, n - 1);
      StepCounts(After(m, reuse, items, turns, n - 1), reuse, items[n - 1], turns[n - 1]);
    }
  }

  lemma RanUnderLimit(m: Meter, reuse: bool, items: seq<Item>, turns: seq<Turn>, j: nat)
    requires j < |items| == |turns| && m.limits.maxActions.Some?
    requires After(m, reuse, items, turns, |items|).outcomes[j].Ran?
    ensures After(m, reuse, items, turns, j).meter.actions < m.limits.maxActions.value
  {
    OutcomeAt(m, reuse, items, turns, j);
    MeterCounts(m, reuse, items, turns, j);
  }

  /** Only the last executed item can take the suite past its action limit. */
  lemma OnlyLastOvershoots(m: Meter, reuse: bool, items: seq<Item>, turns: seq<Turn>, i: nat, j: nat)
    requires i < j < |items| == |turns|
    requires m.limits.maxActions.Some? && m.actions == 0
    requires After(m, reuse, items, turns, |items|).outcomes[j].Ran?
    ensures ActionsOf(After(m, reuse, items, turns, |items|).outcomes[..i + 1]) < m.limits.maxActions.value
  {
    RanUnderLimit(m, reuse, items, turns, j);
    LoopLater(m, reuse, items, turns, i + 1, j);
    OutcomesPrefix(m, reuse, items, turns, i + 1);
    MeterCounts(m, reuse, items, turns, i + 1);
  }

  lemma OutcomesPrefix(m: Meter, reuse: bool, items: seq<Item>, turns: seq<Turn>, n: nat)
    requires n <= |items| == |turns|
    ensures After(m, reuse, items, turns, |items|).outcomes[..n] == After(m, reuse, items, turns, n).outcomes
  {
    LoopLater(m, reuse, items, turns, n, |items|);
  }

  /** If the item runs, its result keeps to the cap the remaining budget puts on it. */
  predicate KeepsToCap(m: Meter, reuse: bool, item: Item, turn: Turn) {
    var cap := Cap(item.maxActions, m.RemainingActions());
    reuse || item.skipped || m.Blocked(UsageOf(turn.before), turn.askedAt).Some? || cap.None?
        || turn.result.GetOr(THROWN).actions <= cap.value
  }

  lemma CappedStep(s: LoopState, reuse: bool, item: Item, turn: Turn)
    requires s.meter.limits.maxActions.Some? && KeepsToCap(s.meter, reuse, item, turn)
    requires s.meter.actions <= Max(0, s.meter.limits.maxActions.value)
    ensures Step(s, reuse, item, turn).meter.actions <= Max(0, s.meter.limits.maxActions.value)
  {
    if !reuse && !item.skipped && s.meter.Blocked(UsageOf(turn.before), turn.askedAt).None? {
      CapHolds(s.meter, item.maxActions, UsageOf(turn.before), turn.askedAt, turn.result.GetOr(THROWN).actions);
    }
  }

  /** Item `i` keeps to its cap. */
  ghost predicate CappedAt(m: Meter, reuse: bool, items: seq<Item>, turns: seq<Turn>, i: nat)
    requires i < |items| == |turns|
  {
    KeepsToCap(After(m, reuse, items, turns, i).meter, reuse, items[i], turns[i])
  }

  lemma {:induction false} CappedMeter(m: Meter, reuse: bool, items: seq<Item>, turns: seq<Turn>, n: nat)
    requires n <= |items| == |turns| && m.limits.maxActions.Some? && m.actions == 0
    requires forall i :: 0 <= i < |items| ==> CappedAt(m, reuse, items, turns, i)
    ensures var s := After(m, reuse, items, turns, n);
            s.meter.limits == m.limits && s.meter.actions <= Max(0, m.limits.maxActions.value)
  {
    if n > 0 {
      var s := After(m, reuse, items, turns, n - 1);
      CappedMeter(m, reuse, items, turns, n - 1);
      assert CappedAt(m, reuse, items, turns, n - 1);
      StepCounts(s, reuse, items[n - 1], turns[n - 1]);
      CappedStep(s, reuse, items[n - 1], turns[n - 1]);
    }
  }

  /** If every item keeps to its cap, the suite's actions never pass the limit. */
  lemma CappedRunStaysWithin(m: Meter, reuse: bool, items: seq<Item>, turns: seq<Turn>, n: nat)
    requires n <= |items| == |turns| && m.limits.maxActions.Some? && m.actions == 0
    requires forall i :: 0 <= i < |items| ==> CappedAt(m, reuse, items, turns, i)
    ensures ActionsOf(After(m, reuse, items, turns, n).outcomes) <= Max(0, m.limits.maxActions.value)
  {
    CappedMeter(m, reuse, items, turns, n);
    MeterCounts(m, reuse, items, turns, n);
  }

  // ---------- the gate ----------

  datatype Severity = Hard | Advisory | Pending

  /** A consolidated finding: its key, every member key, and the result files it occurs in. */
  datatype Defect = Defect(key: string, keys: seq<string>, severity: Severity, runs: set<string>)

  /** What the gate is told: the suite's advisory switch and, against a baseline, which keys it already held. */
  datatype Policy = Policy(gateAdvisory: bool, inBaseline: Option<map<string, bool>>)

  function FirstEntry(keys: seq<string>, entries: map<string, bool>): Option<bool> {
    if keys == [] then None
    else if keys[0] in entries then Some(entries[keys[0]])
    else FirstEntry(keys[1..], entries)
  }

  /** `isGating`. */
  predicate IsGating(p: Policy, d: Defect) {
    if d.severity == Pending then false
    else if d.severity != Hard && !p.gateAdvisory then false
    else
      match p.inBaseline
      case None => true
      case Some(entries) =>
        match FirstEntry(d.keys, entries)
        case Some(held) => !held
        case None => if d.key in entries then !entries[d.key] else true
  }

  function Gating(p: Policy, ds: seq<Defect>): seq<Defect> {
    if ds == [] then [] else (if IsGating(p, ds[0]) then [ds[0]] else []) + Gating(p, ds[1..])
  }

  lemma {:induction false} GatingExact(p: Policy, ds: seq<Defect>)
    ensures forall d :: d in Gating(p, ds) <==> d in ds && IsGating(p, d)
  {
    if ds != [] { GatingExact(p, ds[1..]); }
  }

  datatype Verdict = Passed | Failed | Error | SkippedItem | PendingReview

  datatype Report = Report(verdict: Verdict, gating: seq<Defect>)

  /** The gating findings of the run `path` read back from an item's result file. */
  function OwnFindings(gating: seq<Defect>, path: Option<string>): seq<Defect> {
    if gating == [] || path.None? then []
    else (if path.value in gating[0].runs then [gating[0]] else []) + OwnFindings(gating[1..], path)
  }

  /** One item's verdict; `runOf` gives the path of the run its result file holds, when it can be read. */
  function ReportOf(gating: seq<Defect>, runOf: string -> Option<string>, o: Outcome): Report {
    match o
    case Skipped => Report(SkippedItem, [])
    case Refused(_) => Report(Error, [])
    case Ran(ex) =>
      var path := if ex.resultPath.None? then None else runOf(ex.resultPath.value);
      var own := OwnFindings(gating, path)
          + (if ex.brittle.Some? && ex.brittle.value in gating then [ex.brittle.value] else []);
      var pending := !ex.error && ex.outcome == Some("healed-pending-review") && own == [];
      Report(if ex.error then Error else if own != [] then Failed else if pending then PendingReview else Passed, own)
  }

  /** `--require-approvals` adds one item, failed by its own gating findings. */
  function ApprovalsReport(gating: seq<Defect>, approvals: seq<Defect>): Report {
    var own := Both(gating, approvals);
    Report(if own != [] then Failed else Passed, own)
  }

  function Both(gating: seq<Defect>, approvals: seq<Defect>): seq<Defect> {
    if gating == [] then []
    else (if gating[0] in approvals then [gating[0]] else []) + Both(gating[1..], approvals)
  }

  function Brittle(outcomes: seq<Outcome>): seq<Defect> {
    if outcomes == [] then []
    else
      (match outcomes[0] case Ran(ex) => (if ex.brittle.Some? then [ex.brittle.value] else []) case _ => [])
      + Brittle(outcomes[1..])
  }

  datatype Summary = Summary(items: nat, passed: nat, failed: nat, errors: nat, skipped: nat, gatingFindings: nat,
      pendingReview: nat)

  datatype CheckResult = CheckResult(reports: seq<Report>, summary: Summary, exitCode: int)

  function CountVerdict(reports: seq<Report>, v: Verdict): nat {
    if reports == [] then 0 else
      CountVerdict(reports[..|reports| - 1], v) + if reports[|reports| - 1].verdict == v then 1 else 0
  }

  function Reports(
    gating: seq<Defect>, runOf: string -> Option<string>, approvals: Option<seq<Defect>>,
        outcomes: seq<Outcome>): (rs: seq<Report>)
    ensures |rs| == |outcomes| + if approvals.Some? then 1 else 0
  {
    seq(|outcomes|, i requires 0 <= i < |outcomes| => ReportOf(gating, runOf, outcomes[i]))
    + (if approvals.Some? then [ApprovalsReport(gating, approvals.value)] else [])
  }

  function Findings(consolidated: seq<Defect>, approvals: Option<seq<Defect>>, outcomes: seq<Outcome>): seq<Defect> {
    consolidated + approvals.GetOr([]) + Brittle(outcomes)
  }

  function ResultOf(gating: seq<Defect>, reports: seq<Report>, exceeded: Option<Reason>): CheckResult {
    var errors, pending := CountVerdict(reports, Error), CountVerdict(reports, PendingReview);
    CheckResult(
      reports,
      Summary(|reports|, CountVerdict(reports, Passed), CountVerdict(reports, Failed), errors,
              CountVerdict(reports, SkippedItem), |gating|, pending),
      if gating != [] then 1 else if errors > 0 || exceeded.Some? then 2 else if pending > 0 then 5 else 0)
  }

  /** Everything the gate derives, from what ran and what was found. */
  function GateResult(
    p: Policy, runOf: string -> Option<string>, consolidated: seq<Defect>, approvals: Option<seq<Defect>>,
    exceeded: Option<Reason>, outcomes: seq<Outcome>): CheckResult
  {
    var gating := Gating(p, Findings(consolidated, approvals, outcomes));
    ResultOf(gating, Reports(gating, runOf, approvals, outcomes), exceeded)
  }

  // ---------- the gate fails closed ----------

  lemma {:induction false} VerdictsPartition(reports: seq<Report>)
    ensures CountVerdict(reports, Passed) + CountVerdict(reports, Failed) + CountVerdict(reports, Error)
          + CountVerdict(reports, SkippedItem) + CountVerdict(reports, PendingReview) == |reports|
  {
    if reports != [] { VerdictsPartition(reports[..|reports| - 1]); }
  }

  lemma {:induction false} CountZero(reports: seq<Report>, v: Verdict)
    ensures CountVerdict(reports, v) == 0 <==> forall i :: 0 <= i < |reports| ==> reports[i].verdict != v
  {
    if reports != [] { CountZero(reports[..|reports| - 1], v); }
  }

  lemma {:induction false} OwnAreGating(gating: seq<Defect>, path: Option<string>)
    ensures forall d <- OwnFindings(gating, path) :: d in gating && path.Some? && path.value in d.runs
  {
    if gating != [] { OwnAreGating(gating[1..], path); }
  }

  lemma {:induction false} BothAreGating(gating: seq<Defect>, approvals: seq<Defect>)
    ensures forall d :: d in Both(gating, approvals) <==> d in gating && d in approvals
  {
    if gating != [] { BothAreGating(gating[1..], approvals); }
  }

  /** Only an item that ran can pass, and one without gating findings of its own. */
  lemma PassedRan(gating: seq<Defect>, runOf: string -> Option<string>, o: Outcome)
    ensures var r := ReportOf(gating, runOf, o);
            && (r.verdict == Passed ==>
                o.Ran? && !o.ex.error && r.gating == [] && o.ex.outcome != Some("healed-pending-review"))
            && (r.verdict == Failed ==> r.gating != [] && gating != [])
            && (r.verdict == SkippedItem <==> o.Skipped?)
            && (o.Refused? ==> r.verdict == Error)
  {
    if o.Ran? && o.ex.resultPath.Some? { OwnAreGating(gating, runOf(o.ex.resultPath.value)); }
  }

  ghost predicate SomeVerdict(reports: seq<Report>, v: Verdict) {
    exists i :: 0 <= i < |reports| && reports[i].verdict == v
  }

  lemma NoGatingNoFailure(gating: seq<Defect>, runOf: string -> Option<string>, approvals: Option<seq<Defect>>,
      outcomes: seq<Outcome>)
    requires gating == []
    ensures !SomeVerdict(Reports(gating, runOf, approvals, outcomes), Failed)
  {
    var reports := Reports(gating, runOf, approvals, outcomes);
    forall i | 0 <= i < |reports| ensures reports[i].verdict != Failed {
      if i < |outcomes| {
        PassedRan(gating, runOf, outcomes[i]);
      } else {
        BothAreGating(gating, approvals.value);
      }
    }
  }

  lemma ExitCodes(gating: seq<Defect>, reports: seq<Report>, exceeded: Option<Reason>)
    requires gating == [] ==> !SomeVerdict(reports, Failed)
    ensures var code := ResultOf(gating, reports, exceeded).exitCode;
            && (code == 1 <==> gating != [])
            && (code == 2 <==> gating == [] && (SomeVerdict(reports, Error) || exceeded.Some?))
            && (code == 5 <==>
                gating == [] && !SomeVerdict(reports, Error) && exceeded.None? && SomeVerdict(reports, PendingReview))
            && (code == 0 <==> gating == [] && exceeded.None? && AllPassedOrSkipped(reports))
  {
    CountZero(reports, Error);
    CountZero(reports, PendingReview);
    if !SomeVerdict(reports, Error) && !SomeVerdict(reports, PendingReview) && !SomeVerdict(reports, Failed) {
      forall i | 0 <= i < |reports| ensures reports[i].verdict in {Passed, SkippedItem} {}
    }
  }

  ghost predicate AllPassedOrSkipped(reports: seq<Report>) {
    forall i :: 0 <= i < |reports| ==> reports[i].verdict in {Passed, SkippedItem}
  }

  /**
   * The exit code, exactly: a gating finding wins over an error or a spent budget, those over a
   * pending review, and 0 means that every item passed or was skipped within every limit. The
   * summary's counts partition the items.
   */
  lemma GateFailsClosed(
    p: Policy, runOf: string -> Option<string>, consolidated: seq<Defect>, approvals: Option<seq<Defect>>,
    exceeded: Option<Reason>, outcomes: seq<Outcome>)
    ensures var r := GateResult(p, runOf, consolidated, approvals, exceeded, outcomes);
            var gates := exists d :: d in Findings(consolidated, approvals, outcomes) && IsGating(p, d);
            && r.summary.passed + r.summary.failed + r.summary.errors + r.summary.skipped + r.summary.pendingReview
                == r.summary.items
            && (r.exitCode == 1 <==> gates)
            && (r.exitCode == 2 <==> !gates && (SomeVerdict(r.reports, Error) || exceeded.Some?))
            && (r.exitCode == 5 <==>
                !gates && !SomeVerdict(r.reports, Error) && exceeded.None? && SomeVerdict(r.reports, PendingReview))
            && (r.exitCode == 0 <==> !gates && exceeded.None? && AllPassedOrSkipped(r.reports))
  {
    var gating := Gating(p, Findings(consolidated, approvals, outcomes));
    var reports := Reports(gating, runOf, approvals, outcomes);
    GatingExact(p, Findings(consolidated, approvals, outcomes));
    assert gating != [] ==> gating[0] in gating;
    VerdictsPartition(reports);
    if gating == [] { NoGatingNoFailure(gating, runOf, approvals, outcomes); }
    ExitCodes(gating, reports, exceeded);
  }

  /** Left out as planned, or run. */
  predicate AsPlanned(reuse: bool, item: Item, o: Outcome) {
    if reuse || item.skipped then o.Skipped? else o.Ran?
  }

  /** A check that exits 0 ran every planned item and refused none, and never passed its action limit. */
  lemma CleanExitRanEverything(
    m: Meter, reuse: bool, items: seq<Item>, turns: seq<Turn>,
    p: Policy, runOf: string -> Option<string>, consolidated: seq<Defect>, approvals: Option<seq<Defect>>)
    requires |items| == |turns| && m.actions == 0 && m.exceeded.None?
    requires var s := After(m, reuse, items, turns, |items|);
             GateResult(p, runOf, consolidated, approvals, s.exceeded, s.outcomes).exitCode == 0
    ensures var outcomes := After(m, reuse, items, turns, |items|).outcomes;
            && (forall i :: 0 <= i < |items| ==> AsPlanned(reuse, items[i], outcomes[i]))
            && (m.limits.maxActions.Some? ==> ActionsOf(outcomes) <= Max(0, m.limits.maxActions.value))
  {
    var s := After(m, reuse, items, turns, |items|);
    GateFailsClosed(p, runOf, consolidated, approvals, s.exceeded, s.outcomes);
    var gating := Gating(p, Findings(consolidated, approvals, s.outcomes));
    var reports := Reports(gating, runOf, approvals, s.outcomes);
    forall i | 0 <= i < |items| ensures AsPlanned(reuse, items[i], s.outcomes[i]) {
      OutcomeAt(m, reuse, items, turns, i);
      PassedRan(gating, runOf, s.outcomes[i]);
      assert reports[i].verdict in {Passed, SkippedItem};
    }
    WithinUnlessExceeded(m, reuse, items, turns, |items|);
  }

  /** While nothing is exceeded, what ran stayed within the action limit. */
  lemma {:induction false} WithinUnlessExceeded(m: Meter, reuse: bool, items: seq<Item>, turns: seq<Turn>, n: nat)
    requires n <= |items| == |turns| && m.actions == 0 && m.exceeded.None?
    ensures var s := After(m, reuse, items, turns, n);
            && (s.meter.exceeded.Some? ==> s.exceeded.Some?)
            && (s.exceeded.None? && m.limits.maxActions.Some? ==>
                ActionsOf(s.outcomes) <= Max(0, m.limits.maxActions.value))
  {
    MeterCounts(m, reuse, items, turns, n);
    if n > 0 {
      WithinUnlessExceeded(m, reuse, items, turns, n - 1);
      MeterCounts(m, reuse, items, turns, n - 1);
    }
  }
}
