/** When an item may start and when a charge trips, in terms of the limits, the clock and the calls made. */
module BudgetLaws {
  import opened Wrappers
  import opened Usage
  import opened UsageLaws
  import opened Budget

  // ---------- the spend ----------

  /** The calls recorded so far. */
  function CallsMade(l: Ledger): seq<Call> {
    match l
    case None => []
    case Some(es) => CallsOf(es)
  }

  /** The spend can be told: no calls, or calls known to cost nothing, or every call priced. */
  ghost predicate Measurable(m: Meter, l: Ledger) {
    CallsMade(l) == [] || m.costKnownZero || AllPriced(CallsMade(l))
  }

  /** What the totals of a ledger say of its spend. */
  lemma TotalsMean(es: seq<Entry>)
    ensures var (u, calls) := (SnapshotOf(es), CallsOf(es));
            && u.judgments + u.generations == |calls|
            && u.totalUsd.GetOr(0.0) == SumUsd(calls)
            && (u.priced == Full <==> calls != [] && AllPriced(calls))
  {
    SpendTold(CallsOf(es), TallyOf(CallsOf(es)), SnapshotOf(es), GapsOf(es));
  }

  lemma SpendOfTotals(m: Meter, u: Counts, calls: seq<Call>)
    requires u.judgments + u.generations == |calls| && u.totalUsd.GetOr(0.0) == SumUsd(calls)
    requires u.priced == Full <==> calls != [] && AllPriced(calls)
    ensures m.Usd(Some(u))
         == if calls == [] || m.costKnownZero || AllPriced(calls) then Some(SumUsd(calls)) else None
  {
    if calls == [] { assert SumUsd(calls) == 0.0; }
  }

  function Spend(m: Meter, l: Ledger): Option<real> { m.Usd(UsageOf(l)) }

  lemma SpendMeans(m: Meter, l: Ledger)
    ensures Spend(m, l).Some? <==> Measurable(m, l)
    ensures Measurable(m, l) ==> Spend(m, l) == Some(SumUsd(CallsMade(l)))
  {
    if l.Some? {
      TotalsMean(l.value);
      SpendOfTotals(m, SnapshotOf(l.value), CallsOf(l.value));
    }
  }

  // ---------- what each limit means ----------

  const MINUTE := 60000.0

  /** Below every limit that is set. */
  ghost predicate Below(m: Meter, l: Ledger, now: real) {
    && (m.limits.maxActions.Some? ==> m.actions < m.limits.maxActions.value)
    && (m.limits.maxMinutes.Some? ==> now - m.start < m.limits.maxMinutes.value * MINUTE)
    && (m.limits.maxUsd.Some? ==> Measurable(m, l) && SumUsd(CallsMade(l)) < m.limits.maxUsd.value)
  }

  /** At or below every limit that is set, with `actions` taken. */
  ghost predicate Within(m: Meter, actions: int, l: Ledger, now: real) {
    !TooMany(m, actions) && !TooLate(m, now) && !TooDear(m, l) && !Untold(m, l)
  }

  predicate TooMany(m: Meter, actions: int) { m.limits.maxActions.Some? && actions > m.limits.maxActions.value }

  predicate TooLate(m: Meter, now: real) {
    m.limits.maxMinutes.Some? && now - m.start > m.limits.maxMinutes.value * MINUTE
  }

  /** A limit on money and a spend that cannot be told. */
  ghost predicate Untold(m: Meter, l: Ledger) { m.limits.maxUsd.Some? && !Measurable(m, l) }

  ghost predicate TooDear(m: Meter, l: Ledger) {
    m.limits.maxUsd.Some? && Measurable(m, l) && SumUsd(CallsMade(l)) > m.limits.maxUsd.value
  }

  /** An item may start exactly when no limit was exceeded before and every one leaves room. */
  lemma MayStartExactly(m: Meter, l: Ledger, now: real)
    ensures m.Blocked(UsageOf(l), now).None? <==> m.exceeded.None? && Below(m, l, now)
  {
    SpendMeans(m, l);
    StartsOn(m, UsageOf(l), now);
  }

  lemma StartsOn(m: Meter, u: Option<Counts>, now: real)
    ensures m.Blocked(u, now).None? <==>
              (&& m.exceeded.None?
               && (m.limits.maxActions.Some? ==> m.actions < m.limits.maxActions.value)
               && (m.limits.maxMinutes.Some? ==> now - m.start < m.limits.maxMinutes.value * MINUTE)
               && (m.limits.maxUsd.Some? ==> m.Usd(u).Some? && m.Usd(u).value < m.limits.maxUsd.value))
  {
  }

  lemma OverMeans(m: Meter, l: Ledger)
    ensures m.UsdOver(UsageOf(l))
         == if Untold(m, l) then Some(SpendNotMeasurable) else if TooDear(m, l) then Some(UsdExceeded) else None
  {
    SpendMeans(m, l);
  }

  lemma TimeMeans(m: Meter, now: real)
    ensures TooLate(m, now) <==> m.limits.maxMinutes.Some? && m.Minutes(now) > m.limits.maxMinutes.value
  {
  }

  /**
   * A charge adds its actions and nothing else, but for what it finds exceeded: what was before, else the first
   * limit passed, in the order actions, time, money.
   */
  lemma ChargeExactly(m: Meter, more: nat, l: Ledger, now: real)
    ensures m.Charged(more, UsageOf(l), now) == m.(
              actions := m.actions + more,
              exceeded :=
                if m.exceeded.Some? then m.exceeded
                else if TooMany(m, m.actions + more) then Some(ActionsExceeded)
                else if TooLate(m, now) then Some(TimeExceeded)
                else if Untold(m, l) then Some(SpendNotMeasurable)
                else if TooDear(m, l) then Some(UsdExceeded)
                else None)
  {
    OverMeans(m, l);
    TimeMeans(m, now);
  }

  /** The cap on an item: never more than its own limit or what remains, but always at least one action. */
  lemma CapExactly(own: Option<int>, remaining: Option<int>)
    ensures Cap(own, remaining).None? <==> own.None? && remaining.None?
    ensures Cap(own, remaining).Some? ==>
              var cap := Cap(own, remaining).value;
              && cap >= 1
              && (own.Some? && own.value >= 1 ==> cap <= own.value)
              && (remaining.Some? && remaining.value >= 1 ==> cap <= remaining.value)
              && (own == Some(cap) || remaining == Some(cap)
                  || (cap == 1 && (own.GetOr(1) < 1 || remaining.GetOr(1) < 1)))
  {
  }
}
