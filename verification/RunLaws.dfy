/** When each item of a check runs, in terms of what was taken, spent and elapsed before it. */
module RunLaws {
  import opened Wrappers
  import opened Usage
  import opened UsageLaws
  import opened Budget
  import opened BudgetLaws
  import opened CheckRun

  /** Everything is within its limit when the `k`-th item, which ran, is charged. */
  ghost predicate WithinAt(m: Meter, turns: seq<Turn>, outcomes: seq<Outcome>, k: nat)
    requires k < |outcomes| <= |turns|
  {
    Within(m, ActionsOf(outcomes[..k + 1]), turns[k].after, turns[k].chargedAt)
  }

  /** No charge of the first `n` items found anything exceeded. */
  ghost predicate NothingExceeded(m: Meter, turns: seq<Turn>, outcomes: seq<Outcome>, n: nat)
    requires n <= |outcomes| <= |turns|
  {
    forall k :: 0 <= k < n && outcomes[k].Ran? ==> WithinAt(m, turns, outcomes, k)
  }

  lemma WithinSame(a: Meter, b: Meter, actions: int, l: Ledger, now: real)
    requires a.limits == b.limits && a.start == b.start && a.costKnownZero == b.costKnownZero
    ensures Within(a, actions, l, now) <==> Within(b, actions, l, now)
    ensures Below(a.(actions := b.actions), l, now) <==> Below(b, l, now)
  {
  }

  lemma ExceededNext(m: Meter, turns: seq<Turn>, before: seq<Outcome>, o: Outcome)
    requires |before| < |turns|
    ensures NothingExceeded(m, turns, before + [o], |before| + 1)
       <==> NothingExceeded(m, turns, before, |before|)
            && (o.Ran? ==> WithinAt(m, turns, before + [o], |before|))
  {
    var all, n := before + [o], |before|;
    assert forall k :: 0 <= k < n ==> all[k] == before[k] && all[..k + 1] == before[..k + 1];
    if NothingExceeded(m, turns, all, n + 1) {
      forall k | 0 <= k < n && before[k].Ran? ensures WithinAt(m, turns, before, k) {
        assert WithinAt(m, turns, all, k);
      }
    }
    if NothingExceeded(m, turns, before, n) && (o.Ran? ==> WithinAt(m, turns, all, n)) {
      forall k | 0 <= k < n + 1 && all[k].Ran? ensures WithinAt(m, turns, all, k) {
        if k < n { assert WithinAt(m, turns, before, k); }
      }
    }
  }

  /** The meter holds an excess exactly when a charge found one. */
  lemma {:induction false} MeterTells(m: Meter, reuse: bool, items: seq<Item>, turns: seq<Turn>, n: nat)
    requires n <= |items| == |turns| && m.actions == 0 && m.exceeded.None?
    ensures var s := After(m, reuse, items, turns, n);
            && s.meter == m.(actions := ActionsOf(s.outcomes), exceeded := s.meter.exceeded)
            && (s.meter.exceeded.None? <==> NothingExceeded(m, turns, s.outcomes, n))
            && (s.exceeded.None? ==> s.meter.exceeded.None?)
  {
    MeterCounts(m, reuse, items, turns, n);
    if n > 0 {
      MeterTells(m, reuse, items, turns, n - 1);
      StepTells(m, After(m, reuse, items, turns, n - 1), reuse, items[n - 1], turns, n - 1);
    }
  }

  lemma StepTells(m: Meter, s: LoopState, reuse: bool, item: Item, turns: seq<Turn>, n: nat)
    requires |s.outcomes| == n < |turns|
    requires s.meter == m.(actions := ActionsOf(s.outcomes), exceeded := s.meter.exceeded)
    requires s.meter.exceeded.None? <==> NothingExceeded(m, turns, s.outcomes, n)
    requires s.exceeded.None? ==> s.meter.exceeded.None?
    requires var z := Step(s, reuse, item, turns[n]); z.meter.actions == ActionsOf(z.outcomes)
    ensures var z := Step(s, reuse, item, turns[n]);
            && z.meter == m.(actions := ActionsOf(z.outcomes), exceeded := z.meter.exceeded)
            && (z.meter.exceeded.None? <==> NothingExceeded(m, turns, z.outcomes, n + 1))
            && (z.exceeded.None? ==> z.meter.exceeded.None?)
  {
    var z := Step(s, reuse, item, turns[n]);
    var o := z.outcomes[n];
    StepMeter(s, reuse, item, turns[n]);
    ExceededNext(m, turns, s.outcomes, o);
    if o.Ran? {
      assert z.outcomes[..n + 1] == z.outcomes;
      WithinSame(s.meter, m, z.meter.actions, turns[n].after, turns[n].chargedAt);
    }
  }

  /** One turn: the meter is charged for an item that ran, and only then. */
  lemma StepMeter(s: LoopState, reuse: bool, item: Item, turn: Turn)
    ensures var (z, n) := (Step(s, reuse, item, turn), |s.outcomes|);
            && |z.outcomes| == n + 1 && z.outcomes == s.outcomes + [z.outcomes[n]]
            && (!z.outcomes[n].Ran? ==> z.meter == s.meter)
            && (z.exceeded.None? ==> s.exceeded.None? && (z.outcomes[n].Ran? ==> z.meter.exceeded.None?))
            && (z.outcomes[n].Ran? ==>
                var taken := s.meter.actions + z.outcomes[n].ex.actions;
                && z.meter == s.meter.(actions := taken, exceeded := z.meter.exceeded)
                && (z.meter.exceeded.None? <==>
                    s.meter.exceeded.None? && Within(s.meter, taken, turn.after, turn.chargedAt)))
  {
    ChargeExactly(s.meter, turn.result.GetOr(THROWN).actions, turn.after, turn.chargedAt);
  }

  /**
   * An item runs exactly when it is planned, no earlier charge found a limit exceeded, and, with the actions,
   * the money and the time taken so far, every limit leaves room.
   */
  lemma RunsExactly(m: Meter, reuse: bool, items: seq<Item>, turns: seq<Turn>, i: nat)
    requires i < |items| == |turns| && m.actions == 0 && m.exceeded.None?
    ensures var outcomes := After(m, reuse, items, turns, |items|).outcomes;
            var taken := ActionsOf(outcomes[..i]);
            && (outcomes[i].Skipped? <==> reuse || items[i].skipped)
            && (outcomes[i].Ran? <==>
                !reuse && !items[i].skipped && NothingExceeded(m, turns, outcomes, i)
                && Below(m.(actions := taken), turns[i].before, turns[i].askedAt))
            && (outcomes[i].Ran? ==> outcomes[i].ex == turns[i].result.GetOr(THROWN))
  {
    var s := After(m, reuse, items, turns, i);
    var outcomes := After(m, reuse, items, turns, |items|).outcomes;
    OutcomeAt(m, reuse, items, turns, i);
    MeterTells(m, reuse, items, turns, i);
    PrefixTells(m, turns, outcomes, i);
    MayStartExactly(s.meter, turns[i].before, turns[i].askedAt);
    WithinSame(m, s.meter, 0, turns[i].before, turns[i].askedAt);
  }

  lemma PrefixTells(m: Meter, turns: seq<Turn>, outcomes: seq<Outcome>, n: nat)
    requires n <= |outcomes| <= |turns|
    ensures NothingExceeded(m, turns, outcomes, n) <==> NothingExceeded(m, turns, outcomes[..n], n)
  {
    assert forall k :: 0 <= k < n ==> outcomes[..n][k] == outcomes[k] && outcomes[..n][..k + 1] == outcomes[..k + 1];
    if NothingExceeded(m, turns, outcomes, n) {
      forall k | 0 <= k < n && outcomes[..n][k].Ran? ensures WithinAt(m, turns, outcomes[..n], k) {
        assert WithinAt(m, turns, outcomes, k);
      }
    }
    if NothingExceeded(m, turns, outcomes[..n], n) {
      forall k | 0 <= k < n && outcomes[k].Ran? ensures WithinAt(m, turns, outcomes, k) {
        assert WithinAt(m, turns, outcomes[..n], k);
      }
    }
  }

  /** A check that exits 0 was, whenever an item was charged, within its limits on actions, time and money. */
  lemma CleanExitWithinLimits(
    m: Meter, reuse: bool, items: seq<Item>, turns: seq<Turn>,
    p: Policy, runOf: string -> Option<string>, consolidated: seq<Defect>, approvals: Option<seq<Defect>>, k: nat)
    requires k < |items| == |turns| && m.actions == 0 && m.exceeded.None?
    requires var s := After(m, reuse, items, turns, |items|);
             && s.outcomes[k].Ran?
             && GateResult(p, runOf, consolidated, approvals, s.exceeded, s.outcomes).exitCode == 0
    ensures WithinAt(m, turns, After(m, reuse, items, turns, |items|).outcomes, k)
  {
    var s := After(m, reuse, items, turns, |items|);
    GateFailsClosed(p, runOf, consolidated, approvals, s.exceeded, s.outcomes);
    MeterTells(m, reuse, items, turns, |items|);
  }
}
