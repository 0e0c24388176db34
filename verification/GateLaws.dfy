/** What fails a check, and what fails an item, in terms of its findings and the baseline. */
module GateLaws {
  import opened Wrappers
  import opened Budget
  import opened CheckRun

  /** What the baseline says of the finding's first member key that it knows, or else of the finding's own key. */
  ghost predicate HeldBefore(d: Defect, entries: map<string, bool>) {
    || (exists i :: 0 <= i < |d.keys| && FirstKnown(d.keys, entries, i) && entries[d.keys[i]])
    || ((forall i :: 0 <= i < |d.keys| ==> d.keys[i] !in entries) && d.key in entries && entries[d.key])
  }

  predicate FirstKnown(keys: seq<string>, entries: map<string, bool>, i: nat)
    requires i < |keys|
  {
    keys[i] in entries && forall k :: 0 <= k < i ==> keys[k] !in entries
  }

  /** A finding that fails the check: a hard one, or an advisory one if the suite says so, that is new. */
  ghost predicate Fails(p: Policy, d: Defect) {
    && (d.severity.Hard? || (d.severity.Advisory? && p.gateAdvisory))
    && (p.inBaseline.Some? ==> !HeldBefore(d, p.inBaseline.value))
  }

  lemma {:induction false} FirstEntryMeans(keys: seq<string>, entries: map<string, bool>)
    ensures FirstEntry(keys, entries).None? <==> forall i :: 0 <= i < |keys| ==> keys[i] !in entries
    ensures forall i :: 0 <= i < |keys| && FirstKnown(keys, entries, i) ==>
              FirstEntry(keys, entries) == Some(entries[keys[i]])
    ensures FirstEntry(keys, entries).Some? ==> exists i :: 0 <= i < |keys| && FirstKnown(keys, entries, i)
  {
    if keys != [] && keys[0] !in entries {
      var rest := keys[1..];
      FirstEntryMeans(rest, entries);
      assert forall i :: 0 <= i < |rest| ==> rest[i] == keys[i + 1];
      forall i | 0 <= i < |keys| && FirstKnown(keys, entries, i)
        ensures FirstEntry(keys, entries) == Some(entries[keys[i]])
      {
        assert FirstKnown(rest, entries, i - 1);
      }
      if FirstEntry(keys, entries).Some? {
        var i :| 0 <= i < |rest| && FirstKnown(rest, entries, i);
        assert FirstKnown(keys, entries, i + 1);
      }
    } else if keys != [] {
      assert FirstKnown(keys, entries, 0);
    }
  }

  lemma GatingMeans(p: Policy, d: Defect)
    ensures IsGating(p, d) <==> Fails(p, d)
  {
    if p.inBaseline.Some? { FirstEntryMeans(d.keys, p.inBaseline.value); }
  }

  /** Everything a check finds: in its runs, in its approvals, and the brittle locators of the items that ran. */
  ghost predicate Found(consolidated: seq<Defect>, approvals: Option<seq<Defect>>, outcomes: seq<Outcome>, d: Defect) {
    || d in consolidated
    || (approvals.Some? && d in approvals.value)
    || (exists i :: 0 <= i < |outcomes| && outcomes[i].Ran? && outcomes[i].ex.brittle == Some(d))
  }

  lemma {:induction false} BrittleMeans(outcomes: seq<Outcome>, d: Defect)
    ensures d in Brittle(outcomes)
       <==> exists i :: 0 <= i < |outcomes| && outcomes[i].Ran? && outcomes[i].ex.brittle == Some(d)
  {
    if outcomes != [] {
      BrittleMeans(outcomes[1..], d);
      assert forall i :: 0 <= i < |outcomes| - 1 ==> outcomes[1..][i] == outcomes[i + 1];
      if i :| 0 <= i < |outcomes| && outcomes[i].Ran? && outcomes[i].ex.brittle == Some(d) {
        if i > 0 { assert outcomes[1..][i - 1].Ran?; }
      }
    }
  }

  lemma FoundMeans(consolidated: seq<Defect>, approvals: Option<seq<Defect>>, outcomes: seq<Outcome>, d: Defect)
    ensures d in Findings(consolidated, approvals, outcomes) <==> Found(consolidated, approvals, outcomes, d)
  {
    BrittleMeans(outcomes, d);
  }

  lemma InGating(
    p: Policy, consolidated: seq<Defect>, approvals: Option<seq<Defect>>, outcomes: seq<Outcome>, d: Defect)
    ensures d in Gating(p, Findings(consolidated, approvals, outcomes))
       <==> Found(consolidated, approvals, outcomes, d) && Fails(p, d)
  {
    GatingExact(p, Findings(consolidated, approvals, outcomes));
    FoundMeans(consolidated, approvals, outcomes, d);
    GatingMeans(p, d);
  }

  /** A check exits 1 exactly when some finding fails it. */
  lemma ExitOneExactly(
    p: Policy, runOf: string -> Option<string>, consolidated: seq<Defect>, approvals: Option<seq<Defect>>,
    exceeded: Option<Reason>, outcomes: seq<Outcome>)
    ensures GateResult(p, runOf, consolidated, approvals, exceeded, outcomes).exitCode == 1
       <==> exists d :: Found(consolidated, approvals, outcomes, d) && Fails(p, d)
  {
    var gating := Gating(p, Findings(consolidated, approvals, outcomes));
    GateFailsClosed(p, runOf, consolidated, approvals, exceeded, outcomes);
    if d :| Found(consolidated, approvals, outcomes, d) && Fails(p, d) {
      InGating(p, consolidated, approvals, outcomes, d);
      GatingMeans(p, d);
      FoundMeans(consolidated, approvals, outcomes, d);
    }
    if d :| d in Findings(consolidated, approvals, outcomes) && IsGating(p, d) {
      GatingMeans(p, d);
      FoundMeans(consolidated, approvals, outcomes, d);
    }
  }

  /** A hard finding of which the baseline knows no key makes every check exit 1, whatever the policy. */
  lemma NewHardFindingFails(
    p: Policy, runOf: string -> Option<string>, consolidated: seq<Defect>, approvals: Option<seq<Defect>>,
    exceeded: Option<Reason>, outcomes: seq<Outcome>, d: Defect)
    requires Found(consolidated, approvals, outcomes, d) && d.severity.Hard?
    requires p.inBaseline.Some? ==> d.key !in p.inBaseline.value && forall k <- d.keys :: k !in p.inBaseline.value
    ensures GateResult(p, runOf, consolidated, approvals, exceeded, outcomes).exitCode == 1
  {
    assert Fails(p, d);
    ExitOneExactly(p, runOf, consolidated, approvals, exceeded, outcomes);
  }

  // ---------- one item ----------

  /** A finding in the run that the item's result file holds, or its own brittle locator. */
  ghost predicate Own(runOf: string -> Option<string>, ex: Executed, d: Defect) {
    || (ex.resultPath.Some? && runOf(ex.resultPath.value).Some? && runOf(ex.resultPath.value).value in d.runs)
    || ex.brittle == Some(d)
  }

  lemma {:induction false} OwnFindingsMean(gating: seq<Defect>, path: Option<string>, d: Defect)
    ensures d in OwnFindings(gating, path) <==> d in gating && path.Some? && path.value in d.runs
  {
    if gating != [] { OwnFindingsMean(gating[1..], path, d); }
  }

  /** An item's verdict: an error, else failed by a finding of its own, else pending a review, else passed. */
  lemma VerdictExactly(
    p: Policy, runOf: string -> Option<string>, consolidated: seq<Defect>, approvals: Option<seq<Defect>>,
    outcomes: seq<Outcome>, i: nat)
    requires i < |outcomes|
    ensures var r := GateResult(p, runOf, consolidated, approvals, None, outcomes).reports[i];
            && (outcomes[i].Skipped? <==> r.verdict.SkippedItem?)
            && (outcomes[i].Refused? ==> r.verdict.Error?)
            && (outcomes[i].Ran? ==>
                var ex := outcomes[i].ex;
                var fails := exists d ::
                  Found(consolidated, approvals, outcomes, d) && Fails(p, d) && Own(runOf, ex, d);
                && (r.verdict.Error? <==> ex.error)
                && (r.verdict.Failed? <==> !ex.error && fails)
                && (r.verdict.PendingReview? <==> !ex.error && !fails && ex.outcome == Some("healed-pending-review")))
  {
    var gating := Gating(p, Findings(consolidated, approvals, outcomes));
    if outcomes[i].Ran? {
      var ex := outcomes[i].ex;
      var own := ReportOf(gating, runOf, outcomes[i]).gating;
      forall d | true
        ensures d in own <==> Found(consolidated, approvals, outcomes, d) && Fails(p, d) && Own(runOf, ex, d)
      {
        InGating(p, consolidated, approvals, outcomes, d);
        if ex.resultPath.Some? { OwnFindingsMean(gating, runOf(ex.resultPath.value), d); }
      }
      if own != [] { assert own[0] in own; }
    }
  }
}
