/**
 * How approvals are confirmed and enforced (approval-provenance.ts): the typed confirmation before an
 * approval is written, and the report that fails a catalog whose approvals were not made as required.
 */
module Approvals {
  import opened Wrappers
  import opened Characters
  import opened Lists

  datatype Kind = JourneyItem | DemoItem | PersonaItem | JobItem
  datatype Channel = Tty | NonInteractive | Mcp | Ci | PrReview

  // ---------- confirmation ----------

  datatype Request = Request(kind: Kind, id: string, contentHash: string, waivers: nat, proposal: bool, entry: bool)

  /** JavaScript's `toLowerCase`. */
  type Lowercase = string -> string

  /**
   * `markers` are the agent and CI variables that are set, sorted; `forge` is whether the forge verifies a
   * merged, approved pull request; `answer(k)` is what is typed at the `k`-th question.
   */
  datatype Terminal = Terminal(mcp: bool, markers: seq<string>, stdin: bool, stdout: bool, forge: bool,
      answer: nat -> string)

  datatype Provenance = Provenance(channel: Channel, signals: seq<string>, reason: Option<string>)
  datatype Refusal = BlankReason | NeedsHuman | NotConfirmed

  const CI_MARKERS: set<string> :=
      {"CI", "GITHUB_ACTIONS", "GITLAB_CI", "BUILDKITE", "CIRCLECI", "JENKINS_URL", "TF_BUILD"}
  const MAX_SIGNALS := 20

  function Signals(markers: seq<string>, stdin: bool, stdout: bool): seq<string> {
    (if |markers| <= MAX_SIGNALS then markers else markers[..MAX_SIGNALS])
    + (if stdin then [] else ["stdin-not-tty"]) + (if stdout then [] else ["stdout-not-tty"])
  }

  predicate UnderCi(signals: seq<string>) { exists i :: 0 <= i < |signals| && signals[i] in CI_MARKERS }

  /** CI is recognised exactly when one of its markers is among the first twenty. */
  lemma CiIsSeenAmongTwenty(markers: seq<string>, stdin: bool, stdout: bool)
    ensures UnderCi(Signals(markers, stdin, stdout)) <==> exists i ::
          0 <= i < |markers| && i < MAX_SIGNALS && markers[i] in CI_MARKERS
  {
    var signals := Signals(markers, stdin, stdout);
    var n := if |markers| <= MAX_SIGNALS then |markers| else MAX_SIGNALS;
    assert forall i :: 0 <= i < n ==> signals[i] == markers[i];
    assert forall i :: n <= i < |signals| ==> signals[i] == "stdin-not-tty" || signals[i] == "stdout-not-tty";
    if i :| 0 <= i < |markers| && i < MAX_SIGNALS && markers[i] in CI_MARKERS {
      assert signals[i] in CI_MARKERS;
    }
  }

  /** Twenty agent variables, as they sort before `CI`. */
  function TwentyMarkers(): (r: seq<string>)
    ensures |r| == MAX_SIGNALS
  {
    seq(MAX_SIGNALS, i requires 0 <= i < MAX_SIGNALS => "AIDER_" + ["ABCDEFGHIJKLMNOPQRST"[i]])
  }

  /** With twenty agent variables set, `CI` is set too and not seen. */
  lemma CiPastTwentyIsMissed(stdin: bool, stdout: bool)
    ensures Distinct(TwentyMarkers() + ["CI"]) && "CI" in TwentyMarkers() + ["CI"]
    ensures !UnderCi(Signals(TwentyMarkers() + ["CI"], stdin, stdout))
  {
    var markers, letters := TwentyMarkers() + ["CI"], "ABCDEFGHIJKLMNOPQRST";
    assert forall i :: 0 <= i < MAX_SIGNALS ==> markers[i] == "AIDER_" + [letters[i]] && markers[i][6] == letters[i];
    assert forall i, j :: 0 <= i < j < MAX_SIGNALS ==> letters[i] != letters[j];
    assert markers[MAX_SIGNALS] == "CI" && forall i :: 0 <= i < MAX_SIGNALS ==> |markers[i]| == 7;
    forall i, j | 0 <= i < j < |markers| ensures markers[i] != markers[j] {
      if j < MAX_SIGNALS { assert markers[i][6] != markers[j][6]; }
    }
    forall i | 0 <= i < MAX_SIGNALS ensures markers[i] !in CI_MARKERS {
      assert markers[i][0] == 'A' && forall m <- CI_MARKERS :: m[0] != 'A';
    }
    CiIsSeenAmongTwenty(markers, stdin, stdout);
  }

  predicate Hex(s: string) { forall i :: 0 <= i < |s| ==> '0' <= s[i] <= '9' || 'a' <= s[i] <= 'f' }

  predicate Confirmed(lower: Lowercase, answer: string, r: Request) {
    var a := Trim(answer);
    a != "" && (a == r.id || (|lower(a)| >= 8 && Hex(lower(a)) && lower(a) <= lower(r.contentHash)))
  }

  predicate Interactive(w: Terminal) { w.stdin && w.stdout }

  /** Whether the pull-request channel is granted. */
  predicate ReviewGranted(w: Terminal, r: Request) {
    r.entry && UnderCi(Signals(w.markers, true, true)) && r.waivers == 0 && !r.proposal && w.forge
  }

  function Made(w: Terminal, channel: Channel, reason: Option<string>): Provenance {
    Provenance(channel, Signals(w.markers, w.stdin, w.stdout), reason)
  }

  /** The approval and one answer per waiver. */
  predicate TypedInFull(lower: Lowercase, w: Terminal, r: Request) {
    forall k: nat :: k <= r.waivers ==> Confirmed(lower, w.answer(k), r)
  }

  /** Over which channel an approval is made, or why it is not. */
  function Decision(lower: Lowercase, w: Terminal, nonInteractive: Option<string>, r: Request)
    : Result<Provenance, Refusal>
  {
    var reason := if nonInteractive.Some? then Some(Trim(nonInteractive.value)) else None;
    if w.mcp then Ok(Made(w, Mcp, None))
    else if reason == Some("") then Err(BlankReason)
    else if !Interactive(w) && ReviewGranted(w, r) then Ok(Made(w, PrReview, None))
    else if reason.Some? then
      Ok(Made(w, if UnderCi(Signals(w.markers, w.stdin, w.stdout)) then Ci else NonInteractive, reason))
    else if !Interactive(w) then Err(NeedsHuman)
    else if TypedInFull(lower, w, r) then Ok(Made(w, Tty, None))
    else Err(NotConfirmed)
  }

  /** Confirms an approval or refuses it; `asked` counts the questions put to the terminal. */
  method Confirm(lower: Lowercase, w: Terminal, nonInteractive: Option<string>, r: Request)
    returns (made: Result<Provenance, Refusal>, asked: nat)
    ensures made == Decision(lower, w, nonInteractive, r)
    ensures made.Ok? && made.value.channel.Tty? ==> asked == r.waivers + 1
    ensures asked > 0 ==> Interactive(w) && asked <= r.waivers + 1
    ensures forall k: nat :: k + 1 < asked ==> Confirmed(lower, w.answer(k), r)
  {
    asked := 0;
    if w.mcp { return Ok(Made(w, Mcp, None)), asked; }
    var reason := if nonInteractive.Some? then Some(Trim(nonInteractive.value)) else None;
    if reason == Some("") { return Err(BlankReason), asked; }
    if !Interactive(w) && ReviewGranted(w, r) { return Ok(Made(w, PrReview, None)), asked; }
    if reason.Some? {
      var p := Made(w, NonInteractive, reason);
      return Ok(if UnderCi(p.signals) then p.(channel := Ci) else p), asked;
    }
    if !Interactive(w) { return Err(NeedsHuman), asked; }
    asked := 1;
    if !Confirmed(lower, w.answer(0), r) { return Err(NotConfirmed), asked; }
    for k := 0 to r.waivers
      invariant asked == k + 1
      invariant forall i: nat :: i <= k ==> Confirmed(lower, w.answer(i), r)
    {
      asked := asked + 1;
      if !Confirmed(lower, w.answer(k + 1), r) { return Err(NotConfirmed), asked; }
    }
    return Ok(Made(w, Tty, None)), asked;
  }

  // ---------- enforcement ----------

  /** A recorded approval, or a promoted Journey that has none (`missing`). */
  datatype Judged = Judged(kind: Kind, id: string, stale: bool, provenance: Option<Provenance>, missing: bool)

  datatype Problem = Missing | Stale | NoProvenance | ChannelNotAllowed | Unverified
  datatype Violation = Violation(kind: Kind, id: string, problem: Problem)

  datatype Item = Item(id: string, approved: bool, stale: bool, provenance: Option<Provenance>)
  datatype Catalog = Catalog(personas: seq<Item>, jobs: seq<Item>, promoted: seq<Item>)

  /** The items of a catalog to judge: approved personas, approved jobs, promoted Journeys. */
  function Recorded(kind: Kind, items: seq<Item>): seq<Judged> {
    if items == [] then []
    else
      var front, x := Recorded(kind, items[..|items| - 1]), items[|items| - 1];
      if x.approved then front + [Judged(kind, x.id, x.stale, x.provenance, false)]
      else if kind.JourneyItem? then front + [Judged(kind, x.id, false, None, true)]
      else front
  }

  function ToJudge(catalogs: seq<Catalog>): seq<Judged> {
    if catalogs == [] then [] else ToJudge(catalogs[..|catalogs| - 1]) + OfCatalog(catalogs[|catalogs| - 1])
  }

  function OfCatalog(c: Catalog): seq<Judged> {
    Recorded(PersonaItem, c.personas) + Recorded(JobItem, c.jobs) + Recorded(JourneyItem, c.promoted)
  }

  type Verdicts = map<(Kind, string), bool>

  function Problems(j: Judged, allowed: seq<Channel>, verdicts: Verdicts): seq<Problem> {
    if j.missing then [Missing]
    else
      (if j.stale then [Stale] else [])
      + (if j.provenance.None? then [NoProvenance]
         else if j.provenance.value.channel !in allowed then [ChannelNotAllowed]
         else if j.provenance.value.channel.PrReview? && !j.stale && !Verified(j, verdicts) then [Unverified]
         else [])
  }

  predicate Verified(j: Judged, verdicts: Verdicts) { KeyOf(j) in verdicts && verdicts[KeyOf(j)] }

  /** An approval as required: there is one, of the item as it is, over an allowed and verified channel. */
  predicate Passes(j: Judged, allowed: seq<Channel>, verdicts: Verdicts) {
    && !j.missing && !j.stale && j.provenance.Some? && j.provenance.value.channel in allowed
    && (j.provenance.value.channel.PrReview? ==> Verified(j, verdicts))
  }

  lemma NoProblemIsPassing(j: Judged, allowed: seq<Channel>, verdicts: Verdicts)
    ensures Problems(j, allowed, verdicts) == [] <==> Passes(j, allowed, verdicts)
  {
  }

  function KeyOf(j: Judged): (Kind, string) { (j.kind, j.id) }

  /** Items are told apart by kind and id; the first of each is judged. */
  predicate FirstOfItsKey(js: seq<Judged>, i: nat)
    requires i < |js|
  {
    forall k :: 0 <= k < i ==> KeyOf(js[k]) != KeyOf(js[i])
  }

  function AsViolations(j: Judged, problems: seq<Problem>): seq<Violation> {
    seq(|problems|, i requires 0 <= i < |problems| => Violation(j.kind, j.id, problems[i]))
  }

  ghost predicate Offends(js: seq<Judged>, i: nat, v: Violation, allowed: seq<Channel>, verdicts: Verdicts)
    requires i < |js|
  {
    FirstOfItsKey(js, i) && v.kind == js[i].kind && v.id == js[i].id && v.problem in Problems(js[i], allowed, verdicts)
  }

  ghost predicate Reports(js: seq<Judged>, n: nat, v: Violation, allowed: seq<Channel>, verdicts: Verdicts)
    requires n <= |js|
  {
    exists i :: 0 <= i < n && Offends(js, i, v, allowed, verdicts)
  }

  lemma ReportsMore(js: seq<Judged>, n: nat, v: Violation, allowed: seq<Channel>, verdicts: Verdicts)
    requires n < |js|
    ensures Reports(js, n + 1, v, allowed, verdicts) <==>
          Reports(js, n, v, allowed, verdicts) || Offends(js, n, v, allowed, verdicts)
  {
    if Reports(js, n, v, allowed, verdicts) {
      var i :| 0 <= i < n && Offends(js, i, v, allowed, verdicts);
    }
  }

  lemma MembersOf(j: Judged, problems: seq<Problem>, v: Violation)
    ensures v in AsViolations(j, problems) <==> v.kind == j.kind && v.id == j.id && v.problem in problems
  {
    var vs := AsViolations(j, problems);
    if v.kind == j.kind && v.id == j.id && v.problem in problems {
      var i :| 0 <= i < |problems| && problems[i] == v.problem;
      assert vs[i] == v;
    }
  }

  ghost predicate AllReported(js: seq<Judged>, n: nat, violations: seq<Violation>, allowed: seq<Channel>,
      verdicts: Verdicts)
    requires n <= |js|
  {
    forall v :: v in violations <==> Reports(js, n, v, allowed, verdicts)
  }

  lemma ReportNext(js: seq<Judged>, n: nat, violations: seq<Violation>, allowed: seq<Channel>, verdicts: Verdicts)
    requires n < |js| && AllReported(js, n, violations, allowed, verdicts)
    ensures var more := if FirstOfItsKey(js, n) then AsViolations(js[n], Problems(js[n], allowed, verdicts)) else [];
            AllReported(js, n + 1, violations + more, allowed, verdicts)
  {
    var problems := Problems(js[n], allowed, verdicts);
    var more := if FirstOfItsKey(js, n) then AsViolations(js[n], problems) else [];
    forall v | true ensures v in violations + more <==> Reports(js, n + 1, v, allowed, verdicts) {
      ReportsMore(js, n, v, allowed, verdicts);
      MembersOf(js[n], problems, v);
    }
  }

  /** After `n` items: `seen` holds their keys, and `records` the first item of each. */
  ghost predicate Recording(js: seq<Judged>, n: nat, seen: set<(Kind, string)>, records: seq<Judged>)
    requires n <= |js|
  {
    && (forall k :: 0 <= k < n ==> KeyOf(js[k]) in seen)
    && (forall key <- seen :: exists k :: 0 <= k < n && KeyOf(js[k]) == key)
    && RecordsFirsts(js, n, records)
    && (forall k :: 0 <= k < |records| ==> KeyOf(records[k]) in seen)
  }

  ghost predicate RecordsFirsts(js: seq<Judged>, n: nat, records: seq<Judged>)
    requires n <= |js|
  {
    && (forall k :: 0 <= k < |records| ==> records[k] in js)
    && (forall k :: 0 <= k < n && FirstOfItsKey(js, k) ==> js[k] in records)
    && (forall a, b :: 0 <= a < b < |records| ==> KeyOf(records[a]) != KeyOf(records[b]))
  }

  lemma RecordNext(js: seq<Judged>, n: nat, seen: set<(Kind, string)>, records: seq<Judged>)
    requires n < |js| && Recording(js, n, seen, records)
    ensures FirstOfItsKey(js, n) <==> KeyOf(js[n]) !in seen
    ensures if KeyOf(js[n]) in seen then Recording(js, n + 1, seen, records)
            else Recording(js, n + 1, seen + {KeyOf(js[n])}, records + [js[n]])
  {
    if KeyOf(js[n]) in seen {
      var k :| 0 <= k < n && KeyOf(js[k]) == KeyOf(js[n]);
    } else {
      var next, more := seen + {KeyOf(js[n])}, records + [js[n]];
      forall key | key in next ensures exists k :: 0 <= k < n + 1 && KeyOf(js[k]) == key {
        if key in seen {
          var k :| 0 <= k < n && KeyOf(js[k]) == key;
        }
      }
      assert js[n] in more;
    }
  }

  /**
   * The report: the first item of each key, once; and, when channels are required, exactly the problems of
   * those items, of which there are none if and only if each was approved as required.
   */
  method ApprovalsReport(catalogs: seq<Catalog>, required: Option<seq<Channel>>, verdicts: Verdicts)
    returns (records: seq<Judged>, violations: Option<seq<Violation>>)
    ensures RecordsFirsts(ToJudge(catalogs), |ToJudge(catalogs)|, records)
    ensures violations.Some? <==> required.Some?
    ensures required.Some? ==>
              && AllReported(ToJudge(catalogs), |ToJudge(catalogs)|, violations.value, required.value, verdicts)
              && (violations.value == [] <==> AllPass(ToJudge(catalogs), required.value, verdicts))
  {
    var js := ToJudge(catalogs);
    var allowed := required.GetOr([]);
    var seen: set<(Kind, string)> := {};
    var found: seq<Violation> := [];
    records := [];
    for i := 0 to |js|
      invariant Recording(js, i, seen, records)
      invariant required.Some? ==> AllReported(js, i, found, allowed, verdicts)
    {
      RecordNext(js, i, seen, records);
      if required.Some? { ReportNext(js, i, found, allowed, verdicts); }
      if KeyOf(js[i]) in seen {
        assert found + [] == found;
        continue;
      }
      seen := seen + {KeyOf(js[i])};
      records := records + [js[i]];
      if required.None? { continue; }
      found := found + AsViolations(js[i], Problems(js[i], allowed, verdicts));
    }
    if required.None? { return records, None; }
    PassingExact(js, found, allowed, verdicts);
    return records, Some(found);
  }

  ghost predicate AllPass(js: seq<Judged>, allowed: seq<Channel>, verdicts: Verdicts) {
    forall i :: 0 <= i < |js| && FirstOfItsKey(js, i) ==> Passes(js[i], allowed, verdicts)
  }

  lemma FailureIsReported(js: seq<Judged>, i: nat, allowed: seq<Channel>, verdicts: Verdicts) returns (v: Violation)
    requires i < |js| && FirstOfItsKey(js, i) && !Passes(js[i], allowed, verdicts)
    ensures Reports(js, |js|, v, allowed, verdicts)
  {
    NoProblemIsPassing(js[i], allowed, verdicts);
    v := Violation(js[i].kind, js[i].id, Problems(js[i], allowed, verdicts)[0]);
    assert Offends(js, i, v, allowed, verdicts);
  }

  /** No violation means that every item judged was approved as required. */
  lemma PassingExact(js: seq<Judged>, violations: seq<Violation>, allowed: seq<Channel>, verdicts: Verdicts)
    requires AllReported(js, |js|, violations, allowed, verdicts)
    ensures violations == [] <==> AllPass(js, allowed, verdicts)
  {
    if !AllPass(js, allowed, verdicts) {
      var i :| 0 <= i < |js| && FirstOfItsKey(js, i) && !Passes(js[i], allowed, verdicts);
      var v := FailureIsReported(js, i, allowed, verdicts);
      assert v in violations;
    } else if violations != [] {
      var v := violations[0];
      assert v in violations;
      var i :| 0 <= i < |js| && Offends(js, i, v, allowed, verdicts);
      NoProblemIsPassing(js[i], allowed, verdicts);
    }
  }
}
