/** What confirms an approval, what reaches a report, and what the report finds wrong. */
module ApprovalLaws {
  import opened Wrappers
  import opened Characters
  import opened CharacterLaws
  import opened Approvals

  // ---------- confirmation ----------

  /** What an answer must be: the id, or at least 8 of the hash's first hexadecimal digits in any case. */
  ghost predicate Names(lower: Lowercase, x: string, r: Request) {
    x == r.id
    || (8 <= |lower(x)| <= |lower(r.contentHash)|
        && forall i :: 0 <= i < |lower(x)| ==>
             lower(x)[i] == lower(r.contentHash)[i] && lower(x)[i] in "0123456789abcdef")
  }

  /** Without the white space around it, the answer is not empty and names the item. */
  ghost predicate Answers(lower: Lowercase, answer: string, r: Request) {
    exists x :: Trimmed(answer, x) && x != "" && Names(lower, x, r)
  }

  lemma ConfirmedExactly(lower: Lowercase, answer: string, r: Request)
    ensures Confirmed(lower, answer, r) <==> Answers(lower, answer, r)
  {
    var x := Trim(answer);
    TrimExactly(answer, x);
    HexDigitsAre(lower(x));
    if y :| Trimmed(answer, y) && y != "" && Names(lower, y, r) { TrimExactly(answer, y); }
  }

  lemma HexDigitsAre(s: string)
    ensures Hex(s) <==> forall i :: 0 <= i < |s| ==> s[i] in "0123456789abcdef"
  {
    var digits := "0123456789abcdef";
    forall i | 0 <= i < |s| ensures s[i] in digits <==> '0' <= s[i] <= '9' || 'a' <= s[i] <= 'f' {
      if '0' <= s[i] <= '9' { assert digits[s[i] as int - 48] == s[i]; }
      if 'a' <= s[i] <= 'f' { assert digits[s[i] as int - 87] == s[i]; }
    }
  }

  /** One of the variables that CI systems set is among the first twenty markers. */
  ghost predicate SeesCi(markers: seq<string>) {
    exists i :: 0 <= i < |markers| && i < 20 && (markers[i] == "CI" || markers[i] == "GITHUB_ACTIONS"
      || markers[i] == "GITLAB_CI" || markers[i] == "BUILDKITE" || markers[i] == "CIRCLECI"
      || markers[i] == "JENKINS_URL" || markers[i] == "TF_BUILD")
  }

  /** The signals recorded: the first twenty markers in order, then each standard stream that is no terminal. */
  lemma SignalsExactly(markers: seq<string>, stdin: bool, stdout: bool)
    ensures var (s, n) := (Signals(markers, stdin, stdout), if |markers| < 20 then |markers| else 20);
            && |s| == n + (if stdin then 0 else 1) + (if stdout then 0 else 1)
            && (forall i :: 0 <= i < n ==> s[i] == markers[i])
            && (!stdin ==> s[n] == "stdin-not-tty")
            && (!stdout ==> s[|s| - 1] == "stdout-not-tty")
    ensures UnderCi(Signals(markers, stdin, stdout)) <==> SeesCi(markers)
  {
    CiIsSeenAmongTwenty(markers, stdin, stdout);
  }

  /** Both streams are terminals. */
  ghost predicate AtTerminal(w: Terminal) { w.stdin && w.stdout }

  /** A merged and approved pull request stands for a person only in CI, for one entry, no waiver and no proposal. */
  ghost predicate Reviewed(w: Terminal, r: Request) {
    SeesCi(w.markers) && w.forge && r.entry && !r.proposal && r.waivers < 1
  }

  /** The id or the hash typed at every question: one for the approval and one for each waiver. */
  ghost predicate TypedAll(lower: Lowercase, w: Terminal, r: Request) {
    forall k: nat :: k < r.waivers + 1 ==> Answers(lower, w.answer(k), r)
  }

  lemma TypedExactly(lower: Lowercase, w: Terminal, r: Request)
    ensures TypedInFull(lower, w, r) <==> TypedAll(lower, w, r)
  {
    forall k: nat | k <= r.waivers
      ensures Confirmed(lower, w.answer(k), r) <==> Answers(lower, w.answer(k), r)
    {
      ConfirmedExactly(lower, w.answer(k), r);
    }
  }

  /**
   * Who approved, as recorded. Over MCP nothing else counts. A person at a terminal who named the item at every
   * question, a reviewed pull request where there is no terminal, or a reason given, in CI or not.
   */
  lemma DecisionExactly(lower: Lowercase, w: Terminal, nonInteractive: Option<string>, r: Request)
    ensures var d := Decision(lower, w, nonInteractive, r);
            var channel := if d.Ok? then Some(d.value.channel) else None;
            var blank := nonInteractive.Some? && Spaces(nonInteractive.value);
            var review := !AtTerminal(w) && Reviewed(w, r);
            && (channel == Some(Mcp) <==> w.mcp)
            && (d == Err(BlankReason) <==> !w.mcp && blank)
            && (channel == Some(PrReview) <==> !w.mcp && !blank && review)
            && (channel == Some(Ci) <==>
                !w.mcp && !blank && !review && nonInteractive.Some? && SeesCi(w.markers))
            && (channel == Some(NonInteractive) <==>
                !w.mcp && !blank && !review && nonInteractive.Some? && !SeesCi(w.markers))
            && (channel == Some(Tty) <==>
                !w.mcp && AtTerminal(w) && nonInteractive.None? && TypedAll(lower, w, r))
            && (d == Err(NeedsHuman) <==> !w.mcp && !AtTerminal(w) && !Reviewed(w, r) && nonInteractive.None?)
            && (d == Err(NotConfirmed) <==>
                !w.mcp && AtTerminal(w) && nonInteractive.None? && !TypedAll(lower, w, r))
  {
    SignalsExactly(w.markers, w.stdin, w.stdout);
    SignalsExactly(w.markers, true, true);
    TypedExactly(lower, w, r);
    if nonInteractive.Some? { BlankMeans(nonInteractive.value); }
  }

  lemma BlankMeans(s: string)
    ensures Trim(s) == "" <==> Spaces(s)
  {
    TrimExactly(s, "");
    if Spaces(s) {
      assert s == s + "" + "" && Spaces("");
    }
  }

  /** What is recorded: the signals of the terminal, and the reason given without the white space around it. */
  lemma ProvenanceExactly(lower: Lowercase, w: Terminal, nonInteractive: Option<string>, r: Request)
    requires Decision(lower, w, nonInteractive, r).Ok?
    ensures var p := Decision(lower, w, nonInteractive, r).value;
            && p.signals == Signals(w.markers, w.stdin, w.stdout)
            && (p.reason.Some? <==> p.channel.Ci? || p.channel.NonInteractive?)
            && (p.reason.Some? ==> nonInteractive.Some? && Trimmed(nonInteractive.value, p.reason.value))
  {
    if nonInteractive.Some? { TrimTrims(nonInteractive.value); }
  }

  // ---------- the report ----------

  /** The approval of an item as the report takes it. */
  function Taken(kind: Kind, x: Item): Judged {
    if x.approved then Judged(kind, x.id, x.stale, x.provenance, false) else Judged(kind, x.id, false, None, true)
  }

  /** Approved personas and jobs, and all promoted Journeys. */
  ghost predicate Reaches(c: Catalog, j: Judged) {
    || (exists x <- c.personas :: x.approved && j == Taken(PersonaItem, x))
    || (exists x <- c.jobs :: x.approved && j == Taken(JobItem, x))
    || (exists x <- c.promoted :: j == Taken(JourneyItem, x))
  }

  lemma {:induction false} RecordedExactly(kind: Kind, items: seq<Item>, j: Judged)
    ensures j in Recorded(kind, items)
       <==> exists x <- items :: (x.approved || kind.JourneyItem?) && j == Taken(kind, x)
  {
    if items != [] {
      var front, last := items[..|items| - 1], items[|items| - 1];
      RecordedExactly(kind, front, j);
      assert items == front + [last];
    }
  }

  lemma {:induction false} RecordedInOrder(kind: Kind, a: seq<Item>, b: seq<Item>)
    ensures Recorded(kind, a + b) == Recorded(kind, a) + Recorded(kind, b)
    decreases |b|
  {
    if b == [] {
      assert a + b == a;
    } else {
      RecordedInOrder(kind, a, b[..|b| - 1]);
      assert (a + b)[..|a + b| - 1] == a + b[..|b| - 1];
    }
  }

  lemma OfCatalogExactly(c: Catalog, j: Judged)
    ensures j in OfCatalog(c) <==> Reaches(c, j)
  {
    RecordedExactly(PersonaItem, c.personas, j);
    RecordedExactly(JobItem, c.jobs, j);
    RecordedExactly(JourneyItem, c.promoted, j);
  }

  ghost predicate SomeReaches(catalogs: seq<Catalog>, j: Judged) {
    exists i :: 0 <= i < |catalogs| && Reaches(catalogs[i], j)
  }

  lemma SomeReachesNext(front: seq<Catalog>, c: Catalog, j: Judged)
    ensures SomeReaches(front + [c], j) <==> SomeReaches(front, j) || Reaches(c, j)
  {
    var all := front + [c];
    assert all[|front|] == c && forall i :: 0 <= i < |front| ==> all[i] == front[i];
    if SomeReaches(front, j) {
      var i :| 0 <= i < |front| && Reaches(front[i], j);
      assert Reaches(all[i], j);
    }
  }

  /** Every approval in every catalog reaches the report, and nothing else. */
  lemma {:induction false} JudgedExactly(catalogs: seq<Catalog>, j: Judged)
    ensures j in ToJudge(catalogs) <==> SomeReaches(catalogs, j)
  {
    if catalogs != [] {
      var front, c := catalogs[..|catalogs| - 1], catalogs[|catalogs| - 1];
      JudgedExactly(front, j);
      OfCatalogExactly(c, j);
      SomeReachesNext(front, c, j);
      assert catalogs == front + [c];
    }
  }

  /** Earlier catalogs come first: it is their item that is judged when a later one has the same kind and id. */
  lemma {:induction false} JudgedInOrder(a: seq<Catalog>, b: seq<Catalog>)
    ensures ToJudge(a + b) == ToJudge(a) + ToJudge(b)
    decreases |b|
  {
    if b == [] {
      assert a + b == a;
    } else {
      var front, last := b[..|b| - 1], OfCatalog(b[|b| - 1]);
      JudgedInOrder(a, front);
      assert (a + b)[..|a + b| - 1] == a + front;
      assert ToJudge(a + b) == ToJudge(a + front) + last;
    }
  }

  /** What is wrong with an approval: each problem exactly when it is there, and each once. */
  lemma ProblemsExactly(j: Judged, allowed: seq<Channel>, verdicts: Verdicts)
    ensures var ps := Problems(j, allowed, verdicts);
            && (Missing in ps <==> j.missing)
            && (Stale in ps <==> !j.missing && j.stale)
            && (NoProvenance in ps <==> !j.missing && j.provenance.None?)
            && (ChannelNotAllowed in ps <==>
                !j.missing && j.provenance.Some? && j.provenance.value.channel !in allowed)
            && (Unverified in ps <==>
                !j.missing && !j.stale && j.provenance.Some? && j.provenance.value.channel in allowed
                && j.provenance.value.channel == PrReview
                && ((j.kind, j.id) !in verdicts.Keys || !verdicts[(j.kind, j.id)]))
            && |ps| <= 2 && (|ps| == 2 ==> ps[0] != ps[1])
  {
  }
}
