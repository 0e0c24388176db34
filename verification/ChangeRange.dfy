/** The git range parser (change-context.ts): `a..b`, `a...b`, or one revision, which means `X..HEAD`. */
module ChangeRange {
  import opened Wrappers

  datatype Range = Range(from: string, to: string, symmetric: bool)
  datatype Refusal = Invalid | Unsafe

  predicate RefChar(c: char) {
    'A' <= c <= 'Z' || 'a' <= c <= 'z' || '0' <= c <= '9' || c in "._/~^@{}-"
  }

  predicate RefChars(s: string) { forall i :: 0 <= i < |s| ==> RefChar(s[i]) }

  /** `pat` stands in `s` at `i`. */
  predicate At(s: string, pat: string, i: int) { 0 <= i && i + |pat| <= |s| && s[i..i + |pat|] == pat }

  /** The first place of `pat`, or -1. */
  function IndexFrom(s: string, pat: string, i: nat): (r: int)
    requires i <= |s|
    ensures r == -1 || (i <= r && At(s, pat, r) && forall k :: i <= k < r ==> !At(s, pat, k))
    ensures r == -1 ==> forall k :: i <= k <= |s| ==> !At(s, pat, k)
    decreases |s| - i
  {
    if At(s, pat, i) then i else if i == |s| then -1 else IndexFrom(s, pat, i + 1)
  }

  function IndexOf(s: string, pat: string): int { IndexFrom(s, pat, 0) }

  predicate Contains(s: string, pat: string) { exists i :: 0 <= i <= |s| && At(s, pat, i) }

  /** The range pattern: ref characters, in one part or two parts of 1 to 200 around `..` or `...`. */
  predicate RangeShape(s: string) {
    RefChars(s) && (1 <= |s| <= 200 || exists i :: 1 <= i <= 200 && SplitsAt(s, i))
  }

  predicate SplitsAt(s: string, i: int) {
    At(s, "..", i) && (1 <= |s| - i - 2 <= 200 || (At(s, "...", i) && 1 <= |s| - i - 3 <= 200))
  }

  predicate SafeEnd(side: string) {
    side != "" && side[0] != '-' && !Contains(side, "..") && !Contains(side, "@{-")
  }

  function Cut(s: string): Range {
    var triple, double := IndexOf(s, "..."), IndexOf(s, "..");
    if triple >= 0 then Range(s[..triple], s[triple + 3..], true)
    else if double >= 0 then Range(s[..double], s[double + 2..], false)
    else Range(s, "HEAD", false)
  }

  function Parsed(s: string): Result<Range, Refusal> {
    if !RangeShape(s) then Err(Invalid)
    else if !SafeEnd(Cut(s).from) || !SafeEnd(Cut(s).to) then Err(Unsafe)
    else Ok(Cut(s))
  }

  method ParseChangeRange(s: string) returns (r: Result<Range, Refusal>)
    ensures r == Parsed(s)
  {
    if !RangeShape(s) { return Err(Invalid); }
    var triple := IndexOf(s, "...");
    var double := if triple >= 0 then -1 else IndexOf(s, "..");
    var from, to, symmetric;
    if triple >= 0 {
      from, to, symmetric := s[..triple], s[triple + 3..], true;
    } else if double >= 0 {
      from, to, symmetric := s[..double], s[double + 2..], false;
    } else {
      from, to, symmetric := s, "HEAD", false;
    }
    var sides := [from, to];
    for i := 0 to |sides|
      invariant forall k :: 0 <= k < i ==> SafeEnd(sides[k])
    {
      if !SafeEnd(sides[i]) { return Err(Unsafe); }
    }
    assert sides[0] == from && sides[1] == to;
    return Ok(Range(from, to, symmetric));
  }

  // ---------- printing ----------

  function Print(r: Range): string { r.from + (if r.symmetric then "..." else "..") + r.to }

  lemma DotsAt(s: string, i: int)
    ensures At(s, "..", i) <==> 0 <= i && i + 2 <= |s| && s[i] == '.' && s[i + 1] == '.'
    ensures At(s, "...", i) <==> At(s, "..", i) && i + 3 <= |s| && s[i + 2] == '.'
  {
    if 0 <= i && i + 2 <= |s| {
      assert |s[i..i + 2]| == 2 && s[i..i + 2][0] == s[i] && s[i..i + 2][1] == s[i + 1];
      assert s[i..i + 2] == ".." <==> s[i] == '.' && s[i + 1] == '.';
    }
    if 0 <= i && i + 3 <= |s| {
      var t := s[i..i + 3];
      assert |t| == 3 && t[0] == s[i] && t[1] == s[i + 1] && t[2] == s[i + 2];
      assert t == "..." <==> s[i] == '.' && s[i + 1] == '.' && s[i + 2] == '.';
    }
  }

  predicate EndsWithDot(s: string) { s != "" && s[|s| - 1] == '.' }
  predicate StartsWithDot(s: string) { s != "" && s[0] == '.' }

  lemma NoDots(side: string, i: int)
    requires SafeEnd(side) && 0 <= i && i + 1 < |side|
    ensures !(side[i] == '.' && side[i + 1] == '.')
  {
    DotsAt(side, i);
  }

  /** The only places of two dots in a printed range of safe ends that meet no dot of their own. */
  lemma DotsInPrint(r: Range, i: int)
    requires SafeEnd(r.from) && SafeEnd(r.to) && !EndsWithDot(r.from) && At(Print(r), "..", i)
    ensures |r.from| <= i
    ensures i <= |r.from| + (if r.symmetric then 1 else 0) + if StartsWithDot(r.to) then 1 else 0
  {
    var s, n, sep := Print(r), |r.from|, if r.symmetric then 3 else 2;
    DotsAt(s, i);
    assert forall k :: 0 <= k < n ==> s[k] == r.from[k];
    assert forall k :: 0 <= k < |r.to| ==> s[n + sep + k] == r.to[k];
    if i + 1 < n {
      NoDots(r.from, i);
    } else if i >= n + sep {
      NoDots(r.to, i - n - sep);
    }
  }

  lemma PrintChars(r: Range)
    ensures var s, n, sep := Print(r), |r.from|, if r.symmetric then 3 else 2;
            && |s| == n + sep + |r.to| && s[..n] == r.from && s[n + sep..] == r.to
            && At(s, "..", n) && (r.symmetric ==> At(s, "...", n))
    ensures RefChars(Print(r)) <==> RefChars(r.from) && RefChars(r.to)
  {
    var s, n, sep := Print(r), |r.from|, if r.symmetric then 3 else 2;
    assert s[n] == '.' && s[n + 1] == '.' && (r.symmetric ==> s[n + 2] == '.');
    DotsAt(s, n);
    if RefChars(s) {
      forall i | 0 <= i < n ensures RefChar(r.from[i]) { assert s[i] == r.from[i]; }
      forall i | 0 <= i < |r.to| ensures RefChar(r.to[i]) { assert s[n + sep + i] == r.to[i]; }
    }
  }

  /** How long the ends may be: 200 each; 201 for a symmetric `to` that starts with a dot. */
  predicate Lengths(r: Range) {
    1 <= |r.from| <= 200 && (1 <= |r.to| <= 200
        || (r.symmetric && StartsWithDot(r.to) && |r.to| == 201 && |r.from| <= 199))
  }

  /** The ends a printed range may have. */
  predicate Printable(r: Range) {
    && RefChars(r.from) && RefChars(r.to) && SafeEnd(r.from) && SafeEnd(r.to) && Lengths(r)
    && !EndsWithDot(r.from) && (r.symmetric || !StartsWithDot(r.to))
  }

  lemma LongToSplits(r: Range)
    requires r.symmetric && StartsWithDot(r.to)
    ensures At(Print(r), "...", |r.from| + 1)
  {
    PrintChars(r);
    var s, n := Print(r), |r.from|;
    assert s[n + 3] == r.to[0] && s[n] == '.' && s[n + 1] == '.' && s[n + 2] == '.';
    DotsAt(s, n + 1);
  }

  lemma PrintShape(r: Range)
    requires RefChars(r.from) && RefChars(r.to) && Lengths(r)
    ensures RangeShape(Print(r))
  {
    PrintChars(r);
    if |r.to| <= 200 {
      assert SplitsAt(Print(r), |r.from|);
    } else {
      LongToSplits(r);
      DotsAt(Print(r), |r.from| + 1);
      assert SplitsAt(Print(r), |r.from| + 1);
    }
  }

  lemma PrintCut(r: Range)
    requires SafeEnd(r.from) && SafeEnd(r.to) && !EndsWithDot(r.from) && (r.symmetric || !StartsWithDot(r.to))
    ensures Cut(Print(r)) == r
  {
    PrintChars(r);
    var s, n := Print(r), |r.from|;
    var triple, double := IndexOf(s, "..."), IndexOf(s, "..");
    if triple >= 0 {
      DotsAt(s, triple);
      DotsInPrint(r, triple);
    }
    if double >= 0 { DotsInPrint(r, double); }
  }

  /** Printing and parsing gives the range back, exactly for the ranges whose ends are printable. */
  lemma PrintedParses(r: Range)
    requires Printable(r)
    ensures Parsed(Print(r)) == Ok(r)
  {
    PrintShape(r);
    PrintCut(r);
  }

  lemma DotBefore(r: Range)
    requires EndsWithDot(r.from)
    ensures Cut(Print(r)) != r
  {
    PrintChars(r);
    var s, n := Print(r), |r.from|;
    assert s[n - 1] == r.from[n - 1] && s[n] == '.' && s[n + 1] == '.';
    DotsAt(s, n - 1);
  }

  lemma DotAfter(r: Range)
    requires !r.symmetric && StartsWithDot(r.to)
    ensures Cut(Print(r)) != r
  {
    PrintChars(r);
    var s, n := Print(r), |r.from|;
    assert s[n + 2] == r.to[0];
    DotsAt(s, n);
  }

  lemma PrintLengths(r: Range)
    requires RangeShape(Print(r)) && SafeEnd(r.from) && SafeEnd(r.to) && !EndsWithDot(r.from)
          && (r.symmetric || !StartsWithDot(r.to))
    ensures Lengths(r)
  {
    PrintChars(r);
    var s, n := Print(r), |r.from|;
    if |s| > 200 {
      var i :| 1 <= i <= 200 && SplitsAt(s, i);
      DotsInPrint(r, i);
      DotsAt(s, i);
      if !r.symmetric { assert s[n + 2] == r.to[0]; }
      if r.symmetric && i == n + 1 && At(s, "...", i) { assert s[n + 3] == r.to[0]; }
      if r.symmetric && i == n + 2 && At(s, "...", i) {
        assert s[n + 3] == r.to[0] && s[n + 4] == r.to[1];
        NoDots(r.to, 0);
      }
    }
  }

  lemma ParseUndoesPrint(r: Range)
    ensures Parsed(Print(r)) == Ok(r) <==> Printable(r)
  {
    if Printable(r) {
      PrintedParses(r);
    } else if Parsed(Print(r)) == Ok(r) {
      PrintChars(r);
      if EndsWithDot(r.from) { DotBefore(r); }
      if !r.symmetric && StartsWithDot(r.to) { DotAfter(r); }
      PrintLengths(r);
      assert false;
    }
  }

  lemma CutPrints(s: string)
    ensures Print(Cut(s)) == s || (Cut(s) == Range(s, "HEAD", false) && !Contains(s, ".."))
  {
    var triple, double := IndexOf(s, "..."), IndexOf(s, "..");
    if triple >= 0 {
      assert s == s[..triple] + s[triple..triple + 3] + s[triple + 3..];
    } else if double >= 0 {
      assert s == s[..double] + s[double..double + 2] + s[double + 2..];
    }
  }

  /** Every accepted text gives two safe ends, and is their printing, or one revision meaning `X..HEAD`. */
  lemma AcceptedIsSafe(s: string)
    requires Parsed(s).Ok?
    ensures var r := Parsed(s).value;
            && SafeEnd(r.from) && SafeEnd(r.to) && RefChars(r.from) && RefChars(r.to)
            && (Print(r) == s || (r == Range(s, "HEAD", false) && !Contains(s, "..")))
  {
    CutPrints(s);
    PrintChars(Cut(s));
  }

  lemma HeadIsSafe()
    ensures SafeEnd("HEAD")
  {
    forall i | 0 <= i <= |"HEAD"| ensures !At("HEAD", "..", i) && !At("HEAD", "@{-", i) {
      DotsAt("HEAD", i);
      assert forall k :: 0 <= k < 4 ==> "HEAD"[k] != '@';
    }
  }

  lemma WholeCut(s: string)
    requires !Contains(s, "..")
    ensures Cut(s) == Range(s, "HEAD", false)
  {
    if IndexOf(s, "...") >= 0 { DotsAt(s, IndexOf(s, "...")); }
  }

  /** One revision is read as itself to HEAD exactly when it is safe and at most 200 long. */
  lemma OneRevision(s: string)
    ensures Parsed(s) == Ok(Range(s, "HEAD", false)) <==> RefChars(s) && SafeEnd(s) && |s| <= 200
  {
    if SafeEnd(s) {
      WholeCut(s);
      HeadIsSafe();
    }
  }

  /** A `from` that ends with a dot is not read back: its dot joins the separator. */
  lemma TrailingDotFails(r: Range)
    requires EndsWithDot(r.from)
    ensures Parsed(Print(r)) != Ok(r)
  {
    ParseUndoesPrint(r);
  }
}
