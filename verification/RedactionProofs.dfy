/** What the scrub leaves behind: which occurrences can meet an inserted mask, and which cannot. */
module RedactionProofs {
  import opened Wrappers
  import opened Characters
  import opened SecretForms
  import opened Redaction

  // ---------- an inserted mask makes no new occurrence of a form apart from it ----------

  /** `f` and a mask that starts at its `j`-th place, or before it, agree where they overlap. */
  predicate Fits(f: string, j: int) {
    forall i :: 0 <= i < |f| && 0 <= i - j < |MASK| ==> f[i] == MASK[i - j]
  }

  /** An occurrence of `f` could share a character with a mask. */
  predicate Overlaps(f: string) {
    exists j :: -|MASK| < j < |f| && Fits(f, j)
  }

  predicate Apart(f: string) { f != "" && !Overlaps(f) }

  /** No mask starts within `f`. */
  predicate NoMaskWithin(f: string) {
    forall j :: 0 <= j < |f| ==> !Fits(f, j)
  }

  /** `r` is `t` with some stretches of it masked. */
  ghost predicate Masked(t: string, r: string)
    decreases |t|
  {
    if t == "" then r == ""
    else
      || (r != "" && r[0] == t[0] && Masked(t[1..], r[1..]))
      || (MASK <= r && exists n :: 0 < n <= |t| && Masked(t[n..], r[|MASK|..]))
  }

  /** An occurrence in `a` + `c` + `b` lies on one side of `c` when it does not hold `c`. */
  lemma {:induction false} OneSide(a: string, c: char, b: string, f: string)
    requires f != "" && c !in f && Includes(a + [c] + b, f)
    ensures Includes(a, f) || Includes(b, f)
  {
    var t := a + [c] + b;
    if a == "" {
      assert t[1..] == b && t[0] == c;
    } else if f <= t {
      assert t[|a|] == c && forall i :: 0 <= i < |f| ==> f[i] == t[i] && f[i] != c;
      assert f <= a;
    } else {
      assert t[1..] == a[1..] + [c] + b;
      OneSide(a[1..], c, b, f);
    }
  }

  lemma {:induction false} SuffixIncludes(t: string, n: nat, f: string)
    requires n <= |t| && Includes(t[n..], f)
    ensures Includes(t, f)
  {
    if n > 0 {
      assert t[n..] == t[1..][n - 1..];
      SuffixIncludes(t[1..], n - 1, f);
    } else {
      assert t[0..] == t;
    }
  }

  lemma {:induction false} MaskTailHides(k: nat, r: string, f: string)
    requires k <= |MASK| && Apart(f) && Includes(MASK[k..] + r, f)
    ensures Includes(r, f)
    decreases |MASK| - k
  {
    var t := MASK[k..] + r;
    if k == |MASK| {
      assert t == r;
    } else if f <= t {
      assert forall i :: 0 <= i < |f| && i + k < |MASK| ==> f[i] == t[i] == MASK[i + k];
      assert Fits(f, 0 - k);
    } else {
      assert t[1..] == MASK[k + 1..] + r;
      MaskTailHides(k + 1, r, f);
    }
  }

  lemma MaskHides(r: string, f: string)
    requires Apart(f) && Includes(MASK + r, f)
    ensures Includes(r, f)
  {
    assert MASK[0..] == MASK;
    MaskTailHides(0, r, f);
  }

  lemma {:induction false} PrefixSurvives(t: string, r: string, f: string)
    requires Masked(t, r) && NoMaskWithin(f) && f <= r
    ensures f <= t
    decreases |t|
  {
    if f != "" {
      if MASK <= r {
        assert forall i :: 0 <= i < |f| && i < |MASK| ==> f[i] == r[i] == MASK[i];
        assert Fits(f, 0);
      }
      forall j | 0 <= j < |f[1..]| ensures !Fits(f[1..], j) {
        assert !Fits(f, j + 1);
      }
      PrefixSurvives(t[1..], r[1..], f[1..]);
    }
  }

  lemma {:induction false} NothingNew(t: string, r: string, f: string)
    requires Masked(t, r) && Apart(f) && Includes(r, f)
    ensures Includes(t, f)
    decreases |t|
  {
    if t != "" {
      if r != "" && r[0] == t[0] && Masked(t[1..], r[1..]) {
        if f <= r {
          PrefixSurvives(t, r, f);
        } else {
          NothingNew(t[1..], r[1..], f);
        }
      } else {
        var n :| 0 < n <= |t| && Masked(t[n..], r[|MASK|..]);
        assert r == MASK + r[|MASK|..];
        MaskHides(r[|MASK|..], f);
        NothingNew(t[n..], r[|MASK|..], f);
        SuffixIncludes(t, n, f);
      }
    }
  }

  lemma {:induction false} ReplaceFormMasks(t: string, form: string)
    requires form != ""
    ensures Masked(t, ReplaceForm(t, form))
    decreases |t|
  {
    var r := ReplaceForm(t, form);
    if t == "" {
    } else if form <= t {
      ReplaceFormMasks(t[|form|..], form);
      assert r[|MASK|..] == ReplaceForm(t[|form|..], form);
    } else {
      ReplaceFormMasks(t[1..], form);
      assert r[1..] == ReplaceForm(t[1..], form);
    }
  }

  lemma {:induction false} ReplaceTokensMasks(word: char -> bool, after: bool, t: string, alts: seq<string>)
    ensures Masked(t, ReplaceTokens(word, after, t, alts))
    decreases |t|
  {
    if t != "" {
      var r := ReplaceTokens(word, after, t, alts);
      match if after then None else TokenLength(word, t, alts)
      case Some(n) =>
        ReplaceTokensMasks(word, word(t[n - 1]), t[n..], alts);
        assert r[|MASK|..] == ReplaceTokens(word, word(t[n - 1]), t[n..], alts);
      case None =>
        ReplaceTokensMasks(word, word(t[0]), t[1..], alts);
        assert r[1..] == ReplaceTokens(word, word(t[0]), t[1..], alts);
    }
  }

  /** The form itself is gone. */
  lemma {:induction false} ReplacedFormGone(t: string, f: string)
    requires Apart(f)
    ensures !Includes(ReplaceForm(t, f), f)
    decreases |t|
  {
    var r := ReplaceForm(t, f);
    if t == "" {
    } else if f <= t {
      ReplacedFormGone(t[|f|..], f);
      if Includes(r, f) { MaskHides(ReplaceForm(t[|f|..], f), f); }
    } else {
      ReplacedFormGone(t[1..], f);
      assert r[1..] == ReplaceForm(t[1..], f);
      ReplaceFormMasks(t, f);
      if f <= r { PrefixSurvives(t, r, f); }
    }
  }

  lemma {:induction false} ReplaceFormsScrubs(t: string, forms: seq<string>, f: string)
    requires NonEmpty(forms) && forall i :: 0 <= i < |forms| ==> Apart(forms[i])
    requires Apart(f) && (f in forms || !Includes(t, f))
    ensures !Includes(ReplaceForms(t, forms), f)
  {
    if forms != [] {
      var front, last := forms[..|forms| - 1], forms[|forms| - 1];
      var mid := ReplaceForms(t, front);
      if f == last {
        ReplacedFormGone(mid, f);
      } else {
        assert f in forms ==> f in front;
        ReplaceFormsScrubs(t, front, f);
        ReplaceFormMasks(mid, last);
        if Includes(ReplaceForm(mid, last), f) { NothingNew(mid, ReplaceForm(mid, last), f); }
      }
    }
  }

  // ---------- which forms are apart from a mask ----------

  /** ASCII lies in a mask or is apart from it: the marks at the mask's ends are not ASCII. */
  lemma AsciiApart(f: string)
    requires f != "" && Ascii(f) && !Includes("redacted", f)
    ensures Apart(f)
  {
    forall j | -|MASK| < j < |f| ensures !Fits(f, j) {
      if j < 0 && 9 + j >= |f| {
        var t, k := "redacted", -j - 1;
        if Fits(f, j) {
          assert forall i :: 0 <= i < |f| ==> f[i] == MASK[i - j] == t[k + i];
          assert f <= t[k..];
          SuffixIncludes(t, k, f);
        }
      } else {
        var i := if j < 0 then 9 + j else j;
        assert f[i] != MASK[i - j];
      }
    }
  }

  lemma {:induction false} IncludedLetters(t: string, f: string)
    requires Letters(t) && Includes(t, f)
    ensures Letters(f)
  {
    if !(f <= t) { IncludedLetters(t[1..], f); }
  }

  lemma StrongFormsApart(s: string)
    requires Apart(s)
    ensures NonEmpty(Forms(s)) && s in Forms(s)
    ensures forall i :: 0 <= i < |Forms(s)| ==> Apart(Forms(s)[i])
  {
    FormsNonEmpty(s);
    forall i | 0 <= i < |Forms(s)| ensures Apart(Forms(s)[i]) {
      var f := Forms(s)[i];
      if f != s {
        FormsAscii(s, f);
        if Includes("redacted", f) {
          IncludedLetters("redacted", f);
          LetterFormIsSecret(s, f);
        }
        AsciiApart(f);
      }
    }
  }

  // ---------- tokens ----------

  /** `f` stands at the start of `t` with no letter or digit after it. */
  predicate Stands(word: char -> bool, t: string, f: string) {
    f <= t && (|f| == |t| || !word(t[|f|]))
  }

  lemma {:induction false} StandsFound(word: char -> bool, t: string, alts: seq<string>, f: string)
    requires f in alts && f != "" && Stands(word, t, f)
    ensures TokenLength(word, t, alts).Some?
  {
    if alts[0] != f { StandsFound(word, t, alts[1..], f); }
  }

  lemma {:induction false} FoundStands(word: char -> bool, t: string, alts: seq<string>) returns (f: string)
    requires TokenLength(word, t, alts).Some?
    ensures f in alts && f != "" && Stands(word, t, f) && |f| == TokenLength(word, t, alts).value
  {
    if alts[0] != "" && Stands(word, t, alts[0]) {
      f := alts[0];
    } else {
      f := FoundStands(word, t, alts[1..]);
    }
  }

  /** Too short to hold a mask, or ASCII. */
  predicate Thin(u: string) { |u| < 6 || Ascii(u) }

  /** A form of a short secret: short itself, or an escaped spelling. */
  predicate ShortForm(f: string) {
    f != "" && (|f| < 6 || (Ascii(f) && !Letters(f)))
  }

  predicate ShortForms(alts: seq<string>) {
    forall f <- alts :: ShortForm(f)
  }

  /** Both ends of a form are letters or digits, or neither is. */
  predicate Sided(word: char -> bool, lettered: bool, f: string) {
    f != "" && word(f[0]) == lettered && word(f[|f| - 1]) == lettered
  }

  predicate AllSided(word: char -> bool, lettered: bool, alts: seq<string>) {
    forall f <- alts :: Sided(word, lettered, f)
  }

  /** Stepping over letters reaches no token that was not there without them. */
  lemma {:induction false} OverLetters(word: char -> bool, a: string, r: string, us: seq<string>)
    requires WordClass(word) && Letters(a) && HasToken(word, true, a + r, us)
    ensures HasToken(word, true, r, us)
  {
    if a == "" {
      assert a + r == r;
    } else {
      assert (a + r)[1..] == a[1..] + r;
      assert AsciiAlnum(a[0]);
      OverLetters(word, a[1..], r, us);
    }
  }

  /** A form of a short secret stands nowhere in a mask. */
  lemma MaskHoldsNone(word: char -> bool, r: string, us: seq<string>)
    requires WordClass(word) && ShortForms(us)
    ensures TokenLength(word, MASK + r, us).None? && TokenLength(word, (MASK + r)[1..], us).None?
  {
    var t, m := MASK + r, "redacted";
    assert forall i :: 0 <= i < 8 ==> t[i + 1] == t[1..][i] == m[i] && AsciiAlnum(m[i]);
    assert t[0] == '«' && t[1..][8] == '»';
    if TokenLength(word, t, us).Some? {
      var f := FoundStands(word, t, us);
    }
    if TokenLength(word, t[1..], us).Some? {
      var f := FoundStands(word, t[1..], us);
    }
  }

  lemma MaskHidesTokens(word: char -> bool, after: bool, r: string, us: seq<string>)
    requires WordClass(word) && ShortForms(us) && HasToken(word, after, MASK + r, us)
    ensures HasToken(word, false, r, us)
  {
    var t := MASK + r;
    MaskHoldsNone(word, r, us);
    assert t[1..] == "redacted" + ("»" + r);
    assert HasToken(word, false, t[1..], us);
    assert t[1..][1..] == "edacted" + ("»" + r);
    assert AsciiAlnum(t[1..][0]);
    OverLetters(word, "edacted", "»" + r, us);
    assert ("»" + r)[1..] == r;
  }

  lemma {:induction false} SuffixToken(word: char -> bool, after: bool, t: string, n: nat, us: seq<string>)
    requires 0 < n <= |t| && HasToken(word, word(t[n - 1]), t[n..], us)
    ensures HasToken(word, after, t, us)
    decreases n
  {
    if n > 1 {
      assert t[n..] == t[1..][n - 1..];
      SuffixToken(word, word(t[0]), t[1..], n - 1, us);
    }
  }

  /** A form does not stand where a mask starts. */
  lemma MaskStartsNone(word: char -> bool, r: string, u: string)
    requires WordClass(word) && Thin(u) && u != "" && MASK <= r
    ensures !Stands(word, r, u)
  {
    var m := "redacted";
    if u <= r {
      assert u[0] == MASK[0] == '«';
      assert |u| < 6 && r[|u|] == MASK[|u|] == m[|u| - 1];
      assert AsciiAlnum(m[|u| - 1]);
    }
  }

  /**
   * A token at the start of the replaced text stood there before. `u` is what is left of it, and
   * `after` holds once its first letter is passed.
   */
  lemma {:induction false} TokenSurvives(
    word: char -> bool, lettered: bool, after: bool, t: string, ws: seq<string>, u: string)
    requires WordClass(word) && AllSided(word, lettered, ws) && Thin(u)
    requires lettered ==> if u == "" then after else word(u[|u| - 1])
    requires Stands(word, ReplaceTokens(word, after, t, ws), u)
    ensures Stands(word, t, u)
    decreases |t|
  {
    var r := ReplaceTokens(word, after, t, ws);
    if t != "" {
      if !after && TokenLength(word, t, ws).Some? {
        if u == "" {
          var g := FoundStands(word, t, ws);
          assert Sided(word, lettered, g);
        } else {
          MaskStartsNone(word, r, u);
        }
      } else if u != "" {
        assert r[1..] == ReplaceTokens(word, word(t[0]), t[1..], ws);
        TokenSurvives(word, lettered, word(t[0]), t[1..], ws, u[1..]);
      }
    }
  }

  /** Right after a letter or digit that ends a masked form nothing can start a token, whatever precedes. */
  lemma AfterToken(word: char -> bool, t: string, ws: seq<string>, us: seq<string>)
    requires AllSided(word, true, us) && (t == "" || !word(t[0]))
    requires HasToken(word, false, ReplaceTokens(word, true, t, ws), us)
    ensures HasToken(word, true, ReplaceTokens(word, true, t, ws), us)
  {
    var r := ReplaceTokens(word, true, t, ws);
    assert r == "" || r[0] == t[0];
    if TokenLength(word, r, us).Some? {
      var f := FoundStands(word, r, us);
    }
  }

  /** Masking the tokens `ws` leaves none of them, and makes no token of another secret with such ends. */
  lemma {:induction false} NoNewToken(
    word: char -> bool, lettered: bool, after: bool, t: string, ws: seq<string>, us: seq<string>)
    requires WordClass(word) && AllSided(word, lettered, ws) && AllSided(word, lettered, us) && ShortForms(us)
    requires HasToken(word, after, ReplaceTokens(word, after, t, ws), us)
    ensures HasToken(word, after, t, us) && us != ws
    decreases |t|
  {
    var r := ReplaceTokens(word, after, t, ws);
    if !after && TokenLength(word, t, ws).Some? {
      var g := FoundStands(word, t, ws);
      var n := |g|;
      assert Sided(word, lettered, g) && t[n - 1] == g[n - 1];
      MaskHidesTokens(word, after, ReplaceTokens(word, lettered, t[n..], ws), us);
      if lettered { AfterToken(word, t[n..], ws, us); }
      NoNewToken(word, lettered, lettered, t[n..], ws, us);
      SuffixToken(word, after, t, n, us);
    } else if !after && TokenLength(word, r, us).Some? {
      var f := FoundStands(word, r, us);
      assert Sided(word, lettered, f) && ShortForm(f);
      TokenSurvives(word, lettered, after, t, ws, f);
      StandsFound(word, t, us, f);
    } else {
      assert r[1..] == ReplaceTokens(word, word(t[0]), t[1..], ws);
      NoNewToken(word, lettered, word(t[0]), t[1..], ws, us);
    }
  }

  // ---------- tokens that masking a form can bare ----------

  /** Read from its start, `f` + `g` has `g` first at its end. */
  predicate Meets(f: string, g: string) {
    forall k :: 0 <= k < |f| ==> !(g <= (f + g)[k..])
  }

  /** A token at the start of the replaced text stood there before, or had the replaced form right after it. */
  lemma {:induction false} TokenSurvivesForm(word: char -> bool, t: string, g: string, u: string)
    requires WordClass(word) && g != "" && Thin(u) && Stands(word, ReplaceForm(t, g), u)
    ensures Stands(word, t, u) || (u + g <= t && Meets(u, g))
    decreases |t|
  {
    var r := ReplaceForm(t, g);
    if u == "" {
      assert u + g == g;
    } else if g <= t {
      MaskStartsNone(word, r, u);
    } else {
      assert r[1..] == ReplaceForm(t[1..], g);
      TokenSurvivesForm(word, t[1..], g, u[1..]);
      if u[1..] + g <= t[1..] && Meets(u[1..], g) {
        assert u + g == [t[0]] + (u[1..] + g);
        forall k | 0 <= k < |u| ensures !(g <= (u + g)[k..]) {
          if k > 0 { assert (u + g)[k..] == (u[1..] + g)[k - 1..]; }
        }
      }
    }
  }

  /** A form of `us` right after `g` in `t`, or right before the first `g`. */
  predicate Touches(t: string, g: string, us: seq<string>) {
    exists f <- us :: Includes(t, g + f) || (Includes(t, f + g) && Meets(f, g))
  }

  lemma TouchesSuffix(t: string, n: nat, g: string, us: seq<string>)
    requires n <= |t| && Touches(t[n..], g, us)
    ensures Touches(t, g, us)
  {
    var f :| f in us && (Includes(t[n..], g + f) || (Includes(t[n..], f + g) && Meets(f, g)));
    if Includes(t[n..], g + f) { SuffixIncludes(t, n, g + f); } else { SuffixIncludes(t, n, f + g); }
  }

  /** A token in the replaced text was there before, or touched the replaced form. */
  lemma {:induction false} FormBares(word: char -> bool, after: bool, t: string, g: string, us: seq<string>)
    requires WordClass(word) && ShortForms(us) && g != "" && HasToken(word, after, ReplaceForm(t, g), us)
    ensures HasToken(word, after, t, us) || Touches(t, g, us)
    decreases |t|
  {
    var r := ReplaceForm(t, g);
    if g <= t {
      var n := |g|;
      MaskHidesTokens(word, after, ReplaceForm(t[n..], g), us);
      FormBares(word, false, t[n..], g, us);
      if HasToken(word, false, t[n..], us) {
        if TokenLength(word, t[n..], us).Some? {
          var f := FoundStands(word, t[n..], us);
          assert g + f <= t;
        } else {
          SuffixToken(word, after, t, n + 1, us);
        }
      } else {
        TouchesSuffix(t, n, g, us);
      }
    } else if !after && TokenLength(word, r, us).Some? {
      var f := FoundStands(word, r, us);
      assert ShortForm(f);
      TokenSurvivesForm(word, t, g, f);
      if Stands(word, t, f) { StandsFound(word, t, us, f); }
    } else {
      assert r[1..] == ReplaceForm(t[1..], g);
      FormBares(word, word(t[0]), t[1..], g, us);
      if Touches(t[1..], g, us) { TouchesSuffix(t, 1, g, us); }
    }
  }

  // ---------- one pass ----------

  /** A strong secret in any of its forms. */
  predicate HoldsForm(t: string, s: string) {
    exists f <- Forms(s) :: Includes(t, f)
  }

  lemma {:induction false} InsertHolds(x: string, fs: seq<string>, f: string)
    ensures f in InsertByLength(x, fs) <==> f == x || f in fs
  {
    if fs != [] { InsertHolds(x, fs[1..], f); }
  }

  lemma {:induction false} AlternativesHold(forms: seq<string>, f: string)
    ensures f in Alternatives(forms) <==> f in forms
  {
    if forms != [] {
      AlternativesHold(forms[1..], f);
      InsertHolds(forms[0], Alternatives(forms[1..]), f);
    }
  }

  /** What the alternatives of a short secret are. */
  lemma WeakForms(s: string)
    requires s != "" && IsWeak(s)
    ensures ShortForms(Alternatives(Forms(s))) && s in Alternatives(Forms(s))
    ensures forall f :: f in Alternatives(Forms(s)) <==> f in Forms(s)
  {
    FormsNonEmpty(s);
    WeakIsShort(s);
    forall f ensures f in Alternatives(Forms(s)) <==> f in Forms(s) { AlternativesHold(Forms(s), f); }
    forall f | f in Forms(s) ensures ShortForm(f) {
      if f != s {
        FormsAscii(s, f);
        if Letters(f) { LetterFormIsSecret(s, f); }
      }
    }
  }

  /** A secret one pass removes: not blank; if short, of one kind at all its ends; if strong, apart from a mask. */
  predicate Removable(word: char -> bool, lettered: bool, s: string) {
    !Blank(s) && if IsWeak(s) then AllSided(word, lettered, Forms(s)) else !Overlaps(s)
  }

  predicate AllRemovable(word: char -> bool, lettered: bool, secrets: seq<string>) {
    forall i :: 0 <= i < |secrets| ==> Removable(word, lettered, secrets[i])
  }

  lemma RemovableForms(word: char -> bool, lettered: bool, s: string)
    requires Removable(word, lettered, s)
    ensures NonEmpty(Forms(s)) && s in Forms(s)
    ensures IsWeak(s) ==>
              ShortForms(Alternatives(Forms(s))) && AllSided(word, lettered, Alternatives(Forms(s)))
    ensures !IsWeak(s) ==> forall i :: 0 <= i < |Forms(s)| ==> Apart(Forms(s)[i])
  {
    FormsNonEmpty(s);
    if IsWeak(s) { WeakForms(s); } else { StrongFormsApart(s); }
  }

  /** A pass for `secret` keeps a form apart from the mask away. */
  lemma FormStaysAway(word: char -> bool, lettered: bool, t: string, secret: string, f: string)
    requires Removable(word, lettered, secret) && Apart(f) && !Includes(t, f)
    ensures !Includes(RedactOne(word, t, secret), f)
  {
    if IsWeak(secret) {
      var alts := Alternatives(Forms(secret));
      ReplaceTokensMasks(word, false, t, alts);
      if Includes(ReplaceTokens(word, false, t, alts), f) { NothingNew(t, ReplaceTokens(word, false, t, alts), f); }
    } else {
      RemovableForms(word, lettered, secret);
      ReplaceFormsScrubs(t, Forms(secret), f);
    }
  }

  /** A pass removes its own secret. */
  lemma PassRemoves(word: char -> bool, lettered: bool, t: string, secret: string)
    requires WordClass(word) && Removable(word, lettered, secret)
    ensures !ContainsSecret(word, RedactOne(word, t, secret), secret)
  {
    RemovableForms(word, lettered, secret);
    if IsWeak(secret) {
      var alts := Alternatives(Forms(secret));
      if HasToken(word, false, ReplaceTokens(word, false, t, alts), alts) {
        NoNewToken(word, lettered, false, t, alts, alts);
      }
    } else {
      forall f | f in Forms(secret) ensures !Includes(RedactOne(word, t, secret), f) {
        var i :| 0 <= i < |Forms(secret)| && Forms(secret)[i] == f;
        ReplaceFormsScrubs(t, Forms(secret), f);
      }
    }
  }

  /** A pass for `last` keeps an earlier secret away, unless `last` is strong and the other weak. */
  lemma PassKeepsAway(word: char -> bool, lettered: bool, t: string, last: string, secret: string)
    requires WordClass(word) && Removable(word, lettered, last) && Removable(word, lettered, secret)
    requires IsWeak(secret) ==> IsWeak(last)
    requires !ContainsSecret(word, t, secret)
    ensures !ContainsSecret(word, RedactOne(word, t, last), secret)
  {
    RemovableForms(word, lettered, secret);
    if IsWeak(secret) {
      RemovableForms(word, lettered, last);
      var ws, us := Alternatives(Forms(last)), Alternatives(Forms(secret));
      if HasToken(word, false, ReplaceTokens(word, false, t, ws), us) {
        NoNewToken(word, lettered, false, t, ws, us);
      }
    } else {
      forall f | f in Forms(secret) ensures !Includes(RedactOne(word, t, last), f) {
        var i :| 0 <= i < |Forms(secret)| && Forms(secret)[i] == f;
        FormStaysAway(word, lettered, t, last, f);
      }
    }
  }

  lemma {:induction false} NoTokenNoChange(word: char -> bool, after: bool, t: string, alts: seq<string>)
    requires !HasToken(word, after, t, alts)
    ensures ReplaceTokens(word, after, t, alts) == t
    decreases |t|
  {
    if t != "" { NoTokenNoChange(word, word(t[0]), t[1..], alts); }
  }

  lemma {:induction false} NoFormNoChange(t: string, f: string)
    requires f != "" && !Includes(t, f)
    ensures ReplaceForm(t, f) == t
    decreases |t|
  {
    if t != "" { NoFormNoChange(t[1..], f); }
  }

  lemma {:induction false} NoFormsNoChange(t: string, forms: seq<string>)
    requires NonEmpty(forms) && forall i :: 0 <= i < |forms| ==> !Includes(t, forms[i])
    ensures ReplaceForms(t, forms) == t
  {
    if forms != [] {
      NoFormsNoChange(t, forms[..|forms| - 1]);
      NoFormNoChange(t, forms[|forms| - 1]);
    }
  }

  lemma PassChangesNothing(word: char -> bool, t: string, secret: string)
    requires Blank(secret) || !ContainsSecret(word, t, secret)
    ensures RedactOne(word, t, secret) == t
  {
    if !Blank(secret) {
      if IsWeak(secret) {
        NoTokenNoChange(word, false, t, Alternatives(Forms(secret)));
      } else {
        FormsNonEmpty(secret);
        forall i | 0 <= i < |Forms(secret)| ensures !Includes(t, Forms(secret)[i]) {
          assert Forms(secret)[i] in Forms(secret);
        }
        NoFormsNoChange(t, Forms(secret));
      }
    }
  }

  // ---------- the whole scrub ----------

  /** A strong secret among the first `n` has a form in `x`. */
  predicate Guarded(secrets: seq<string>, n: nat, x: string)
    requires n <= |secrets|
  {
    exists k :: 0 <= k < n && !IsWeak(secrets[k]) && HoldsForm(x, secrets[k])
  }

  /** Wherever masking the `j`-th secret could bare the `i`-th, an earlier strong secret is masked first. */
  predicate KeptApart(secrets: seq<string>, i: nat, j: nat)
    requires i < |secrets| && j < |secrets|
  {
    forall f <- Forms(secrets[i]), g <- Forms(secrets[j]) ::
      Guarded(secrets, j, g + f) && (Meets(f, g) ==> Guarded(secrets, j, f + g))
  }

  /** Each weak secret is listed again after a strong one that could bare it: so when all strong ones come first. */
  predicate Ordered(secrets: seq<string>) {
    forall i, j :: 0 <= i < j < |secrets| && IsWeak(secrets[i]) && !IsWeak(secrets[j]) ==>
        secrets[i] in secrets[j + 1..] || KeptApart(secrets, i, j)
  }

  /** Every strong secret stands before every weak one. */
  predicate StrongFirst(secrets: seq<string>) {
    forall i, j :: 0 <= i < j < |secrets| && IsWeak(secrets[i]) ==> IsWeak(secrets[j])
  }

  lemma StrongFirstIsOrdered(secrets: seq<string>)
    requires StrongFirst(secrets)
    ensures Ordered(secrets)
  {
  }

  /** A strong secret that a mask gives away. */
  predicate InMask(s: string) {
    !IsWeak(s) && Includes(MASK, s)
  }

  /** What the order leaves to be said of a secret: it is removable, or strong and given away by a mask. */
  predicate Maskable(word: char -> bool, lettered: bool, s: string) {
    !Blank(s) && if IsWeak(s) then AllSided(word, lettered, Forms(s)) else Overlaps(s) ==> InMask(s)
  }

  lemma {:induction false} IncludesTransitive(t: string, m: string, f: string)
    requires Includes(t, m) && Includes(m, f)
    ensures Includes(t, f)
    decreases |t| + |m|
  {
    if m <= t {
      if f <= m {
      } else {
        IncludesTransitive(t[1..], m[1..], f);
      }
    } else {
      IncludesTransitive(t[1..], m, f);
    }
  }

  /** No strong secret among the first `n` has a form in `t`. */
  ghost predicate StrongAbsent(t: string, secrets: seq<string>, n: nat)
    requires n <= |secrets|
  {
    forall k :: 0 <= k < n && !IsWeak(secrets[k]) ==> !HoldsForm(t, secrets[k])
  }

  lemma UnguardedAbsent(t: string, secrets: seq<string>, n: nat, x: string)
    requires n <= |secrets| && StrongAbsent(t, secrets, n) && Guarded(secrets, n, x)
    ensures !Includes(t, x)
  {
    if Includes(t, x) {
      var k :| 0 <= k < n && !IsWeak(secrets[k]) && HoldsForm(x, secrets[k]);
      assert !HoldsForm(t, secrets[k]);
      var f :| f in Forms(secrets[k]) && Includes(x, f);
      IncludesTransitive(t, x, f);
    }
  }

  lemma StrongStaysAbsent(word: char -> bool, lettered: bool, t: string, secrets: seq<string>, n: nat, g: string)
    requires AllRemovable(word, lettered, secrets) && n <= |secrets| && StrongAbsent(t, secrets, n) && g != ""
    ensures StrongAbsent(ReplaceForm(t, g), secrets, n)
  {
    var r := ReplaceForm(t, g);
    ReplaceFormMasks(t, g);
    forall k | 0 <= k < n && !IsWeak(secrets[k]) ensures !HoldsForm(r, secrets[k]) {
      RemovableForms(word, lettered, secrets[k]);
      forall f | f in Forms(secrets[k]) ensures !Includes(r, f) {
        assert !HoldsForm(t, secrets[k]);
        if Includes(r, f) { NothingNew(t, r, f); }
      }
    }
  }

  /** The forms of a strong secret, masked one after the other, bare no token that is kept apart from them. */
  lemma {:induction false} FormsBareNone(
    word: char -> bool, lettered: bool, t: string, secrets: seq<string>, i: nat, n: nat, forms: seq<string>)
    requires WordClass(word) && AllRemovable(word, lettered, secrets) && i < |secrets| && n < |secrets|
    requires IsWeak(secrets[i]) && KeptApart(secrets, i, n) && forall g <- forms :: g in Forms(secrets[n])
    requires NonEmpty(forms) && StrongAbsent(t, secrets, n) && !ContainsSecret(word, t, secrets[i])
    ensures StrongAbsent(ReplaceForms(t, forms), secrets, n)
    ensures !ContainsSecret(word, ReplaceForms(t, forms), secrets[i])
  {
    if forms != [] {
      var front, g, us := forms[..|forms| - 1], forms[|forms| - 1], Alternatives(Forms(secrets[i]));
      var mid := ReplaceForms(t, front);
      FormsBareNone(word, lettered, t, secrets, i, n, front);
      StrongStaysAbsent(word, lettered, mid, secrets, n, g);
      WeakForms(secrets[i]);
      if HasToken(word, false, ReplaceForm(mid, g), us) {
        FormBares(word, false, mid, g, us);
        var f :| f in us && (Includes(mid, g + f) || (Includes(mid, f + g) && Meets(f, g)));
        if Includes(mid, g + f) {
          UnguardedAbsent(mid, secrets, n, g + f);
        } else {
          UnguardedAbsent(mid, secrets, n, f + g);
        }
      }
    }
  }

  /** The `i`-th secret is kept apart from all strong ones after it among the first `n`, if it is weak. */
  ghost predicate Settled(secrets: seq<string>, i: nat, n: nat)
    requires i < n <= |secrets|
  {
    IsWeak(secrets[i]) ==> forall j :: i < j < n && !IsWeak(secrets[j]) ==> KeptApart(secrets, i, j)
  }

  /** The settled ones among the first `n` secrets are gone. */
  ghost predicate AbsentSettled(word: char -> bool, t: string, secrets: seq<string>, n: nat)
    requires n <= |secrets|
  {
    forall i :: 0 <= i < n && Settled(secrets, i, n) ==> !ContainsSecret(word, t, secrets[i])
  }

  ghost predicate Absent(word: char -> bool, t: string, secrets: seq<string>) {
    forall i :: 0 <= i < |secrets| ==> !ContainsSecret(word, t, secrets[i])
  }

  /** A settled secret stays away in the next pass. */
  lemma SettledStaysAway(word: char -> bool, lettered: bool, t: string, secrets: seq<string>, n: nat, i: nat)
    requires WordClass(word) && n < |secrets| && AllRemovable(word, lettered, secrets)
    requires AbsentSettled(word, t, secrets, n) && i < n && Settled(secrets, i, n + 1)
    ensures !ContainsSecret(word, RedactOne(word, t, secrets[n]), secrets[i])
  {
    assert Settled(secrets, i, n);
    if IsWeak(secrets[i]) && !IsWeak(secrets[n]) {
      forall k | 0 <= k < n && !IsWeak(secrets[k]) ensures !HoldsForm(t, secrets[k]) {
        assert Settled(secrets, k, n);
      }
      RemovableForms(word, lettered, secrets[n]);
      FormsBareNone(word, lettered, t, secrets, i, n, Forms(secrets[n]));
    } else {
      PassKeepsAway(word, lettered, t, secrets[n], secrets[i]);
    }
  }

  lemma {:induction false} SettledAreGone(
    word: char -> bool, lettered: bool, text: string, secrets: seq<string>, n: nat)
    requires WordClass(word) && n <= |secrets| && AllRemovable(word, lettered, secrets)
    ensures AbsentSettled(word, RedactText(word, text, secrets[..n]), secrets, n)
  {
    if n > 0 {
      SettledAreGone(word, lettered, text, secrets, n - 1);
      assert secrets[..n][..n - 1] == secrets[..n - 1];
      var t := RedactText(word, text, secrets[..n - 1]);
      forall i | 0 <= i < n && Settled(secrets, i, n)
        ensures !ContainsSecret(word, RedactOne(word, t, secrets[n - 1]), secrets[i])
      {
        if i < n - 1 {
          SettledStaysAway(word, lettered, t, secrets, n - 1, i);
        } else {
          PassRemoves(word, lettered, t, secrets[n - 1]);
        }
      }
    }
  }

  /** The last place a secret stands. */
  lemma {:induction false} LastPlace(secrets: seq<string>, s: string) returns (i: nat)
    requires s in secrets
    ensures i < |secrets| && secrets[i] == s && s !in secrets[i + 1..]
  {
    var n := |secrets| - 1;
    if secrets[n] == s {
      i := n;
    } else {
      i := LastPlace(secrets[..n], s);
      assert secrets[i + 1..] == secrets[..n][i + 1..] + [secrets[n]];
    }
  }

  /** The scrub leaves no secret behind. */
  lemma ScrubLeavesNothing(word: char -> bool, lettered: bool, text: string, secrets: seq<string>)
    requires WordClass(word) && Ordered(secrets) && AllRemovable(word, lettered, secrets)
    ensures Absent(word, RedactText(word, text, secrets), secrets)
  {
    var n := |secrets|;
    SettledAreGone(word, lettered, text, secrets, n);
    assert secrets[..n] == secrets;
    forall k | 0 <= k < n ensures !ContainsSecret(word, RedactText(word, text, secrets), secrets[k]) {
      var i := LastPlace(secrets, secrets[k]);
      forall j | i < j < n && IsWeak(secrets[i]) && !IsWeak(secrets[j]) ensures KeptApart(secrets, i, j) {
        assert secrets[j + 1..] == secrets[i + 1..][j - i..];
      }
      assert Settled(secrets, i, n);
    }
  }

  // ---------- when a secret is part of the mask ----------

  /** A replacement changes nothing, or leaves a mask. */
  lemma {:induction false} UnchangedOrMasked(t: string, r: string)
    requires Masked(t, r)
    ensures r == t || Includes(r, MASK)
    decreases |t|
  {
    if t != "" && r != "" && r[0] == t[0] && Masked(t[1..], r[1..]) { UnchangedOrMasked(t[1..], r[1..]); }
  }

  lemma {:induction false} FormsKeepMask(t: string, forms: seq<string>, s: string)
    requires NonEmpty(forms) && Includes(MASK, s) && Includes(t, s)
    ensures Includes(ReplaceForms(t, forms), s)
  {
    if forms != [] {
      var mid := ReplaceForms(t, forms[..|forms| - 1]);
      FormsKeepMask(t, forms[..|forms| - 1], s);
      ReplaceFormMasks(mid, forms[|forms| - 1]);
      UnchangedOrMasked(mid, ReplaceForms(t, forms));
      if ReplaceForms(t, forms) != mid { IncludesTransitive(ReplaceForms(t, forms), MASK, s); }
    }
  }

  lemma {:induction false} PartOfMaskStays(word: char -> bool, text: string, secrets: seq<string>, s: string)
    requires Includes(MASK, s) && Includes(text, s)
    ensures Includes(RedactText(word, text, secrets), s)
  {
    if secrets != [] {
      var t, last := RedactText(word, text, secrets[..|secrets| - 1]), secrets[|secrets| - 1];
      PartOfMaskStays(word, text, secrets[..|secrets| - 1], s);
      if Blank(last) {
      } else if IsWeak(last) {
        var alts := Alternatives(Forms(last));
        var r := ReplaceTokens(word, false, t, alts);
        ReplaceTokensMasks(word, false, t, alts);
        UnchangedOrMasked(t, r);
        if r != t { IncludesTransitive(r, MASK, s); }
      } else {
        FormsNonEmpty(last);
        FormsKeepMask(t, Forms(last), s);
      }
    }
  }

  /** Whatever else is registered, a strong secret that is part of the mask survives its own scrub. */
  lemma PartOfMaskFails(word: char -> bool, secrets: seq<string>, s: string)
    requires s in secrets && InMask(s)
    ensures !Proven(word, RedactText(word, s, secrets), secrets)
  {
    assert s != "";
    FormsNonEmpty(s);
    assert s <= s;
    PartOfMaskStays(word, s, secrets, s);
    var i :| 0 <= i < |secrets| && secrets[i] == s;
  }

  /** The scrub passes its own proof on every text. */
  ghost predicate AlwaysProven(word: char -> bool, secrets: seq<string>) {
    forall text :: Proven(word, RedactText(word, text, secrets), secrets)
  }

  /** For maskable secrets in order, it does so exactly when no strong secret is part of the mask. */
  lemma ScrubSatisfiesProof(word: char -> bool, lettered: bool, secrets: seq<string>)
    requires WordClass(word) && Ordered(secrets)
    requires forall i :: 0 <= i < |secrets| ==> Maskable(word, lettered, secrets[i])
    ensures AlwaysProven(word, secrets) <==> forall i :: 0 <= i < |secrets| ==> !InMask(secrets[i])
  {
    if forall i :: 0 <= i < |secrets| ==> !InMask(secrets[i]) {
      forall text ensures Proven(word, RedactText(word, text, secrets), secrets) {
        ScrubLeavesNothing(word, lettered, text, secrets);
      }
    } else {
      var i :| 0 <= i < |secrets| && InMask(secrets[i]);
      PartOfMaskFails(word, secrets, secrets[i]);
    }
  }

  /** Text that holds no secret passes the scrub unchanged. */
  lemma {:induction false} CleanTextUnchanged(word: char -> bool, text: string, secrets: seq<string>)
    requires forall i :: 0 <= i < |secrets| ==> Blank(secrets[i]) || !ContainsSecret(word, text, secrets[i])
    ensures RedactText(word, text, secrets) == text
  {
    if secrets != [] {
      CleanTextUnchanged(word, text, secrets[..|secrets| - 1]);
      PassChangesNothing(word, text, secrets[|secrets| - 1]);
    }
  }
}
