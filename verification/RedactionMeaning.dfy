/** What the check finds and what a pass masks, place by place in the text. */
module RedactionMeaning {
  import opened Wrappers
  import opened Characters
  import opened CharacterLaws
  import opened SecretForms
  import opened Redaction
  import opened RedactionProofs
  import opened Spellings

  // ---------- what is found ----------

  /** `f` stands in `t` from the `i`-th place on. */
  predicate OccursAt(t: string, f: string, i: nat) { i + |f| <= |t| && t[i..i + |f|] == f }

  /** So it does, with no letter or digit on either side. */
  predicate AloneAt(word: char -> bool, t: string, f: string, i: nat) {
    && OccursAt(t, f, i)
    && (i > 0 ==> !word(t[i - 1]))
    && (i + |f| < |t| ==> !word(t[i + |f|]))
  }

  lemma OccursLater(t: string, f: string, i: nat)
    requires t != ""
    ensures OccursAt(t, f, i + 1) <==> OccursAt(t[1..], f, i)
  {
    if i + 1 + |f| <= |t| { assert t[1..][i..i + |f|] == t[i + 1..i + 1 + |f|]; }
  }

  /** It stands somewhere. */
  ghost predicate Occurs(t: string, f: string) { exists i: nat :: OccursAt(t, f, i) }

  lemma OccursNext(t: string, f: string)
    requires t != ""
    ensures Occurs(t, f) <==> f <= t || Occurs(t[1..], f)
  {
    if f <= t { assert OccursAt(t, f, 0); }
    if Occurs(t[1..], f) {
      var i: nat :| OccursAt(t[1..], f, i);
      OccursLater(t, f, i);
    }
    if Occurs(t, f) {
      var i: nat :| OccursAt(t, f, i);
      if i > 0 { OccursLater(t, f, i - 1); }
    }
  }

  lemma {:induction false} IncludedExactly(t: string, f: string)
    ensures Includes(t, f) <==> Occurs(t, f)
  {
    if t != "" {
      OccursNext(t, f);
      IncludedExactly(t[1..], f);
    } else if f == "" {
      assert OccursAt(t, f, 0);
    }
  }

  /** A token of `alts` in `t`, before which a letter or digit may stand. */
  ghost predicate TokenIn(word: char -> bool, after: bool, t: string, alts: seq<string>) {
    exists f, i: nat :: f in alts && f != "" && AloneAt(word, t, f, i) && (i == 0 ==> !after)
  }

  lemma StartsExactly(word: char -> bool, t: string, alts: seq<string>)
    ensures TokenLength(word, t, alts).Some? <==> exists f :: f in alts && f != "" && AloneAt(word, t, f, 0)
  {
    if TokenLength(word, t, alts).Some? {
      var f := FoundStands(word, t, alts);
      assert AloneAt(word, t, f, 0);
    }
    if f :| f in alts && f != "" && AloneAt(word, t, f, 0) { StandsFound(word, t, alts, f); }
  }

  lemma AloneLater(word: char -> bool, t: string, f: string, i: nat)
    requires t != ""
    ensures AloneAt(word, t, f, i + 1) <==> AloneAt(word, t[1..], f, i) && (i == 0 ==> !word(t[0]))
  {
    if i + 1 + |f| <= |t| { assert t[1..][i..i + |f|] == t[i + 1..i + 1 + |f|]; }
  }

  lemma TokenLater(word: char -> bool, after: bool, t: string, alts: seq<string>)
    requires t != "" && TokenIn(word, word(t[0]), t[1..], alts)
    ensures TokenIn(word, after, t, alts)
  {
    var f, i: nat :| f in alts && f != "" && AloneAt(word, t[1..], f, i) && (i == 0 ==> !word(t[0]));
    AloneLater(word, t, f, i);
  }

  lemma TokenInNext(word: char -> bool, after: bool, t: string, alts: seq<string>)
    requires t != ""
    ensures TokenIn(word, after, t, alts)
       <==> (!after && TokenLength(word, t, alts).Some?) || TokenIn(word, word(t[0]), t[1..], alts)
  {
    StartsExactly(word, t, alts);
    if TokenIn(word, word(t[0]), t[1..], alts) { TokenLater(word, after, t, alts); }
    if TokenIn(word, after, t, alts) {
      var f, i: nat :| f in alts && f != "" && AloneAt(word, t, f, i) && (i == 0 ==> !after);
      if i > 0 { AloneLater(word, t, f, i - 1); }
    }
  }

  lemma {:induction false} TokenExactly(word: char -> bool, after: bool, t: string, alts: seq<string>)
    ensures HasToken(word, after, t, alts) <==> TokenIn(word, after, t, alts)
    decreases |t|
  {
    if t != "" {
      TokenInNext(word, after, t, alts);
      TokenExactly(word, word(t[0]), t[1..], alts);
    }
  }

  /** The secret or one of its spellings. */
  ghost predicate Writes(s: string, f: string) { f == s || IsSpelling(s, f) }

  /**
   * A text contains a secret exactly when the secret or a spelling of it stands somewhere in it: anywhere, if
   * the secret has six characters or more, and else with no letter or digit on either side.
   */
  lemma FoundExactly(word: char -> bool, text: string, s: string)
    requires s != ""
    ensures ContainsSecret(word, text, s)
       <==> exists f, i: nat :: Writes(s, f) && if Units(s) < 6 then AloneAt(word, text, f, i) else OccursAt(text, f, i)
  {
    forall f ensures f in Forms(s) <==> Writes(s, f) { FormsExactly(s, f); }
    FormsNonEmpty(s);
    if IsWeak(s) {
      WeakForms(s);
      TokenExactly(word, false, text, Alternatives(Forms(s)));
      if f, i: nat :| Writes(s, f) && AloneAt(word, text, f, i) { assert f in Alternatives(Forms(s)) && f != ""; }
    } else {
      forall f ensures Includes(text, f) <==> Occurs(text, f) { IncludedExactly(text, f); }
    }
  }

  /** A secret is passed over by the scrub exactly when trimming leaves nothing of it. */
  lemma BlankExactly(word: char -> bool, t: string, s: string)
    ensures Blank(s) <==> Trim(s) == ""
    ensures Trim(s) == "" ==> RedactOne(word, t, s) == t
  {
    TrimExactly(s, "");
    if Blank(s) { assert s == s + "" + "" && Spaces(s) && Spaces(""); }
  }

  // ---------- what is masked ----------

  /** `r` is `t` with some occurrences of the secret and its spellings masked, and all between them as it was. */
  ghost predicate OnlyMasked(s: string, t: string, r: string)
    decreases |t|
  {
    if t == "" then r == ""
    else
      || (r != "" && r[0] == t[0] && OnlyMasked(s, t[1..], r[1..]))
      || (MASK <= r && exists f :: Writes(s, f) && f != "" && f <= t && OnlyMasked(s, t[|f|..], r[|MASK|..]))
  }

  lemma {:induction false} FormMasksOnly(s: string, t: string, f: string)
    requires f != "" && Writes(s, f)
    ensures OnlyMasked(s, t, ReplaceForm(t, f))
    decreases |t|
  {
    var r := ReplaceForm(t, f);
    if t == "" {
    } else if f <= t {
      FormMasksOnly(s, t[|f|..], f);
      assert r[|MASK|..] == ReplaceForm(t[|f|..], f);
    } else {
      FormMasksOnly(s, t[1..], f);
      assert r[1..] == ReplaceForm(t[1..], f);
    }
  }

  lemma {:induction false} TokensMaskOnly(word: char -> bool, s: string, after: bool, t: string, alts: seq<string>)
    requires forall f <- alts :: Writes(s, f)
    ensures OnlyMasked(s, t, ReplaceTokens(word, after, t, alts))
    decreases |t|
  {
    var r := ReplaceTokens(word, after, t, alts);
    if t == "" {
    } else if !after && TokenLength(word, t, alts).Some? {
      var f := FoundStands(word, t, alts);
      TokensMaskOnly(word, s, word(t[|f| - 1]), t[|f|..], alts);
      assert r[|MASK|..] == ReplaceTokens(word, word(t[|f| - 1]), t[|f|..], alts);
    } else {
      TokensMaskOnly(word, s, word(t[0]), t[1..], alts);
      assert r[1..] == ReplaceTokens(word, word(t[0]), t[1..], alts);
    }
  }

  /** Texts of which each masks in the one before only what stands for the secret. */
  ghost predicate Steps(s: string, ts: seq<string>) {
    ts != [] && forall k :: 1 <= k < |ts| ==> OnlyMasked(s, ts[k - 1], ts[k])
  }

  lemma {:induction false} FormsStep(s: string, t: string, forms: seq<string>) returns (ts: seq<string>)
    requires NonEmpty(forms) && forall f <- forms :: Writes(s, f)
    ensures Steps(s, ts) && ts[0] == t && ts[|ts| - 1] == ReplaceForms(t, forms)
  {
    if forms == [] {
      ts := [t];
    } else {
      var front, last := forms[..|forms| - 1], forms[|forms| - 1];
      var us := FormsStep(s, t, front);
      FormMasksOnly(s, us[|us| - 1], last);
      ts := us + [ReplaceForms(t, forms)];
    }
  }

  /** One secret's pass masks nothing but occurrences of the secret and its spellings, one spelling after another. */
  lemma PassMasksOnly(word: char -> bool, t: string, s: string) returns (ts: seq<string>)
    ensures Steps(s, ts) && ts[0] == t && ts[|ts| - 1] == RedactOne(word, t, s)
  {
    forall f ensures f in Forms(s) <==> Writes(s, f) { FormsExactly(s, f); }
    if Blank(s) {
      ts := [t];
    } else if IsWeak(s) {
      WeakForms(s);
      TokensMaskOnly(word, s, false, t, Alternatives(Forms(s)));
      ts := [t, RedactOne(word, t, s)];
    } else {
      FormsNonEmpty(s);
      ts := FormsStep(s, t, Forms(s));
    }
  }

  /** `f` stands at none of the first places of `a` + `x`, those of `a`. */
  ghost predicate Clear(a: string, x: string, f: string) {
    a == "" || (!OccursAt(a + x, f, 0) && Clear(a[1..], x, f))
  }

  lemma {:induction false} ClearExactly(a: string, x: string, f: string)
    ensures Clear(a, x, f) <==> forall i: nat :: i < |a| ==> !OccursAt(a + x, f, i)
  {
    if a != "" {
      var rest := a[1..];
      ClearExactly(rest, x, f);
      assert (a + x)[1..] == rest + x;
      forall i: nat ensures OccursAt(a + x, f, i + 1) <==> OccursAt(rest + x, f, i) { OccursLater(a + x, f, i); }
      if Clear(a, x, f) {
        forall i: nat | i < |a| ensures !OccursAt(a + x, f, i) {
          if i > 0 { assert !OccursAt(rest + x, f, i - 1); }
        }
      } else if !Clear(rest, x, f) {
        var i: nat :| i < |rest| && OccursAt(rest + x, f, i);
        assert OccursAt(a + x, f, i + 1);
      }
    }
  }

  lemma Kept(t: string, f: string)
    requires t != "" && f != "" && !OccursAt(t, f, 0)
    ensures ReplaceForm(t, f) == [t[0]] + ReplaceForm(t[1..], f)
  {
  }

  lemma {:induction false} KeptBefore(a: string, x: string, f: string, r: string)
    requires f != "" && Clear(a, x, f) && r == ReplaceForm(x, f)
    ensures ReplaceForm(a + x, f) == a + r
  {
    if a == "" {
      assert a + x == x && a + r == r;
    } else {
      var rest, t := a[1..], a + x;
      KeptBefore(rest, x, f, r);
      Kept(t, f);
      assert t[1..] == rest + x;
      assert [a[0]] + (rest + r) == a + r;
    }
  }

  /** The first occurrence of a form is masked, then the first in what follows it, and so on. */
  lemma FirstMasked(a: string, f: string, b: string)
    requires f != "" && forall i: nat :: i < |a| ==> !OccursAt(a + (f + b), f, i)
    ensures ReplaceForm(a + (f + b), f) == a + (MASK + ReplaceForm(b, f))
  {
    ClearExactly(a, f + b, f);
    assert (f + b)[|f|..] == b;
    KeptBefore(a, f + b, f, MASK + ReplaceForm(b, f));
  }
}
