/** One secret registered alone: exactly which ones the scrub removes from every text. */
module RedactionAlone {
  import opened Lists
  import opened Characters
  import opened SecretForms
  import opened Redaction
  import opened RedactionProofs
  import opened RedactionOrder

  lemma OnePass(word: char -> bool, t: string, s: string)
    ensures RedactText(word, t, [s]) == RedactOne(word, t, s)
  {
    assert [s][..0] == [];
    assert RedactText(word, t, [s]) == RedactOne(word, RedactText(word, t, []), s);
  }

  lemma FailsOn(word: char -> bool, t: string, s: string)
    requires s != "" && ContainsSecret(word, RedactOne(word, t, s), s)
    ensures !AlwaysProven(word, [s])
  {
    OnePass(word, t, s);
    assert [s][0] == s;
    assert !Proven(word, RedactText(word, t, [s]), [s]);
  }

  // ---------- spellings ----------

  lemma {:induction false} SpellNotShorter(spelling: char -> string, x: string)
    requires Escapes(spelling)
    ensures |Spell(spelling, x)| >= |x|
  {
    if x != "" {
      SpellNotShorter(spelling, x[1..]);
      assert Escape(x[0], spelling(x[0]));
    }
  }

  lemma {:induction false} LowerLength(v: string)
    ensures |Lower(v)| == |v|
    decreases |v|
  {
    if v != "" { LowerLength(v[if |v| >= 3 && v[0] == '%' && UpperHex(v[1]) && UpperHex(v[2]) then 3 else 1..]); }
  }

  lemma FormsNotShorter(s: string, f: string)
    requires f in Forms(s)
    ensures |f| >= |s|
  {
    FormsAre(s);
    SpellingsEscape();
    var (encoded, strict, form) := (EncodeUriComponent(s), EncodeStrict(s), EncodeForm(s));
    SpellNotShorter(UriSpelling, s);
    SpellNotShorter(StrictSpelling, encoded);
    SpellNotShorter(FormSpelling, s);
    LowerLength(encoded);
    LowerLength(strict);
    LowerLength(form);
  }

  lemma EncodedAscii(s: string)
    ensures Ascii(EncodeUriComponent(s))
  {
    SpellingsEscape();
    SpellAscii(UriSpelling, s);
  }

  // ---------- a strong secret that overlaps the mask ----------

  lemma {:induction false} UniqPrefix<T>(xs: seq<T>, n: nat)
    requires n <= |xs|
    ensures Uniq(xs[..n]) <= Uniq(xs)
  {
    if n == |xs| {
      assert xs[..n] == xs;
    } else {
      UniqPrefix(xs[..|xs| - 1], n);
      assert xs[..|xs| - 1][..n] == xs[..n];
    }
  }

  /** The URL-encoded spelling is the second form, if it is another one. */
  lemma EncodedIsSecond(s: string)
    requires EncodeUriComponent(s) != s
    ensures |Forms(s)| >= 2 && Forms(s)[..2] == [s, EncodeUriComponent(s)]
    ensures forall i :: 2 <= i < |Forms(s)| ==> Forms(s)[i] != s
  {
    var (e, strict, form) := (EncodeUriComponent(s), EncodeStrict(s), EncodeForm(s));
    var all := [s, e, strict, form, Lower(e), Lower(strict), Lower(form)];
    UniqPrefix(all, 2);
    UniqMembers(all);
    assert all[..2] == [s, e] && [s, e][..1] == [s] && [s][..0] == [];
    assert Uniq<string>([]) == [] && Uniq([s]) == [s] && Uniq([s, e]) == [s, e];
  }

  lemma {:induction false} ReplaceFormsConcat(t: string, xs: seq<string>, ys: seq<string>)
    requires NonEmpty(xs) && NonEmpty(ys)
    ensures NonEmpty(xs + ys) && ReplaceForms(t, xs + ys) == ReplaceForms(ReplaceForms(t, xs), ys)
    decreases |ys|
  {
    if ys == [] {
      assert xs + ys == xs;
    } else {
      ReplaceFormsConcat(t, xs, ys[..|ys| - 1]);
      assert (xs + ys)[..|xs + ys| - 1] == xs + ys[..|ys| - 1];
    }
  }

  /** Only bytes below 128 are escaped in the spelling of ASCII. */
  lemma {:induction false} AsciiEscapes(z: string, q: nat)
    requires Ascii(z) && q < |EncodeUriComponent(z)| && EncodeUriComponent(z)[q] == '%'
    ensures q + 1 < |EncodeUriComponent(z)| && EncodeUriComponent(z)[q + 1] != 'C'
  {
    var head, tail := UriSpelling(z[0]), EncodeUriComponent(z[1..]);
    if q >= |head| {
      assert EncodeUriComponent(z)[q] == tail[q - |head|];
      AsciiEscapes(z[1..], q - |head|);
    }
  }

  lemma MarkSpelling()
    ensures UriSpelling('«') == "%C2%AB" && UriSpelling('»') == "%C2%BB"
  {
  }

  /** A text found again `|z|` places later, before its first escape of a mark, holds such an escape within. */
  lemma Shifted(e: string, z: string, head: string, tail: string, rest: string, b: string)
    requires e == head + tail + ("%C2%AB" + rest) && e <= z + e + b && 0 < |z| <= |tail|
    ensures z == e[..|z|]
    ensures tail[|tail| - |z|] == '%' && (|z| > 1 ==> tail[|tail| - |z| + 1] == 'C')
  {
    var m, d, x := |head + tail|, |z|, z + e + b;
    assert e[m] == '%' && e[m + 1] == 'C';
    assert forall i :: d <= i < |e| ==> e[i] == x[i] == e[i - d];
    assert e[m - d] == (head + tail)[m - d] == tail[|tail| - d];
    if d > 1 { assert e[m + 1 - d] == (head + tail)[m + 1 - d] == tail[|tail| - d + 1]; }
  }

  lemma EncodedAtMark(a: string, z: string, rest: string)
    ensures EncodeUriComponent((a + z) + (['«'] + rest))
         == EncodeUriComponent(a) + EncodeUriComponent(z) + ("%C2%AB" + EncodeUriComponent(rest))
  {
    SpellConcat(UriSpelling, a + z, ['«'] + rest);
    SpellConcat(UriSpelling, a, z);
    MarkSpelling();
    assert (['«'] + rest)[1..] == rest;
  }

  lemma NotShifted(e: string, z: string, head: string, rest: string, b: string)
    requires e == head + EncodeUriComponent(z) + ("%C2%AB" + rest) && z != "" && Ascii(e)
    ensures !(e <= z + e + b)
  {
    var tail := EncodeUriComponent(z);
    SpellingsEscape();
    SpellNotShorter(UriSpelling, z);
    if e <= z + e + b {
      Shifted(e, z, head, tail, rest, b);
      AsciiEscapes(z, |tail| - |z|);
    }
  }

  /** After the part of a secret before a mark, its spelling is not found too early. */
  lemma SpellingNotBefore(a: string, s: string, b: string, k: nat)
    requires a <= s && |a| < |s| && s[|a|] == '«' && k < |a|
    ensures !(EncodeUriComponent(s) <= (a + EncodeUriComponent(s) + b)[k..])
  {
    var e, z, rest := EncodeUriComponent(s), a[k..], s[|a| + 1..];
    SplitAtMark(a, s, k);
    EncodedAtMark(a[..k], z, rest);
    EncodedAscii(s);
    NotShifted(e, z, EncodeUriComponent(a[..k]), EncodeUriComponent(rest), b);
    DropPrefix(a, e, b, k);
  }

  lemma SplitAtMark(a: string, s: string, k: nat)
    requires a <= s && |a| < |s| && s[|a|] == '«' && k <= |a|
    ensures s == (a[..k] + a[k..]) + (['«'] + s[|a| + 1..])
  {
  }

  lemma DropPrefix(a: string, e: string, b: string, k: nat)
    requires k <= |a|
    ensures (a + e + b)[k..] == a[k..] + e + b
  {
  }

  lemma {:induction false} ReplaceOnce(a: string, e: string, b: string)
    requires e != "" && !Includes(b, e) && forall k :: 0 <= k < |a| ==> !(e <= (a + e + b)[k..])
    ensures ReplaceForm(a + e + b, e) == a + MASK + b
  {
    var t := a + e + b;
    if a == "" {
      assert t == e + b && t[|e|..] == b;
      NoFormNoChange(b, e);
    } else {
      assert t[0..] == t && t[1..] == a[1..] + e + b;
      forall k | 0 <= k < |a[1..]| ensures !(e <= (a[1..] + e + b)[k..]) {
        assert (a[1..] + e + b)[k..] == t[k + 1..];
      }
      ReplaceOnce(a[1..], e, b);
    }
  }

  lemma {:induction false} IncludedAt(t: string, f: string) returns (k: nat)
    requires Includes(t, f)
    ensures k + |f| <= |t| && forall i :: 0 <= i < |f| ==> f[i] == t[k + i]
  {
    if f <= t {
      k := 0;
    } else {
      k := IncludedAt(t[1..], f);
      k := k + 1;
    }
  }

  /** A secret that meets the mask in a mark at its `m`-th place, with `a` before and `b` after the mask. */
  ghost predicate Around(s: string, m: nat, a: string, b: string) {
    && m < |s| && (s[m] == '«' || s[m] == '»')
    && |a| <= m && |b| < |s| - m
    && (a != "" ==> a <= s && s[|a|] == '«')
    && Includes(a + MASK + b, s)
  }

  lemma PrefixIncludes(t: string, n: nat, f: string)
    requires n <= |t| && |t| - n >= |f| && forall i :: 0 <= i < |f| ==> f[i] == t[n + i]
    ensures Includes(t, f)
  {
    assert f <= t[n..];
    SuffixIncludes(t, n, f);
  }

  /** The mask starts within the secret. */
  lemma AroundFromMark(s: string, m: nat, b: string)
    requires m < |s| && Fits(s, m) && b == if m + |MASK| < |s| then s[m + |MASK|..] else ""
    ensures Around(s, m, s[..m], b)
  {
    var a := s[..m];
    var t := a + MASK + b;
    assert s[m] == MASK[0];
    forall i | 0 <= i < |s| ensures s[i] == t[0 + i] {
      if m <= i < m + |MASK| { assert s[i] == MASK[i - m]; }
    }
    PrefixIncludes(t, 0, s);
  }

  /** The mask starts before the secret and ends within it. */
  lemma AroundToMark(s: string, k: nat, b: string)
    requires 0 < k < |MASK| < |s| + k && Fits(s, -(k as int)) && b == s[|MASK| - k..]
    ensures Around(s, 9 - k, "", b)
  {
    var t := MASK + b;
    assert s[9 - k] == MASK[9];
    forall i | 0 <= i < |s| ensures s[i] == t[k + i] {
      if i + k < |MASK| { assert s[i] == MASK[i + k]; }
    }
    PrefixIncludes(t, k, s);
    assert "" + MASK + b == t;
  }

  lemma OverlapIsAround(s: string, j: int) returns (m: nat, a: string, b: string)
    requires -|MASK| < j < |s| && Fits(s, j) && !Includes(MASK, s)
    ensures Around(s, m, a, b)
  {
    if j >= 0 {
      m, a, b := j, s[..j], if j + |MASK| < |s| then s[j + |MASK|..] else "";
      AroundFromMark(s, m, b);
    } else {
      var k := -j;
      if |s| + k <= |MASK| {
        assert forall i :: 0 <= i < |s| ==> s[i] == MASK[k + i];
        PrefixIncludes(MASK, k, s);
      }
      m, a, b := 9 - k, "", s[|MASK| - k..];
      AroundToMark(s, k, b);
    }
  }

  /** The raw secret is not in the text that holds its spelling in the place of the mask. */
  lemma RawNotAround(s: string, m: nat, a: string, b: string)
    requires Around(s, m, a, b)
    ensures !Includes(a + EncodeUriComponent(s) + b, s)
  {
    var e := EncodeUriComponent(s);
    var t := a + e + b;
    EncodedAscii(s);
    SpellingsEscape();
    SpellNotShorter(UriSpelling, s);
    assert forall p :: |a| <= p < |a| + |e| ==> t[p] == e[p - |a|];
    if Includes(t, s) {
      var k := IncludedAt(t, s);
    }
  }

  /** The other spellings find nothing around the mask. */
  lemma SpellingsNotAround(s: string, m: nat, a: string, b: string, f: string)
    requires Around(s, m, a, b) && f in Forms(s) && f != s
    ensures !Includes(a + MASK + b, f)
  {
    FormsNotShorter(s, f);
    FormsAscii(s, f);
    ShortTextHoldsNot(a, f);
    ShortTextHoldsNot(b, f);
    if Includes("redacted", f) {
      IncludedLetters("redacted", f);
      LetterFormIsSecret(s, f);
    }
    AsciiApart(f);
    NotAroundMask(a, b, f);
  }

  /** The first two forms leave a mask in the place of the spelling. */
  lemma FirstFormsMask(s: string, m: nat, a: string, b: string)
    requires Around(s, m, a, b) && NonEmpty([s, EncodeUriComponent(s)])
    requires |EncodeUriComponent(s)| >= |s|
    ensures ReplaceForms(a + EncodeUriComponent(s) + b, [s, EncodeUriComponent(s)]) == a + MASK + b
  {
    var e := EncodeUriComponent(s);
    var t := a + e + b;
    RawNotAround(s, m, a, b);
    NoFormNoChange(t, s);
    ShortTextHoldsNot(b, e);
    forall k | 0 <= k < |a| ensures !(e <= t[k..]) { SpellingNotBefore(a, s, b, k); }
    ReplaceOnce(a, e, b);
    assert [s, e][..1] == [s] && [s][..0] == [];
    assert ReplaceForms(t, [s]) == ReplaceForm(ReplaceForms(t, []), s);
  }

  lemma LaterFormsLeave(s: string, m: nat, a: string, b: string, rest: seq<string>)
    requires Around(s, m, a, b) && NonEmpty(rest)
    requires forall i :: 0 <= i < |rest| ==> rest[i] in Forms(s) && rest[i] != s
    ensures ReplaceForms(a + MASK + b, rest) == a + MASK + b
  {
    forall i | 0 <= i < |rest| ensures !Includes(a + MASK + b, rest[i]) {
      SpellingsNotAround(s, m, a, b, rest[i]);
    }
    NoFormsNoChange(a + MASK + b, rest);
  }

  lemma AroundFails(word: char -> bool, s: string, m: nat, a: string, b: string)
    requires Around(s, m, a, b) && !IsWeak(s) && !Blank(s)
    ensures RedactOne(word, a + EncodeUriComponent(s) + b, s) == a + MASK + b
  {
    var e, forms := EncodeUriComponent(s), Forms(s);
    EncodedAscii(s);
    assert (s[m] as int) >= 128;
    EncodedIsSecond(s);
    FormsNonEmpty(s);
    var rest := forms[2..];
    assert forms == [s, e] + rest && forms[1] == e;
    forall i | 0 <= i < |rest| ensures rest[i] in forms && rest[i] != s && rest[i] != "" {
      assert rest[i] == forms[i + 2];
    }
    FormsNotShorter(s, e);
    FirstFormsMask(s, m, a, b);
    LaterFormsLeave(s, m, a, b, rest);
    ReplaceFormsConcat(a + e + b, [s, e], rest);
  }

  /** A strong secret alone is always removed exactly when it does not overlap the mask. */
  lemma StrongAlone(word: char -> bool, s: string)
    requires WordClass(word) && !IsWeak(s) && !Blank(s)
    ensures AlwaysProven(word, [s]) <==> !Overlaps(s)
  {
    if !Overlaps(s) {
      if InMask(s) {
        var k: int := 0;
        k := IncludedAt(MASK, s);
        assert Fits(s, -k);
      }
      ScrubSatisfiesProof(word, true, [s]);
    } else if Includes(MASK, s) {
      assert s in [s];
      PartOfMaskFails(word, [s], s);
    } else {
      var j :| -|MASK| < j < |s| && Fits(s, j);
      var m, a, b := OverlapIsAround(s, j);
      AroundFails(word, s, m, a, b);
      FormsNonEmpty(s);
      FailsOn(word, a + EncodeUriComponent(s) + b, s);
    }
  }
  /** So a strong secret that starts or ends as a mask goes on fails alone. */
  lemma MarkFails(word: char -> bool, s: string)
    requires WordClass(word) && !IsWeak(s) && !Blank(s) && (s[0] == '»' || s[|s| - 1] == '«')
    ensures !AlwaysProven(word, [s])
  {
    if s[0] == '»' { assert Fits(s, -9); } else { assert Fits(s, |s| - 1); }
    StrongAlone(word, s);
  }
}
