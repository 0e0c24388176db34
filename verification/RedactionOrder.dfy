/** For secrets of letters and digits the order the scrub needs is exact: any other has a text it fails on. */
module RedactionOrder {
  import opened Characters
  import opened SecretForms
  import opened Redaction
  import opened RedactionProofs

  // ---------- secrets of letters and digits ----------

  /** Secrets of letters and digits, none of them part of the mask. */
  predicate LetterList(secrets: seq<string>) {
    forall i :: 0 <= i < |secrets| ==> LetterSecret(secrets[i])
  }

  predicate LetterSecret(s: string) { s != "" && Letters(s) && !InMask(s) }

  lemma LetterForms(s: string)
    requires s != "" && Letters(s)
    ensures !Blank(s) && Forms(s) == [s] && Alternatives(Forms(s)) == [s]
  {
    assert AsciiAlnum(s[0]) && !Space(s[0]);
    LettersHaveOneForm(s);
    assert Alternatives([s]) == InsertByLength(s, Alternatives([]));
  }

  lemma LettersRemovable(word: char -> bool, s: string)
    requires WordClass(word) && LetterSecret(s)
    ensures Removable(word, true, s)
  {
    LetterForms(s);
    assert AsciiAlnum(s[0]) && AsciiAlnum(s[|s| - 1]);
    if Includes("redacted", s) {
      assert "redacted" <= MASK[1..];
      IncludesTransitive(MASK, "redacted", s);
    } else {
      AsciiApart(s);
    }
  }

  lemma {:induction false} LettersUnits(s: string)
    requires Letters(s)
    ensures Units(s) == |s|
  {
    if s != "" {
      assert AsciiAlnum(s[0]);
      LettersUnits(s[1..]);
    }
  }

  lemma WeakShorterThanStrong(weak: string, strong: string)
    requires IsWeak(weak) && !IsWeak(strong) && Letters(weak) && Letters(strong)
    ensures |weak| < |strong|
  {
    LettersUnits(weak);
    LettersUnits(strong);
  }

  lemma {:induction false} ShortTextHoldsNot(t: string, f: string)
    requires |t| < |f|
    ensures !Includes(t, f)
    decreases |t|
  {
    if t != "" { ShortTextHoldsNot(t[1..], f); }
  }

  /** A word is one token: no other is found before what follows it. */
  lemma OnlyToken(word: char -> bool, after: bool, w: string, x: string, u: string)
    requires WordClass(word) && w != "" && Letters(w) && u != "" && Letters(u) && u != w
    requires (x == "" || !word(x[0])) && HasToken(word, after, w + x, [u])
    ensures HasToken(word, true, x, [u])
  {
    var t := w + x;
    assert forall i :: 0 <= i < |w| ==> t[i] == w[i] && AsciiAlnum(w[i]);
    assert x != "" ==> t[|w|] == x[0];
    if TokenLength(word, t, [u]).Some? {
      var f := FoundStands(word, t, [u]);
    }
    assert t[1..] == w[1..] + x;
    OverLetters(word, w[1..], x, [u]);
  }

  // ---------- what a masked neighbour bares ----------

  lemma {:induction false} MaskedSame(t: string)
    ensures Masked(t, t)
  {
    if t != "" { MaskedSame(t[1..]); }
  }

  lemma {:induction false} MaskedAround(a: string, c: char, b: string)
    ensures Masked(a + [c] + b, a + MASK + b)
  {
    var t, r := a + [c] + b, a + MASK + b;
    if a == "" {
      MaskedSame(b);
      assert t[1..] == b && r == MASK + b && r[|MASK|..] == b;
    } else {
      MaskedAround(a[1..], c, b);
      assert t[1..] == a[1..] + [c] + b && r[1..] == a[1..] + MASK + b;
    }
  }

  /** What is apart from the mask and not in `a` or `b` is not around a mask between them. */
  lemma NotAroundMask(a: string, b: string, f: string)
    requires Apart(f) && '«' !in f && !Includes(a, f) && !Includes(b, f)
    ensures !Includes(a + MASK + b, f)
  {
    MaskedAround(a, '«', b);
    if Includes(a + MASK + b, f) {
      NothingNew(a + ['«'] + b, a + MASK + b, f);
      OneSide(a, '«', b, f);
    }
  }

  /** `w` with a mask right before or right after it. */
  function Bared(w: string, first: bool): string {
    if first then w + MASK else MASK + w
  }

  lemma BaredIsFound(word: char -> bool, w: string, first: bool)
    requires WordClass(word) && w != "" && Letters(w) && IsWeak(w)
    ensures ContainsSecret(word, Bared(w, first), w)
  {
    var out := Bared(w, first);
    LetterForms(w);
    if first {
      assert Stands(word, out, w);
      StandsFound(word, out, [w], w);
    } else {
      assert Stands(word, w, w);
      StandsFound(word, w, [w], w);
      assert out[|MASK|..] == w && out[|MASK| - 1] == '»';
      SuffixToken(word, false, out, |MASK|, [w]);
    }
  }

  /** Beside a mask a bared word is seen only by its own pass. */
  lemma BaredStays(word: char -> bool, w: string, first: bool, u: string)
    requires WordClass(word) && w != "" && Letters(w) && IsWeak(w) && LetterSecret(u) && u != w
    ensures RedactOne(word, Bared(w, first), u) == Bared(w, first)
  {
    var out := Bared(w, first);
    LetterForms(u);
    if IsWeak(u) {
      WeakForms(u);
      if HasToken(word, false, out, [u]) {
        if first {
          OnlyToken(word, false, w, MASK, u);
          assert MASK == MASK + "";
          MaskHidesTokens(word, true, "", [u]);
        } else {
          MaskHidesTokens(word, false, w, [u]);
          assert w == w + "";
          OnlyToken(word, false, w, "", u);
        }
      }
    } else {
      LettersRemovable(word, u);
      WeakShorterThanStrong(w, u);
      ShortTextHoldsNot(w, u);
      ShortTextHoldsNot("", u);
      if first { NotAroundMask(w, "", u); } else { NotAroundMask("", w, u); }
      assert out == if first then w + MASK + "" else "" + MASK + w;
    }
    PassChangesNothing(word, out, u);
  }

  lemma {:induction false} ReplaceMeets(f: string, g: string)
    requires g != "" && Meets(f, g)
    ensures ReplaceForm(f + g, g) == f + MASK
  {
    var t := f + g;
    if f == "" {
      assert t == g && g[|g|..] == "";
    } else {
      assert t[0..] == t && t[1..] == f[1..] + g;
      forall k | 0 <= k < |f[1..]| ensures !(g <= (f[1..] + g)[k..]) {
        assert (f[1..] + g)[k..] == t[k + 1..];
      }
      ReplaceMeets(f[1..], g);
    }
  }

  /** The text in which masking `s` bares `w`. */
  function Glued(w: string, s: string, first: bool): string {
    if first then w + s else s + w
  }

  lemma StrongPassBares(word: char -> bool, w: string, s: string, first: bool)
    requires s != "" && Letters(s) && !IsWeak(s) && |w| < |s| && (first ==> Meets(w, s))
    ensures RedactOne(word, Glued(w, s, first), s) == Bared(w, first)
  {
    var t := Glued(w, s, first);
    LetterForms(s);
    assert ReplaceForms(t, [s]) == ReplaceForm(ReplaceForms(t, []), s);
    if first {
      ReplaceMeets(w, s);
    } else {
      ShortTextHoldsNot(w, s);
      NoFormNoChange(w, s);
      assert t[|s|..] == w;
    }
  }

  // ---------- a whole list ----------

  /** Neither a shorter word nor a strong secret that is not in it sees a word. */
  lemma WordUnseen(word: char -> bool, t: string, u: string)
    requires WordClass(word) && t != "" && Letters(t) && u != "" && Letters(u)
    requires if IsWeak(u) then |u| < |t| else !Includes(t, u)
    ensures !ContainsSecret(word, t, u)
  {
    LetterForms(u);
    if IsWeak(u) && HasToken(word, false, t, [u]) {
      assert t == t + "";
      OnlyToken(word, false, t, "", u);
    }
  }

  lemma RedactNext(word: char -> bool, text: string, secrets: seq<string>, n: nat)
    requires n < |secrets|
    ensures RedactText(word, text, secrets[..n + 1])
         == RedactOne(word, RedactText(word, text, secrets[..n]), secrets[n])
  {
    assert secrets[..n + 1][..n] == secrets[..n];
  }

  /** A text that no later pass changes. */
  lemma {:induction false} StaysToTheEnd(
    word: char -> bool, text: string, out: string, secrets: seq<string>, j: nat, n: nat)
    requires j <= n <= |secrets| && RedactText(word, text, secrets[..j]) == out
    requires forall k :: j <= k < |secrets| ==> RedactOne(word, out, secrets[k]) == out
    ensures RedactText(word, text, secrets[..n]) == out
    decreases n
  {
    if j < n {
      StaysToTheEnd(word, text, out, secrets, j, n - 1);
      RedactNext(word, text, secrets, n - 1);
    }
  }

  /** The passes before the `j`-th leave the glued words alone. */
  lemma GluedReaches(word: char -> bool, secrets: seq<string>, w: string, j: nat, first: bool)
    requires WordClass(word) && LetterList(secrets) && j < |secrets| && !IsWeak(secrets[j])
    requires w != "" && Letters(w) && !Guarded(secrets, j, Glued(w, secrets[j], first))
    ensures RedactText(word, Glued(w, secrets[j], first), secrets[..j]) == Glued(w, secrets[j], first)
  {
    var t := Glued(w, secrets[j], first);
    assert LetterSecret(secrets[j]);
    forall k | 0 <= k < j ensures !ContainsSecret(word, t, secrets[..j][k]) {
      assert LetterSecret(secrets[k]);
      LetterForms(secrets[k]);
      if IsWeak(secrets[k]) {
        WeakShorterThanStrong(secrets[k], secrets[j]);
      } else {
        assert !HoldsForm(t, secrets[k]) && secrets[k] in Forms(secrets[k]);
      }
      WordUnseen(word, t, secrets[k]);
    }
    CleanTextUnchanged(word, t, secrets[..j]);
  }

  /** No later pass sees a bared word that is not listed again. */
  lemma BaredRemains(word: char -> bool, secrets: seq<string>, w: string, j: nat, first: bool, k: nat)
    requires WordClass(word) && LetterList(secrets) && j < k < |secrets|
    requires LetterSecret(w) && IsWeak(w) && w !in secrets[j + 1..]
    ensures RedactOne(word, Bared(w, first), secrets[k]) == Bared(w, first)
  {
    assert secrets[k] == secrets[j + 1..][k - j - 1] && LetterSecret(secrets[k]);
    BaredStays(word, w, first, secrets[k]);
  }

  /** The strong secret's own pass bares the word glued to it. */
  lemma GluedBares(word: char -> bool, secrets: seq<string>, w: string, j: nat, first: bool)
    requires WordClass(word) && LetterList(secrets) && j < |secrets| && !IsWeak(secrets[j])
    requires LetterSecret(w) && IsWeak(w) && (first ==> Meets(w, secrets[j]))
    requires !Guarded(secrets, j, Glued(w, secrets[j], first))
    ensures RedactText(word, Glued(w, secrets[j], first), secrets[..j + 1]) == Bared(w, first)
  {
    GluedReaches(word, secrets, w, j, first);
    assert LetterSecret(secrets[j]);
    WeakShorterThanStrong(w, secrets[j]);
    StrongPassBares(word, w, secrets[j], first);
    RedactNext(word, Glued(w, secrets[j], first), secrets, j);
  }

  lemma BaredFails(word: char -> bool, t: string, secrets: seq<string>, i: nat, j: nat, first: bool)
    requires WordClass(word) && LetterList(secrets) && i < |secrets| && j < |secrets|
    requires IsWeak(secrets[i]) && secrets[i] !in secrets[j + 1..]
    requires RedactText(word, t, secrets[..j + 1]) == Bared(secrets[i], first)
    ensures !Proven(word, RedactText(word, t, secrets), secrets)
  {
    var w, out := secrets[i], Bared(secrets[i], first);
    assert LetterSecret(w);
    forall k | j < k < |secrets| ensures RedactOne(word, out, secrets[k]) == out {
      BaredRemains(word, secrets, w, j, first, k);
    }
    StaysToTheEnd(word, t, out, secrets, j + 1, |secrets|);
    assert secrets[..|secrets|] == secrets;
    BaredIsFound(word, w, first);
  }

  /** A weak secret that is not masked again fails on the text in which a strong one bares it. */
  lemma GluedFails(word: char -> bool, secrets: seq<string>, i: nat, j: nat, first: bool)
    requires WordClass(word) && LetterList(secrets) && i < j < |secrets|
    requires IsWeak(secrets[i]) && !IsWeak(secrets[j]) && secrets[i] !in secrets[j + 1..]
    requires !Guarded(secrets, j, Glued(secrets[i], secrets[j], first)) && (first ==> Meets(secrets[i], secrets[j]))
    ensures !Proven(word, RedactText(word, Glued(secrets[i], secrets[j], first), secrets), secrets)
  {
    assert LetterSecret(secrets[i]);
    GluedBares(word, secrets, secrets[i], j, first);
    BaredFails(word, Glued(secrets[i], secrets[j], first), secrets, i, j, first);
  }

  /** For secrets of letters and digits outside the mask the order is exact. */
  lemma OrderIsExact(word: char -> bool, secrets: seq<string>)
    requires WordClass(word) && LetterList(secrets)
    ensures AlwaysProven(word, secrets) <==> Ordered(secrets)
  {
    if Ordered(secrets) {
      forall i | 0 <= i < |secrets| ensures Maskable(word, true, secrets[i]) && !InMask(secrets[i]) {
        assert LetterSecret(secrets[i]);
        LettersRemovable(word, secrets[i]);
      }
      ScrubSatisfiesProof(word, true, secrets);
    } else {
      var i, j :| 0 <= i < j < |secrets| && IsWeak(secrets[i]) && !IsWeak(secrets[j])
          && secrets[i] !in secrets[j + 1..] && !KeptApart(secrets, i, j);
      assert LetterSecret(secrets[i]) && LetterSecret(secrets[j]);
      LetterForms(secrets[i]);
      LetterForms(secrets[j]);
      var first := Guarded(secrets, j, Glued(secrets[i], secrets[j], false));
      GluedFails(word, secrets, i, j, first);
    }
  }

  /** Order: with a weak secret before a strong one, masking the strong one can bare the weak one. */
  lemma StrongFirstNeeded(word: char -> bool, weak: string, strong: string)
    requires WordClass(word) && weak != "" && IsWeak(weak) && Letters(weak) && !IsWeak(strong) && Letters(strong)
    ensures !Proven(word, RedactText(word, strong + weak, [weak, strong]), [weak, strong])
  {
    var t, secrets := strong + weak, [weak, strong];
    WeakShorterThanStrong(weak, strong);
    WordUnseen(word, t, weak);
    CleanTextUnchanged(word, t, secrets[..1]);
    StrongPassBares(word, weak, strong, false);
    RedactNext(word, t, secrets, 1);
    assert secrets[..2] == secrets && secrets[0] == weak;
    BaredIsFound(word, weak, false);
  }

  /** Blank secrets: the scrub passes over one, and the check does not. */
  lemma NonBlankNeeded(word: char -> bool, s: string)
    requires Blank(s) && s != ""
    ensures !Proven(word, RedactText(word, s, [s]), [s])
  {
    assert [s][..0] == [];
    assert RedactText(word, s, [s]) == RedactOne(word, RedactText(word, s, []), s) == s;
    FormsNonEmpty(s);
    if IsWeak(s) {
      WeakForms(s);
      StandsFound(word, s, Alternatives(Forms(s)), s);
    } else {
      assert Includes(s, s);
    }
    assert ContainsSecret(word, s, [s][0]);
  }
}
