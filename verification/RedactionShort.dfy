/** One short secret registered alone: the scrub always removes it exactly when its ends are of one kind. */
module RedactionShort {
  import opened Wrappers
  import opened Characters
  import opened SecretForms
  import opened Redaction
  import opened RedactionProofs
  import opened RedactionOrder
  import opened RedactionAlone

  function Last(s: string): char
    requires s != ""
  {
    s[|s| - 1]
  }

  /** A letter or digit at both ends, the first of them ASCII; or at neither, and no spelling changes the last. */
  predicate EvenEnds(word: char -> bool, s: string)
    requires s != ""
  {
    (AsciiAlnum(s[0]) && word(Last(s))) || (!word(s[0]) && Last(s) in "-_.")
  }

  // ---------- the ends of a secret's forms ----------

  /** How a spelling of `c` may begin and end. */
  predicate Edges(c: char, x: string) {
    && x != ""
    && (x[0] == c || (x[0] in "%+" && !AsciiAlnum(c)))
    && (Last(x) == c || ((AsciiAlnum(Last(x)) || c == ' ') && c !in "-_."))
  }

  lemma PercentEdges(c: char)
    ensures Percent(c) != "" && Percent(c)[0] == '%' && AsciiAlnum(Last(Percent(c)))
  {
  }

  lemma CharEdges(c: char)
    ensures Edges(c, UriSpelling(c)) && Edges(c, StrictSpelling(c)) && Edges(c, FormSpelling(c))
  {
    PercentEdges(c);
  }

  lemma {:induction false} SpellEdges(spelling: char -> string, s: string)
    requires s != "" && forall c :: Edges(c, spelling(c))
    ensures Edges(s[0], spelling(s[0])) && Edges(Last(s), spelling(Last(s)))
    ensures Spell(spelling, s) != "" && Spell(spelling, s)[0] == spelling(s[0])[0]
    ensures Last(Spell(spelling, s)) == Last(spelling(Last(s)))
  {
    assert Edges(s[0], spelling(s[0]));
    if |s| > 1 {
      SpellEdges(spelling, s[1..]);
    } else {
      assert Spell(spelling, s[1..]) == "";
    }
  }

  lemma {:induction false} LowerEdges(v: string)
    requires v != ""
    ensures Lower(v) != "" && Lower(v)[0] == v[0]
    ensures Last(Lower(v)) == Last(v) || (AsciiAlnum(Last(Lower(v))) && AsciiAlnum(Last(v)))
    decreases |v|
  {
    var n := if |v| >= 3 && v[0] == '%' && UpperHex(v[1]) && UpperHex(v[2]) then 3 else 1;
    if |v| > n {
      LowerEdges(v[n..]);
    } else {
      assert Lower(v[n..]) == "";
    }
  }

  /** How a form of a secret may begin and end. */
  predicate FormEdges(s: string, f: string) {
    && s != "" && f != ""
    && (f[0] == s[0] || (f[0] in "%+" && !AsciiAlnum(s[0])))
    && (Last(f) == Last(s) || ((AsciiAlnum(Last(f)) || Last(s) == ' ') && Last(s) !in "-_."))
  }

  lemma SpellingsHaveEdges()
    ensures forall c :: Edges(c, UriSpelling(c))
    ensures forall c :: Edges(c, StrictSpelling(c))
    ensures forall c :: Edges(c, FormSpelling(c))
  {
    forall c ensures Edges(c, UriSpelling(c)) { CharEdges(c); }
    forall c ensures Edges(c, StrictSpelling(c)) { CharEdges(c); }
    forall c ensures Edges(c, FormSpelling(c)) { CharEdges(c); }
  }

  lemma SpelledEdges(spelling: char -> string, s: string)
    requires s != "" && forall c :: Edges(c, spelling(c))
    ensures FormEdges(s, Spell(spelling, s))
  {
    SpellEdges(spelling, s);
    assert Edges(s[0], spelling(s[0])) && Edges(Last(s), spelling(Last(s)));
  }

  lemma StrictEdges(s: string)
    requires s != ""
    ensures FormEdges(s, EncodeStrict(s))
  {
    var e := EncodeUriComponent(s);
    SpellingsHaveEdges();
    SpelledEdges(UriSpelling, s);
    SpelledEdges(StrictSpelling, e);
    SpellEdges(StrictSpelling, e);
    assert Edges(e[0], StrictSpelling(e[0])) && Edges(Last(e), StrictSpelling(Last(e)));
  }

  lemma LoweredEdges(s: string, f: string)
    requires FormEdges(s, f)
    ensures FormEdges(s, Lower(f))
  {
    LowerEdges(f);
  }

  lemma FormsHaveEdges(s: string, f: string)
    requires s != "" && f in Forms(s)
    ensures FormEdges(s, f)
  {
    FormsAre(s);
    SpellingsHaveEdges();
    SpelledEdges(UriSpelling, s);
    SpelledEdges(FormSpelling, s);
    StrictEdges(s);
    LoweredEdges(s, EncodeUriComponent(s));
    LoweredEdges(s, EncodeStrict(s));
    LoweredEdges(s, EncodeForm(s));
  }

  lemma EvenIsSided(word: char -> bool, s: string)
    requires WordClass(word) && s != "" && EvenEnds(word, s)
    ensures AllSided(word, AsciiAlnum(s[0]), Forms(s))
  {
    forall f | f in Forms(s) ensures Sided(word, AsciiAlnum(s[0]), f) {
      FormsHaveEdges(s, f);
    }
  }

  // ---------- which forms a text can hold ----------

  /** Something in `f` is not in `s`. */
  predicate Foreign(f: string, s: string) {
    exists i :: 0 <= i < |f| && f[i] !in s
  }

  lemma {:induction false} SpellChanges(spelling: char -> string, s: string) returns (i: nat)
    requires Spell(spelling, s) != s
    ensures i < |s| && spelling(s[i]) != [s[i]]
    ensures forall c <- spelling(s[i]) :: c in Spell(spelling, s)
  {
    if spelling(s[0]) != [s[0]] {
      i := 0;
    } else {
      i := SpellChanges(spelling, s[1..]);
      i := i + 1;
    }
  }

  lemma {:induction false} SpellKeeps(spelling: char -> string, s: string, c: char)
    requires c in s && spelling(c) == [c]
    ensures c in Spell(spelling, s)
  {
    if s[0] != c { SpellKeeps(spelling, s[1..], c); }
  }

  lemma {:induction false} LowerPercent(v: string)
    ensures '%' in v ==> '%' in Lower(v)
    ensures '%' !in v ==> Lower(v) == v
    decreases |v|
  {
    if v != "" {
      if v[0] == '%' {
        LowerEdges(v);
      } else {
        LowerPercent(v[1..]);
        assert Lower(v) == [v[0]] + Lower(v[1..]);
      }
    }
  }

  lemma UriForeign(s: string)
    ensures EncodeUriComponent(s) == s || '%' in EncodeUriComponent(s)
  {
    if EncodeUriComponent(s) != s {
      var i := SpellChanges(UriSpelling, s);
      assert UriSpelling(s[i])[0] == '%';
    }
  }

  lemma StrictForeign(s: string)
    ensures EncodeStrict(s) == s || '%' in EncodeStrict(s)
  {
    var e := EncodeUriComponent(s);
    UriForeign(s);
    if '%' in e {
      SpellKeeps(StrictSpelling, e, '%');
    } else if EncodeStrict(s) != s {
      var i := SpellChanges(StrictSpelling, s);
      assert StrictSpelling(s[i])[0] == '%';
    }
  }

  lemma FormForeign(s: string)
    requires '%' !in EncodeForm(s) && EncodeForm(s) != s
    ensures '+' in EncodeForm(s) && '+' !in s
  {
    var i := SpellChanges(FormSpelling, s);
    assert FormSpelling(s[i])[0] != '%';
    assert FormSpelling(s[i]) == "+";
    if '+' in s { SpellPercent(s); }
  }

  lemma {:induction false} SpellPercent(s: string)
    requires '+' in s
    ensures '%' in EncodeForm(s)
  {
    if s[0] == '+' { assert FormSpelling('+')[0] == '%'; } else { SpellPercent(s[1..]); }
  }

  /** A form other than the secret holds a character that the secret does not. */
  lemma OtherFormsForeign(s: string, f: string)
    requires '%' !in s && f in Forms(s) && f != s
    ensures Foreign(f, s)
  {
    FormsAre(s);
    UriForeign(s);
    StrictForeign(s);
    LowerPercent(EncodeUriComponent(s));
    LowerPercent(EncodeStrict(s));
    LowerPercent(EncodeForm(s));
    var c := '%';
    if c !in f {
      FormForeign(s);
      c := '+';
    }
    var i :| 0 <= i < |f| && f[i] == c;
  }

  /** The alternatives of a secret: itself, and others that hold a character it does not. */
  predicate OthersForeign(s: string, alts: seq<string>) {
    s in alts && forall f <- alts :: f == s || Foreign(f, s)
  }

  lemma AlternativesForeign(s: string)
    requires '%' !in s && s != "" && IsWeak(s)
    ensures OthersForeign(s, Alternatives(Forms(s)))
  {
    WeakForms(s);
    forall f | f in Alternatives(Forms(s)) ensures f == s || Foreign(f, s) {
      if f != s { OtherFormsForeign(s, f); }
    }
  }

  /** A text of the secret's own characters holds no form but the secret. */
  lemma OnlyRaw(word: char -> bool, s: string, alts: seq<string>, t: string)
    requires OthersForeign(s, alts) && TokenLength(word, t, alts).Some? && forall i :: 0 <= i < |t| ==> t[i] in s
    ensures Stands(word, t, s) && TokenLength(word, t, alts) == Some(|s|)
  {
    var f := FoundStands(word, t, alts);
  }

  // ---------- texts that fail ----------

  /** A text in which nothing after its start is a token, and its start is none or follows a letter or digit. */
  lemma {:induction false} Quiet(word: char -> bool, after: bool, t: string, alts: seq<string>)
    requires after || TokenLength(word, t, alts).None?
    requires forall k :: 0 < k < |t| ==> TokenLength(word, t[k..], alts).None?
    ensures ReplaceTokens(word, after, t, alts) == t
    decreases |t|
  {
    if t != "" {
      forall k | 0 < k < |t[1..]| ensures TokenLength(word, t[1..][k..], alts).None? {
        assert t[1..][k..] == t[k + 1..];
      }
      assert |t| > 1 ==> TokenLength(word, t[1..], alts).None?;
      Quiet(word, word(t[0]), t[1..], alts);
    }
  }

  /** Only the first half is masked, and what follows comes to stand after the mask. */
  lemma BaresSecond(word: char -> bool, s: string, g: string, f: string)
    requires WordClass(word) && s != "" && IsWeak(s) && !Blank(s) && g != "" && f in Forms(s) && f != ""
    requires word(Last(g)) && TokenLength(word, g + f, Alternatives(Forms(s))) == Some(|g|)
    requires forall k :: 0 < k < |f| ==> TokenLength(word, f[k..], Alternatives(Forms(s))).None?
    ensures ContainsSecret(word, RedactOne(word, g + f, s), s)
  {
    AlternativesHold(Forms(s), f);
    BaresAfterMask(word, Alternatives(Forms(s)), g, f);
  }

  lemma BaresAfterMask(word: char -> bool, alts: seq<string>, g: string, f: string)
    requires WordClass(word) && g != "" && f in alts && f != ""
    requires word(Last(g)) && TokenLength(word, g + f, alts) == Some(|g|)
    requires forall k :: 0 < k < |f| ==> TokenLength(word, f[k..], alts).None?
    ensures HasToken(word, false, ReplaceTokens(word, false, g + f, alts), alts)
  {
    var t, out := g + f, MASK + f;
    Quiet(word, true, f, alts);
    assert t[|g|..] == f && t[|g| - 1] == Last(g);
    assert ReplaceTokens(word, false, t, alts) == out;
    assert Stands(word, f, f);
    StandsFound(word, f, alts, f);
    assert out[|MASK|..] == f && out[|MASK| - 1] == '»';
    SuffixToken(word, false, out, |MASK|, alts);
  }

  lemma SecretIsToken(word: char -> bool, s: string, alts: seq<string>)
    requires s != "" && OthersForeign(s, alts)
    ensures TokenLength(word, s, alts) == Some(|s|)
  {
    assert Stands(word, s, s);
    StandsFound(word, s, alts, s);
    OnlyRaw(word, s, alts, s);
  }

  /** Within the first of two copies nothing stands: a copy there would be followed by its own first character. */
  lemma FirstCopyQuiet(word: char -> bool, s: string, alts: seq<string>, k: nat)
    requires OthersForeign(s, alts) && k < |s| && word(s[0])
    ensures TokenLength(word, s[k..] + s, alts).None?
  {
    var t := s[k..] + s;
    assert t[0] == s[k] && |t| > |s| && t[|s|] == s[k];
    if TokenLength(word, t, alts).Some? { OnlyRaw(word, s, alts, t); }
  }

  /** One character that starts no token is kept. */
  lemma KeepsOne(word: char -> bool, after: bool, c: char, t: string, alts: seq<string>)
    requires TokenLength(word, [c] + t, alts).None?
    ensures ReplaceTokens(word, after, [c] + t, alts) == [c] + ReplaceTokens(word, word(c), t, alts)
  {
    assert ([c] + t)[1..] == t;
  }

  /** No token starts within `p` in `p` + `t`. */
  predicate NoneStarts(word: char -> bool, p: string, t: string, alts: seq<string>) {
    p == "" || (TokenLength(word, p + t, alts).None? && NoneStarts(word, p[1..], t, alts))
  }

  lemma SplitFirst(p: string, t: string, r: string)
    requires p != ""
    ensures p + t == [p[0]] + (p[1..] + t) && p + r == [p[0]] + (p[1..] + r)
  {
  }

  /** A beginning of the text in which no token starts is kept, before what becomes of the rest. */
  lemma {:induction false} KeepsPrefix(
    word: char -> bool, after: bool, p: string, t: string, alts: seq<string>, r: string)
    requires p != "" && NoneStarts(word, p, t, alts) && r == ReplaceTokens(word, word(Last(p)), t, alts)
    ensures ReplaceTokens(word, after, p + t, alts) == p + r
    decreases |p|
  {
    SplitFirst(p, t, r);
    KeepsOne(word, after, p[0], p[1..] + t, alts);
    if |p| > 1 {
      KeepsPrefix(word, word(p[0]), p[1..], t, alts, r);
    } else {
      assert p[1..] + t == t && p[1..] + r == r;
    }
  }

  lemma {:induction false} FirstCopyKept(word: char -> bool, s: string, alts: seq<string>, k: nat)
    requires OthersForeign(s, alts) && k <= |s| && s != "" && word(s[0])
    ensures NoneStarts(word, s[k..], s, alts)
    decreases |s| - k
  {
    if k < |s| {
      FirstCopyKept(word, s, alts, k + 1);
      FirstCopyQuiet(word, s, alts, k);
      assert s[k..][1..] == s[k + 1..];
    }
  }

  lemma CopyMasked(word: char -> bool, s: string, alts: seq<string>)
    requires s != "" && OthersForeign(s, alts)
    ensures ReplaceTokens(word, false, s, alts) == MASK
  {
    SecretIsToken(word, s, alts);
    assert s[|s|..] == "";
    assert ReplaceTokens(word, word(Last(s)), "", alts) == "";
  }

  /** Written twice, a secret that starts with a letter or digit and does not end with one survives. */
  lemma TwiceBaresFirst(word: char -> bool, s: string)
    requires WordClass(word) && s != "" && IsWeak(s) && !Blank(s) && '%' !in s && word(s[0]) && !word(Last(s))
    ensures ContainsSecret(word, RedactOne(word, s + s, s), s)
  {
    var alts := Alternatives(Forms(s));
    WeakForms(s);
    AlternativesForeign(s);
    FirstCopyKept(word, s, alts, 0);
    assert s[0..] == s;
    CopyMasked(word, s, alts);
    KeepsPrefix(word, false, s, s, alts, MASK);
    assert Stands(word, s + MASK, s);
    StandsFound(word, s + MASK, alts, s);
  }

  // ---------- an escaped spelling, then the secret ----------

  /** The characters of a text, each escape counted as one. */
  function Weight(t: string): int {
    if t == "" then 0 else Weight(t[1..]) + if t[0] == '%' then -1 else 1
  }

  lemma {:induction false} WeightConcat(x: string, y: string)
    ensures Weight(x + y) == Weight(x) + Weight(y)
  {
    if x == "" {
      assert x + y == y;
    } else {
      assert (x + y)[1..] == x[1..] + y;
      WeightConcat(x[1..], y);
    }
  }

  lemma {:induction false} PlainWeight(t: string)
    requires '%' !in t
    ensures Weight(t) == |t|
  {
    if t != "" { PlainWeight(t[1..]); }
  }

  lemma PercentByteWeight(b: nat)
    requires b < 256
    ensures Weight(PercentByte(b)) == 1
  {
    EscapeWeight(Hex(b / 16), Hex(b % 16));
  }

  lemma AsciiPercentWeight(c: char)
    requires (c as int) < 128
    ensures Weight(Percent(c)) == 1
  {
    PercentByteWeight(c as int);
  }

  lemma OneWeight(c: char)
    ensures Weight([c]) == if c == '%' then -1 else 1
  {
    assert [c][1..] == "";
  }

  /** Both ways to spell a secret for a URL give each character the same weight. */
  lemma {:induction false} SpellWeights(s: string)
    ensures Weight(EncodeForm(s)) == Weight(EncodeUriComponent(s))
  {
    if s != "" {
      SpellWeights(s[1..]);
      WeightConcat(FormSpelling(s[0]), EncodeForm(s[1..]));
      WeightConcat(UriSpelling(s[0]), EncodeUriComponent(s[1..]));
      OneWeight(s[0]);
      OneWeight('+');
      if (s[0] as int) < 128 { AsciiPercentWeight(s[0]); }
    }
  }

  lemma {:induction false} StrictWeight(e: string)
    ensures Weight(Spell(StrictSpelling, e)) == Weight(e)
  {
    if e != "" {
      StrictWeight(e[1..]);
      WeightConcat(StrictSpelling(e[0]), Spell(StrictSpelling, e[1..]));
      OneWeight(e[0]);
      if (e[0] as int) < 128 { AsciiPercentWeight(e[0]); }
    }
  }

  lemma {:induction false} LowerWeight(v: string)
    ensures Weight(Lower(v)) == Weight(v)
    decreases |v|
  {
    if v != "" {
      if |v| >= 3 && v[0] == '%' && UpperHex(v[1]) && UpperHex(v[2]) {
        var x := ['%', LowerHex(v[1]), LowerHex(v[2])];
        LowerWeight(v[3..]);
        assert v == ['%', v[1], v[2]] + v[3..];
        WeightConcat(['%', v[1], v[2]], v[3..]);
        WeightConcat(x, Lower(v[3..]));
        EscapeWeight(v[1], v[2]);
        EscapeWeight(LowerHex(v[1]), LowerHex(v[2]));
      } else {
        LowerWeight(v[1..]);
        assert Lower(v)[1..] == Lower(v[1..]);
      }
    }
  }

  lemma EscapeWeight(a: char, b: char)
    requires a != '%' && b != '%'
    ensures Weight(['%', a, b]) == 1
  {
    OneWeight('%');
    OneWeight(a);
    OneWeight(b);
    WeightConcat([a], [b]);
    WeightConcat(['%'], [a] + [b]);
    assert ['%'] + ([a] + [b]) == ['%', a, b];
  }

  lemma FormWeights(s: string, f: string)
    requires f in Forms(s) && f != s
    ensures Weight(f) == Weight(EncodeUriComponent(s))
  {
    FormsAre(s);
    SpellWeights(s);
    StrictWeight(EncodeUriComponent(s));
    LowerWeight(EncodeUriComponent(s));
    LowerWeight(EncodeStrict(s));
    LowerWeight(EncodeForm(s));
  }

  // ---------- which alternative is taken ----------

  predicate LongestFirst(alts: seq<string>) {
    forall i, j :: 0 <= i < j < |alts| ==> Units(alts[i]) >= Units(alts[j])
  }

  lemma {:induction false} InsertLongestFirst(f: string, fs: seq<string>)
    requires LongestFirst(fs)
    ensures LongestFirst(InsertByLength(f, fs))
    ensures forall x :: x in InsertByLength(f, fs) <==> x == f || x in fs
  {
    if fs != [] && Units(f) < Units(fs[0]) {
      InsertLongestFirst(f, fs[1..]);
      var rest := InsertByLength(f, fs[1..]);
      forall j | 0 <= j < |rest| ensures Units(fs[0]) >= Units(rest[j]) {
        assert rest[j] in rest;
        if rest[j] != f {
          var i :| 0 <= i < |fs[1..]| && fs[1..][i] == rest[j];
        }
      }
    }
  }

  lemma {:induction false} AlternativesLongestFirst(forms: seq<string>)
    ensures LongestFirst(Alternatives(forms))
  {
    if forms != [] {
      AlternativesLongestFirst(forms[1..]);
      InsertLongestFirst(forms[0], Alternatives(forms[1..]));
    }
  }

  /** The alternative taken is no shorter than any that stands. */
  lemma {:induction false} LongestTaken(word: char -> bool, t: string, alts: seq<string>, e: string)
    returns (h: string)
    requires LongestFirst(alts) && e in alts && e != "" && Stands(word, t, e)
    ensures h in alts && Stands(word, t, h) && TokenLength(word, t, alts) == Some(|h|) && Units(h) >= Units(e)
  {
    if alts[0] != "" && Stands(word, t, alts[0]) {
      h := alts[0];
    } else {
      h := LongestTaken(word, t, alts[1..], e);
    }
  }

  lemma {:induction false} AsciiUnits(s: string)
    requires Ascii(s)
    ensures Units(s) == |s|
  {
    if s != "" {
      assert (s[0] as int) < 128;
      AsciiUnits(s[1..]);
    }
  }

  // ---------- no spelling starts with the secret ----------

  lemma {:induction false} SpellPrefix(spelling: char -> string, s: string)
    requires '%' !in s && s <= Spell(spelling, s)
    requires forall c :: c != '%' ==> spelling(c) == [c] || (spelling(c) != "" && spelling(c)[0] != c)
    ensures Spell(spelling, s) == s
  {
    if s != "" {
      var (x, rest) := (spelling(s[0]), Spell(spelling, s[1..]));
      assert (x + rest)[0] == s[0];
      assert x == [s[0]];
      assert (x + rest)[1..] == rest;
      SpellPrefix(spelling, s[1..]);
    }
  }

  lemma {:induction false} StrictPrefix(v: string, s: string)
    requires '%' !in s && s <= Spell(StrictSpelling, v)
    ensures s <= v
  {
    if s != "" {
      var (x, rest) := (StrictSpelling(v[0]), Spell(StrictSpelling, v[1..]));
      assert (x + rest)[0] == s[0] && s[0] in s;
      assert x == [v[0]];
      assert (x + rest)[1..] == rest;
      StrictPrefix(v[1..], s[1..]);
    }
  }

  lemma {:induction false} LowerPrefix(v: string, s: string)
    requires '%' !in s && s <= Lower(v)
    ensures s <= v
    decreases |v|
  {
    if s != "" {
      assert Lower(v)[0] == s[0] && s[0] in s;
      assert Lower(v)[1..] == Lower(v[1..]);
      LowerPrefix(v[1..], s[1..]);
    }
  }

  lemma SpelledNoPrefix(s: string)
    requires '%' !in s
    ensures s <= EncodeUriComponent(s) ==> EncodeUriComponent(s) == s
    ensures s <= EncodeForm(s) ==> EncodeForm(s) == s
    ensures s <= EncodeStrict(s) ==> EncodeStrict(s) == s
  {
    var e := EncodeUriComponent(s);
    if s <= e { SpellPrefix(UriSpelling, s); }
    if s <= EncodeForm(s) { SpellPrefix(FormSpelling, s); }
    if s <= EncodeStrict(s) {
      StrictPrefix(e, s);
      SpellPrefix(StrictSpelling, s);
    }
  }

  lemma LoweredNoPrefix(s: string, v: string)
    requires '%' !in s && (s <= v ==> v == s)
    ensures s <= Lower(v) ==> Lower(v) == s
  {
    if s <= Lower(v) {
      LowerPrefix(v, s);
      LowerPercent(v);
    }
  }

  /** A form that starts with the secret is the secret. */
  lemma RawIsNoPrefix(s: string, f: string)
    requires '%' !in s && f in Forms(s) && s <= f
    ensures f == s
  {
    FormsAre(s);
    SpelledNoPrefix(s);
    LoweredNoPrefix(s, EncodeUriComponent(s));
    LoweredNoPrefix(s, EncodeStrict(s));
    LoweredNoPrefix(s, EncodeForm(s));
  }

  // ---------- ends that differ ----------

  /** Of two escaped spellings, neither goes on with the secret where the other ends. */
  lemma SpellingsEndTogether(s: string, e: string, h: string)
    requires '%' !in s && e in Forms(s) && h in Forms(s) && e != s && h != s && h <= e + s && |h| >= |e|
    ensures h == e
  {
    var k := |h| - |e|;
    assert h == e + s[..k];
    WeightConcat(e, s[..k]);
    FormWeights(s, e);
    FormWeights(s, h);
    PlainWeight(s[..k]);
  }

  /** At the start of a form followed by the secret, that form is taken. */
  lemma FormIsTaken(word: char -> bool, s: string, e: string)
    requires s != "" && IsWeak(s) && '%' !in s && e in Forms(s) && e != s && e != "" && !word(s[0])
    ensures TokenLength(word, e + s, Alternatives(Forms(s))) == Some(|e|)
  {
    WeakForms(s);
    AlternativesLongestFirst(Forms(s));
    assert Stands(word, e + s, e);
    var h := LongestTaken(word, e + s, Alternatives(Forms(s)), e);
    if h == s {
      FormsNotShorter(s, e);
      assert s <= e;
      RawIsNoPrefix(s, e);
    } else {
      FormsAscii(s, e);
      FormsAscii(s, h);
      AsciiUnits(e);
      AsciiUnits(h);
      SpellingsEndTogether(s, e, h);
    }
  }

  /** A form that ends with a letter or digit, then a secret that starts with neither. */
  lemma FormThenSecretFails(word: char -> bool, s: string, e: string)
    requires WordClass(word) && s != "" && IsWeak(s) && !Blank(s) && '%' !in s && !word(s[0])
    requires e in Forms(s) && e != "" && word(Last(e))
    ensures ContainsSecret(word, RedactOne(word, e + s, s), s)
  {
    var alts := Alternatives(Forms(s));
    AlternativesForeign(s);
    FormsNonEmpty(s);
    if e == s {
      assert Stands(word, s + s, s);
      StandsFound(word, s + s, alts, s);
      OnlyRaw(word, s, alts, s + s);
    } else {
      FormIsTaken(word, s, e);
    }
    forall k | 0 < k < |s| ensures TokenLength(word, s[k..], alts).None? {
      if TokenLength(word, s[k..], alts).Some? { OnlyRaw(word, s, alts, s[k..]); }
    }
    BaresSecond(word, s, e, s);
  }

  /** Where no spelling keeps the last character and it is no letter or digit, some form ends with a hex digit. */
  lemma EscapedEnd(word: char -> bool, s: string) returns (e: string)
    requires WordClass(word) && s != "" && !word(Last(s)) && Last(s) !in "-_."
    ensures e in Forms(s) && e != "" && word(Last(e))
  {
    var c := Last(s);
    FormsAre(s);
    FormsNonEmpty(s);
    SpellingsHaveEdges();
    PercentEdges(c);
    SpellEdges(UriSpelling, s);
    SpellEdges(FormSpelling, s);
    SpellEdges(StrictSpelling, EncodeUriComponent(s));
    e := if c == ' ' then EncodeUriComponent(s) else if c == '*' then EncodeStrict(s) else EncodeForm(s);
  }

  lemma {:induction false} ShortestOther(forms: seq<string>, s: string) returns (f: string)
    requires exists x <- forms :: x != s
    ensures f in forms && f != s && forall h <- forms :: h != s ==> |f| <= |h|
  {
    if exists x <- forms[1..] :: x != s {
      f := ShortestOther(forms[1..], s);
      if forms[0] != s && |forms[0]| < |f| { f := forms[0]; }
    } else {
      assert forall x <- forms :: x == forms[0] || x in forms[1..];
      f := forms[0];
    }
  }

  /** A secret that starts beyond ASCII is taken before its escaped spelling, in which nothing shorter stands. */
  lemma SecretIsTaken(word: char -> bool, s: string, alts: seq<string>, f: string)
    requires s != "" && (s[0] as int) >= 128 && s in alts && forall h <- alts :: h != s ==> Ascii(h) && |f| <= |h|
    requires f != "" && Ascii(f) && !word(f[0])
    ensures TokenLength(word, s + f, alts) == Some(|s|)
    ensures forall k :: 0 < k < |f| ==> TokenLength(word, f[k..], alts).None?
  {
    assert Stands(word, s + f, s);
    StandsFound(word, s + f, alts, s);
    var h := FoundStands(word, s + f, alts);
    forall k | 0 < k < |f| ensures TokenLength(word, f[k..], alts).None? {
      assert (f[k] as int) < 128;
      if TokenLength(word, f[k..], alts).Some? { var x := FoundStands(word, f[k..], alts); }
    }
  }

  lemma OthersAscii(s: string)
    requires s != "" && IsWeak(s)
    ensures forall h <- Alternatives(Forms(s)) :: h != s ==> Ascii(h)
  {
    WeakForms(s);
    forall h | h in Alternatives(Forms(s)) && h != s ensures Ascii(h) { FormsAscii(s, h); }
  }

  lemma EscapedStart(word: char -> bool, s: string, f: string)
    requires WordClass(word) && s != "" && (s[0] as int) >= 128 && f in Forms(s) && f != s
    ensures f != "" && Ascii(f) && !word(f[0])
  {
    FormsAscii(s, f);
    FormsHaveEdges(s, f);
    assert (f[0] as int) < 128;
  }

  /** A secret that starts with a letter beyond ASCII, then its shortest escaped spelling. */
  lemma SecretThenFormFails(word: char -> bool, s: string, f: string)
    requires WordClass(word) && s != "" && IsWeak(s) && !Blank(s) && (s[0] as int) >= 128 && word(Last(s))
    requires f in Forms(s) && f != s && forall h <- Forms(s) :: h != s ==> |f| <= |h|
    ensures ContainsSecret(word, RedactOne(word, s + f, s), s)
  {
    var alts := Alternatives(Forms(s));
    EscapedStart(word, s, f);
    OthersAscii(s);
    WeakForms(s);
    SecretIsTaken(word, s, alts, f);
    BaresSecond(word, s, s, f);
  }

  /** A secret that starts with a letter beyond ASCII fails on some text. */
  lemma BeyondAsciiFails(word: char -> bool, s: string)
    requires WordClass(word) && s != "" && IsWeak(s) && !Blank(s) && (s[0] as int) >= 128 && word(Last(s))
    ensures !AlwaysProven(word, [s])
  {
    EncodedAscii(s);
    FormsAre(s);
    assert EncodeUriComponent(s) in Forms(s);
    var f := ShortestOther(Forms(s), s);
    SecretThenFormFails(word, s, f);
    FailsOn(word, s + f, s);
  }

  /** A secret with one end of each kind fails on itself written twice. */
  lemma TwiceFails(word: char -> bool, s: string)
    requires WordClass(word) && s != "" && IsWeak(s) && !Blank(s) && '%' !in s && word(s[0]) != word(Last(s))
    ensures !Proven(word, RedactText(word, s + s, [s]), [s])
  {
    FormsNonEmpty(s);
    if word(s[0]) { TwiceBaresFirst(word, s); } else { FormThenSecretFails(word, s, s); }
    OnePass(word, s + s, s);
    assert [s][0] == s;
  }

  lemma UnevenFails(word: char -> bool, s: string)
    requires WordClass(word) && s != "" && IsWeak(s) && !Blank(s) && '%' !in s && !EvenEnds(word, s)
    ensures !AlwaysProven(word, [s])
  {
    if word(s[0]) != word(Last(s)) {
      TwiceFails(word, s);
    } else if word(s[0]) {
      BeyondAsciiFails(word, s);
    } else {
      var e := EscapedEnd(word, s);
      FormThenSecretFails(word, s, e);
      FailsOn(word, e + s, s);
    }
  }

  /** A short secret alone is always removed if its ends are even; unless it holds a percent sign, only then. */
  lemma ShortAlone(word: char -> bool, s: string)
    requires WordClass(word) && IsWeak(s) && !Blank(s)
    ensures EvenEnds(word, s) ==> AlwaysProven(word, [s])
    ensures '%' !in s ==> (AlwaysProven(word, [s]) <==> EvenEnds(word, s))
  {
    if EvenEnds(word, s) {
      EvenIsSided(word, s);
      ScrubSatisfiesProof(word, AsciiAlnum(s[0]), [s]);
    } else if '%' !in s {
      UnevenFails(word, s);
    }
  }
}
