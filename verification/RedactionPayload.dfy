/** What the check finds of a strong secret in a structured payload, of which it reads the JSON text alone. */
module RedactionPayload {
  import opened Characters
  import opened Json
  import opened CanonicalJson
  import opened JsonText
  import opened SecretForms
  import opened Redaction
  import opened RedactionProofs
  import opened RedactionAlone
  import opened RedactionShort

  /** JSON writes the text as it is. */
  predicate Plain(s: string) {
    forall i :: 0 <= i < |s| ==> EscapeChar(s[i]) == [s[i]]
  }

  // ---------- a plain text in a string is in the JSON text ----------

  lemma {:induction false} IncludesMore(x: string, b: string, f: string)
    requires Includes(x, f)
    ensures Includes(x + b, f)
  {
    if !(f <= x) {
      assert (x + b)[1..] == x[1..] + b;
      IncludesMore(x[1..], b, f);
    }
  }

  lemma IncludesWithin(a: string, x: string, b: string, f: string)
    requires Includes(x, f)
    ensures Includes(a + x + b, f)
  {
    IncludesMore(x, b, f);
    assert (a + x + b)[|a|..] == x + b;
    SuffixIncludes(a + x + b, |a|, f);
  }

  lemma {:induction false} EscapePrefix(x: string, f: string)
    requires f <= x && Plain(f)
    ensures f <= CanonicalJson.Escape(x)
  {
    if f != "" {
      assert EscapeChar(f[0]) == [f[0]];
      EscapePrefix(x[1..], f[1..]);
    }
  }

  lemma {:induction false} EscapeKeepsPlain(x: string, f: string)
    requires Includes(x, f) && Plain(f)
    ensures Includes(CanonicalJson.Escape(x), f)
  {
    if f <= x {
      EscapePrefix(x, f);
    } else {
      EscapeKeepsPlain(x[1..], f);
      IncludesWithin(EscapeChar(x[0]), CanonicalJson.Escape(x[1..]), "", f);
      assert CanonicalJson.Escape(x) == EscapeChar(x[0]) + CanonicalJson.Escape(x[1..]) + "";
    }
  }

  lemma QuoteKeepsPlain(x: string, f: string)
    requires Includes(x, f) && Plain(f)
    ensures Includes(Quote(x), f)
  {
    EscapeKeepsPlain(x, f);
    IncludesWithin("\"", CanonicalJson.Escape(x), "\"", f);
  }

  /** A plain text in any string or key of a value is in its JSON text. */
  lemma {:induction false} StringifyKeepsPlain(j: Json, x: string, f: string)
    requires WellFormed(j) && Holds(j, x) && Includes(x, f) && Plain(f)
    ensures Includes(Stringify(j), f)
    decreases j, 1, 0
  {
    match j
    case Str(_) => QuoteKeepsPlain(x, f);
    case Arr(items) =>
      var i :| 0 <= i < |items| && Holds(items[i], x);
      ItemsKeepPlain(j, items, i, x, f);
      IncludesWithin("[", StringifyItems(j, items), "]", f);
    case Obj(keys, fields) =>
      var k :| k in fields && (k == x || Holds(fields[k], x));
      var i :| 0 <= i < |keys| && keys[i] == k;
      MembersKeepPlain(j, keys, i, x, f);
      IncludesWithin("{", StringifyMembers(j, keys), "}", f);
  }

  lemma {:induction false} ItemsKeepPlain(whole: Json, items: seq<Json>, i: nat, x: string, f: string)
    requires forall k :: 0 <= k < |items| ==> items[k] < whole && WellFormed(items[k])
    requires i < |items| && Holds(items[i], x) && Includes(x, f) && Plain(f)
    ensures Includes(StringifyItems(whole, items), f)
    decreases whole, 0, |items|
  {
    if i == 0 { StringifyKeepsPlain(items[0], x, f); } else { ItemsKeepPlain(whole, items[1..], i - 1, x, f); }
    if |items| > 1 {
      var first, rest := Stringify(items[0]), StringifyItems(whole, items[1..]);
      assert first + "," + rest == "" + first + ("," + rest);
      assert first + "," + rest == (first + ",") + rest + "";
      if i == 0 { IncludesWithin("", first, "," + rest, f); } else { IncludesWithin(first + ",", rest, "", f); }
    }
  }

  lemma MemberKeepsPlain(whole: Json, key: string, x: string, f: string)
    requires whole.Obj? && WellFormed(whole) && key in whole.fields && Includes(x, f) && Plain(f)
    requires key == x || Includes(Stringify(whole.fields[key]), f)
    ensures Includes(Quote(key) + ":" + Stringify(whole.fields[key]), f)
  {
    var q, v := Quote(key), Stringify(whole.fields[key]);
    if key == x {
      QuoteKeepsPlain(x, f);
      IncludesWithin("", q, ":" + v, f);
      assert "" + q + (":" + v) == q + ":" + v;
    } else {
      IncludesWithin(q + ":", v, "", f);
      assert (q + ":") + v + "" == q + ":" + v;
    }
  }

  lemma {:induction false} MembersKeepPlain(whole: Json, keys: seq<string>, i: nat, x: string, f: string)
    requires whole.Obj? && WellFormed(whole) && forall k <- keys :: k in whole.fields
    requires i < |keys| && (keys[i] == x || Holds(whole.fields[keys[i]], x)) && Includes(x, f) && Plain(f)
    ensures Includes(StringifyMembers(whole, keys), f)
    decreases whole, 0, |keys|
  {
    if i == 0 {
      if keys[0] != x { StringifyKeepsPlain(whole.fields[keys[0]], x, f); }
      MemberKeepsPlain(whole, keys[0], x, f);
    } else {
      MembersKeepPlain(whole, keys[1..], i - 1, x, f);
    }
    if |keys| > 1 {
      var first, rest := Quote(keys[0]) + ":" + Stringify(whole.fields[keys[0]]), StringifyMembers(whole, keys[1..]);
      assert first + "," + rest == "" + first + ("," + rest);
      assert first + "," + rest == (first + ",") + rest + "";
      if i == 0 { IncludesWithin("", first, "," + rest, f); } else { IncludesWithin(first + ",", rest, "", f); }
    }
  }

  // ---------- escaped spellings are plain ----------

  /** Nothing but escapes. */
  predicate Escaped(s: string) { forall x <- s :: x == '%' || UpperHex(x) }

  lemma PercentByteEscaped(b: nat)
    requires b < 256
    ensures Escaped(PercentByte(b))
  {
  }

  lemma PercentEscaped(c: char)
    ensures Escaped(Percent(c))
  {
    forall b: nat | b < 256 ensures Escaped(PercentByte(b)) { PercentByteEscaped(b); }
  }

  lemma PercentPlain(c: char)
    ensures Plain(Percent(c))
  {
    PercentEscaped(c);
    var p := Percent(c);
    forall i | 0 <= i < |p| ensures EscapeChar(p[i]) == [p[i]] { assert p[i] in p; }
  }

  lemma CharPlain(c: char)
    ensures Plain(UriSpelling(c)) && Plain(FormSpelling(c)) && (Plain([c]) ==> Plain(StrictSpelling(c)))
  {
    PercentPlain(c);
  }

  lemma {:induction false} SpellPlain(spelling: char -> string, s: string)
    requires forall i :: 0 <= i < |s| ==> Plain(spelling(s[i]))
    ensures Plain(Spell(spelling, s))
  {
    if s != "" { SpellPlain(spelling, s[1..]); }
  }

  lemma {:induction false} LowerPlain(v: string)
    requires Plain(v)
    ensures Plain(Lower(v))
    decreases |v|
  {
    if v != "" {
      LowerPlain(v[if |v| >= 3 && v[0] == '%' && UpperHex(v[1]) && UpperHex(v[2]) then 3 else 1..]);
    }
  }

  lemma SpellingsPlain(s: string)
    ensures Plain(EncodeUriComponent(s)) && Plain(EncodeStrict(s)) && Plain(EncodeForm(s))
  {
    var e := EncodeUriComponent(s);
    forall i | 0 <= i < |s| ensures Plain(UriSpelling(s[i])) && Plain(FormSpelling(s[i])) { CharPlain(s[i]); }
    SpellPlain(UriSpelling, s);
    SpellPlain(FormSpelling, s);
    forall i | 0 <= i < |e| ensures Plain(StrictSpelling(e[i])) {
      assert EscapeChar(e[i]) == [e[i]] && Plain([e[i]]);
      CharPlain(e[i]);
    }
    SpellPlain(StrictSpelling, e);
  }

  lemma OtherFormsPlain(s: string, f: string)
    requires f in Forms(s) && f != s
    ensures Plain(f)
  {
    FormsAre(s);
    SpellingsPlain(s);
    LowerPlain(EncodeUriComponent(s));
    LowerPlain(EncodeStrict(s));
    LowerPlain(EncodeForm(s));
  }

  // ---------- what is read ----------

  ghost predicate IsPlace(x: string) { exists n: nat :: x == PrintNat(n) }

  /** What is read of a value besides its strings and keys: the key it was given, and the places in arrays. */
  ghost predicate Incidental(key: string, x: string) { x == key || IsPlace(x) }

  /** Nothing else is read. */
  lemma {:induction false} VisitsOnly(key: string, j: Json, x: string)
    requires WellFormed(j) && x in Visited(key, j)
    ensures Holds(j, x) || Incidental(key, x)
    decreases j, 1, 0
  {
    match j
    case Arr(items) => if x in VisitedItems(j, items, 0) { VisitsOnlyItems(j, items, 0, x); }
    case Obj(keys, _) => if x in VisitedMembers(j, keys) { VisitsOnlyMembers(j, keys, x); }
    case _ =>
  }

  lemma {:induction false} VisitsOnlyItems(whole: Json, items: seq<Json>, n: nat, x: string)
    requires n <= |items| && forall i :: 0 <= i < |items| ==> items[i] < whole && WellFormed(items[i])
    requires x in VisitedItems(whole, items, n)
    ensures (exists i :: n <= i < |items| && Holds(items[i], x)) || IsPlace(x)
    decreases whole, 0, |items| - n
  {
    if x in Visited(PrintNat(n), items[n]) {
      var key, first := PrintNat(n), items[n];
      VisitsOnly(key, first, x);
      assert Holds(items[n], x) || IsPlace(x);
    } else {
      VisitsOnlyItems(whole, items, n + 1, x);
    }
  }

  lemma {:induction false} VisitsOnlyMembers(whole: Json, keys: seq<string>, x: string)
    requires whole.Obj? && WellFormed(whole) && forall k <- keys :: k in whole.fields
    requires x in VisitedMembers(whole, keys)
    ensures (exists k :: k in keys && (k == x || Holds(whole.fields[k], x))) || IsPlace(x)
    decreases whole, 0, |keys|
  {
    if x in Visited(keys[0], whole.fields[keys[0]]) {
      var key, first := keys[0], whole.fields[keys[0]];
      VisitsOnly(key, first, x);
      assert key in keys && (key == x || Holds(first, x) || IsPlace(x));
    } else {
      VisitsOnlyMembers(whole, keys[1..], x);
    }
  }

  /** Some text of the value contains the secret: a string, a key, or what is read besides. */
  ghost predicate SomeTextContains(word: char -> bool, j: Json, s: string) {
    exists x :: (Holds(j, x) || Incidental("", x)) && ContainsSecret(word, x, s)
  }

  /** Where a secret is found: in a text; in the JSON text of a value; a short one also in one of its texts alone. */
  lemma LeaksExactly(word: char -> bool, payload: Payload, s: string)
    requires ValidPayload(payload)
    ensures payload.Text? ==> (Leaks(word, payload, s) <==> ContainsSecret(word, payload.text, s))
    ensures payload.NoText? ==> !Leaks(word, payload, s)
    ensures payload.Structured? && ContainsSecret(word, Stringify(payload.json), s) ==> Leaks(word, payload, s)
    ensures payload.Structured? && Units(s) < 6
            && (exists x :: Holds(payload.json, x) && ContainsSecret(word, x, s))
            ==> Leaks(word, payload, s)
    ensures payload.Structured? && Leaks(word, payload, s) ==>
              || ContainsSecret(word, Stringify(payload.json), s)
              || (Units(s) < 6 && SomeTextContains(word, payload.json, s))
  {
    if payload.Structured? {
      var j := payload.json;
      if x :| Holds(j, x) && ContainsSecret(word, x, s) { VisitsAll("", j, x); }
      if x :| x in Visited("", j) && ContainsSecret(word, x, s) { VisitsOnly("", j, x); }
    }
  }

  /** A scrubbed text is returned exactly when none of the secrets but empty ones is left in it. */
  lemma ProvenExactly(word: char -> bool, out: string, secrets: seq<string>)
    ensures Proven(word, out, secrets) <==> forall s <- secrets :: |s| > 0 ==> !ContainsSecret(word, out, s)
  {
    if Proven(word, out, secrets) {
      forall s | s in secrets && |s| > 0 ensures !ContainsSecret(word, out, s) {
        var i :| 0 <= i < |secrets| && secrets[i] == s;
      }
    }
  }

  // ---------- what is found, and what is not ----------

  /**
   * A strong secret in any string or key of a value is found, unless JSON escapes one of its characters and only
   * its raw value is there.
   */
  lemma StrongSecretsInStringsLeak(word: char -> bool, j: Json, x: string, s: string)
    requires WellFormed(j) && Holds(j, x) && !IsWeak(s) && ContainsSecret(word, x, s)
    requires Plain(s) || !Includes(x, s)
    ensures Leaks(word, Structured(j), s)
  {
    var f :| f in Forms(s) && Includes(x, f);
    if f != s { OtherFormsPlain(s, f); }
    StringifyKeepsPlain(j, x, f);
  }

  lemma {:induction false} LettersEscape(a: string, b: string)
    requires Letters(a)
    ensures CanonicalJson.Escape(a + b) == a + CanonicalJson.Escape(b)
  {
    if a == "" {
      assert a + b == b;
    } else {
      var rest, e := a[1..], CanonicalJson.Escape(b);
      LettersEscape(rest, b);
      assert AsciiAlnum(a[0]) && EscapeChar(a[0]) == [a[0]];
      SplitFirst(a, b, e);
      assert ([a[0]] + (rest + b))[1..] == rest + b;
    }
  }

  lemma QuoteQuoted(a: string, b: string)
    requires Letters(a) && Letters(b)
    ensures Quote(a + "\"" + b) == "\"" + a + "\\\"" + b + "\""
  {
    var q := "\"" + b;
    LettersEscape(b, "");
    assert b + "" == b;
    assert q[0] == '"' && q[1..] == b;
    assert CanonicalJson.Escape(q) == "\\\"" + b;
    LettersEscape(a, q);
    Regroup("\"", a, "\\\"", b);
    assert a + "\"" + b == a + q;
  }

  lemma Regroup(x: string, a: string, y: string, b: string)
    ensures x + (a + (y + b)) + x == x + a + y + b + x
  {
  }

  /** The JSON text of a quotation mark between letters does not hold it as it is. */
  lemma QuotedIsEscaped(a: string, b: string, s: string, t: string)
    requires a != "" && b != "" && Letters(a) && Letters(b)
    requires s == a + "\"" + b && t == "\"" + a + "\\\"" + b + "\""
    ensures !Includes(t, s)
  {
    var n := |a|;
    assert forall i :: 0 <= i < n ==> AsciiAlnum(a[i]);
    assert forall i :: 0 <= i < |b| ==> AsciiAlnum(b[i]);
    assert forall p :: 0 < p < |t| - 1 && t[p] == '"' ==> p == n + 2;
    assert s[n] == '"' && s[n - 1] == a[n - 1] != '\\' && t[n + 1] == '\\';
    if Includes(t, s) { var k := IncludedAt(t, s); }
  }

  /** A strong secret with a quotation mark between letters is not found, though a string of the payload is it. */
  lemma QuotedSecretIsMissed(word: char -> bool, a: string, b: string)
    requires a != "" && b != "" && Letters(a) && Letters(b) && !IsWeak(a + "\"" + b)
    ensures var s := a + "\"" + b;
            && Holds(Str(s), s) && ContainsSecret(word, s, s)
            && !Leaks(word, Structured(Str(s)), s)
  {
    var s := a + "\"" + b;
    var t := Quote(s);
    FormsNonEmpty(s);
    assert Includes(s, s);
    QuoteQuoted(a, b);
    QuotedIsEscaped(a, b, s, t);
    assert '%' !in s;
    forall f | f in Forms(s) ensures !Includes(t, f) {
      if f != s {
        OtherFormsForeign(s, f);
        OtherFormsPlain(s, f);
        var i :| 0 <= i < |f| && f[i] !in s;
        assert f[i] != '\\' && f[i] !in t;
        if Includes(t, f) { var k := IncludedAt(t, f); }
      }
    }
  }
}
