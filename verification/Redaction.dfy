/**
 * The scrub and the check that re-reads its result (redaction.ts, credential-guard.ts). `word` is
 * the class of Unicode letters and digits, of which only the facts in `WordClass` are used.
 */
module Redaction {
  import opened Wrappers
  import opened Characters
  import opened SecretForms
  import opened Json
  import opened JsonText

  const MASK := "«redacted»"

  ghost predicate WordClass(word: char -> bool) {
    (forall c :: c as int < 128 ==> (word(c) <==> AsciiAlnum(c))) && !word('«') && !word('»')
  }

  // ---------- matching ----------

  /** `text.includes(form)`. */
  predicate Includes(text: string, form: string) {
    form <= text || (text != "" && Includes(text[1..], form))
  }

  /** Longer forms first; forms of one length keep their order. */
  function InsertByLength(f: string, fs: seq<string>): seq<string> {
    if fs == [] || Units(f) >= Units(fs[0]) then [f] + fs else [fs[0]] + InsertByLength(f, fs[1..])
  }

  /** The alternatives of a secret's pattern, in the order they are tried. */
  function Alternatives(forms: seq<string>): seq<string> {
    if forms == [] then [] else InsertByLength(forms[0], Alternatives(forms[1..]))
  }

  /** The length of the first alternative that stands at the start of `t` with no letter or digit after it. */
  function TokenLength(word: char -> bool, t: string, alts: seq<string>): (n: Option<nat>)
    ensures n.Some? ==> 0 < n.value <= |t|
  {
    if alts == [] then None
    else if alts[0] != "" && alts[0] <= t && (|alts[0]| == |t| || !word(t[|alts[0]|])) then Some(|alts[0]|)
    else TokenLength(word, t, alts[1..])
  }

  /** Some alternative stands in `t` as a token; `after` says whether a letter or digit precedes `t`. */
  predicate HasToken(word: char -> bool, after: bool, t: string, alts: seq<string>)
    decreases |t|
  {
    t != "" && ((!after && TokenLength(word, t, alts).Some?) || HasToken(word, word(t[0]), t[1..], alts))
  }

  /** `containsSecret`. */
  predicate ContainsSecret(word: char -> bool, text: string, secret: string) {
    if IsWeak(secret) then HasToken(word, false, text, Alternatives(Forms(secret)))
    else exists f <- Forms(secret) :: Includes(text, f)
  }

  // ---------- replacing ----------

  /** `text.split(form).join(MASK)`. */
  function ReplaceForm(t: string, form: string): string
    requires form != ""
    decreases |t|
  {
    if t == "" then ""
    else if form <= t then MASK + ReplaceForm(t[|form|..], form)
    else [t[0]] + ReplaceForm(t[1..], form)
  }

  /** `text.replace(pattern, MASK)`: look-behind reads the original text. */
  function ReplaceTokens(word: char -> bool, after: bool, t: string, alts: seq<string>): string
    decreases |t|
  {
    if t == "" then ""
    else
      match if after then None else TokenLength(word, t, alts)
      case Some(n) => MASK + ReplaceTokens(word, word(t[n - 1]), t[n..], alts)
      case None => [t[0]] + ReplaceTokens(word, word(t[0]), t[1..], alts)
  }

  predicate NonEmpty(forms: seq<string>) {
    forall i :: 0 <= i < |forms| ==> forms[i] != ""
  }

  function ReplaceForms(t: string, forms: seq<string>): string
    requires NonEmpty(forms)
  {
    if forms == [] then t else ReplaceForm(ReplaceForms(t, forms[..|forms| - 1]), forms[|forms| - 1])
  }

  /** One secret's pass over the text. */
  function RedactOne(word: char -> bool, t: string, secret: string): string {
    if Blank(secret) then t
    else if IsWeak(secret) then ReplaceTokens(word, false, t, Alternatives(Forms(secret)))
    else FormsNonEmpty(secret); ReplaceForms(t, Forms(secret))
  }

  /** `redactText`: one pass per secret, in order. */
  function RedactText(word: char -> bool, text: string, secrets: seq<string>): string {
    if secrets == [] then text
    else RedactOne(word, RedactText(word, text, secrets[..|secrets| - 1]), secrets[|secrets| - 1])
  }

  /** The outer loop of `redactText`. */
  method RedactTextLoop(word: char -> bool, text: string, secrets: seq<string>) returns (out: string)
    ensures out == RedactText(word, text, secrets)
  {
    out := text;
    for i := 0 to |secrets|
      invariant out == RedactText(word, text, secrets[..i])
    {
      var s := secrets[i];
      assert secrets[..i + 1][..i] == secrets[..i];
      if Blank(s) { continue; }
      if IsWeak(s) {
        out := ReplaceTokens(word, false, out, Alternatives(Forms(s)));
      } else {
        FormsNonEmpty(s);
        out := ReplaceFormsLoop(out, Forms(s));
      }
    }
    assert secrets[..|secrets|] == secrets;
  }

  /** Its inner loop, over one secret's forms. */
  method ReplaceFormsLoop(text: string, forms: seq<string>) returns (out: string)
    requires NonEmpty(forms)
    ensures out == ReplaceForms(text, forms)
  {
    out := text;
    for k := 0 to |forms|
      invariant out == ReplaceForms(text, forms[..k])
    {
      assert forms[..k + 1][..k] == forms[..k];
      out := ReplaceForm(out, forms[k]);
    }
    assert forms[..|forms|] == forms;
  }

  // ---------- the proof of the scrub ----------

  /** A payload: text, a JSON value, or nothing that has a JSON text. */
  datatype Payload = Text(text: string) | Structured(json: Json) | NoText

  ghost predicate ValidPayload(p: Payload) { p.Structured? ==> WellFormed(p.json) }

  /** What is searched: the text itself, or the value's JSON text. */
  function Haystack(p: Payload): Option<string>
    requires ValidPayload(p)
  {
    match p
    case Text(t) => Some(t)
    case Structured(j) => Some(Stringify(j))
    case NoText => None
  }

  /** The keys and strings of a value, as decoded text. */
  function Leaves(p: Payload): seq<string>
    requires ValidPayload(p)
  {
    if p.Structured? then Visited("", p.json) else []
  }

  predicate Leaks(word: char -> bool, payload: Payload, secret: string)
    requires ValidPayload(payload)
  {
    || (Haystack(payload).Some? && ContainsSecret(word, Haystack(payload).value, secret))
    || (IsWeak(secret) && exists x <- Leaves(payload) :: ContainsSecret(word, x, secret))
  }

  /** `assertNoSecretInPayload`: the index of the first secret the payload carries, if any. */
  method AssertNoSecretInPayload(word: char -> bool, payload: Payload, secrets: seq<string>) returns (leak: Option<nat>)
    requires ValidPayload(payload)
    ensures leak.None? <==> forall i :: 0 <= i < |secrets| && secrets[i] != "" ==> !Leaks(word, payload, secrets[i])
    ensures leak.Some? ==>
              leak.value < |secrets| && secrets[leak.value] != "" && Leaks(word, payload, secrets[leak.value])
    ensures leak.Some? ==>
              forall i :: 0 <= i < leak.value && secrets[i] != "" ==> !Leaks(word, payload, secrets[i])
  {
    var haystack := Haystack(payload);
    var leaves: Option<seq<string>> := None;
    for i := 0 to |secrets|
      invariant forall k :: 0 <= k < i && secrets[k] != "" ==> !Leaks(word, payload, secrets[k])
      invariant leaves.Some? ==> leaves.value == Leaves(payload)
    {
      var s := secrets[i];
      if s == "" { continue; }
      if haystack.Some? && ContainsSecret(word, haystack.value, s) { return Some(i); }
      if IsWeak(s) {
        if leaves.None? { leaves := Some(Leaves(payload)); }
        if exists x <- leaves.value :: ContainsSecret(word, x, s) { return Some(i); }
      }
    }
    return None;
  }

  /** A short secret in any string or key of a value is found, however JSON escapes it. */
  lemma ShortSecretsInStringsLeak(word: char -> bool, j: Json, x: string, secret: string)
    requires WellFormed(j) && Holds(j, x) && IsWeak(secret) && ContainsSecret(word, x, secret)
    ensures Leaks(word, Structured(j), secret)
  {
    VisitsAll("", j, x);
  }

  /** `redactContext`: the scrubbed text, or a refusal when a secret survives in it. */
  predicate Proven(word: char -> bool, out: string, secrets: seq<string>) {
    forall i :: 0 <= i < |secrets| && secrets[i] != "" ==> !ContainsSecret(word, out, secrets[i])
  }

  method RedactContext(word: char -> bool, text: string, secrets: seq<string>) returns (r: Result<string, nat>)
    ensures r.Ok? <==> Proven(word, RedactText(word, text, secrets), secrets)
    ensures r.Ok? ==> r.value == RedactText(word, text, secrets)
  {
    var out := RedactTextLoop(word, text, secrets);
    var leak := AssertNoSecretInPayload(word, Text(out), secrets);
    return if leak.Some? then Err(leak.value) else Ok(out);
  }
}
