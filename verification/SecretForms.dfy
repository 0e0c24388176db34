/**
 * The forms a registered secret is matched in (credential-guard.ts): its raw value and the
 * spellings it takes once it has ridden into a URL. Text is a sequence of Unicode scalar values.
 */
module SecretForms {
  import opened Lists
  import opened Characters

  predicate Blank(s: string) {
    forall i :: 0 <= i < |s| ==> Space(s[i])
  }

  const MIN_SUBSTRING_SECRET_LENGTH := 6

  /** A secret this short is matched only as a whole token. */
  predicate IsWeak(secret: string) {
    Units(secret) < MIN_SUBSTRING_SECRET_LENGTH
  }

  function Hex(n: nat): char
    requires n < 16
  {
    if n < 10 then ('0' as int + n) as char else ('A' as int + n - 10) as char
  }

  function PercentByte(b: nat): string
    requires b < 256
  {
    ['%', Hex(b / 16), Hex(b % 16)]
  }

  /** The percent-encoded UTF-8 bytes of a character. */
  function Percent(c: char): string {
    var n := c as int;
    if n < 0x80 then PercentByte(n)
    else if n < 0x800 then PercentByte(0xC0 + n / 64) + PercentByte(0x80 + n % 64)
    else
      var low := PercentByte(0x80 + n / 64 % 64) + PercentByte(0x80 + n % 64);
      if n < 0x10000 then PercentByte(0xE0 + n / 4096) + low
      else PercentByte(0xF0 + n / 262144) + (PercentByte(0x80 + n / 4096 % 64) + low)
  }

  /** Every character replaced by its spelling. */
  function Spell(spelling: char -> string, s: string): string {
    if s == "" then "" else spelling(s[0]) + Spell(spelling, s[1..])
  }

  function UriSpelling(c: char): string {
    if AsciiAlnum(c) || c in "-_.!~*'()" then [c] else Percent(c)
  }

  function StrictSpelling(c: char): string {
    if c in "!'()*" then Percent(c) else [c]
  }

  function FormSpelling(c: char): string {
    if AsciiAlnum(c) || c in "*-._" then [c] else if c == ' ' then "+" else Percent(c)
  }

  function EncodeUriComponent(s: string): string { Spell(UriSpelling, s) }

  function EncodeStrict(s: string): string { Spell(StrictSpelling, EncodeUriComponent(s)) }

  function EncodeForm(s: string): string { Spell(FormSpelling, s) }

  predicate UpperHex(c: char) { '0' <= c <= '9' || 'A' <= c <= 'F' }

  function LowerHex(c: char): char {
    if 'A' <= c <= 'F' then (c as int + 32) as char else c
  }

  /** Every `%XX` in lower case. */
  function Lower(v: string): string {
    if v == "" then ""
    else if |v| >= 3 && v[0] == '%' && UpperHex(v[1]) && UpperHex(v[2]) then
      ['%', LowerHex(v[1]), LowerHex(v[2])] + Lower(v[3..])
    else [v[0]] + Lower(v[1..])
  }

  function Forms(secret: string): seq<string> {
    var encoded := EncodeUriComponent(secret);
    var strict := EncodeStrict(secret);
    var form := EncodeForm(secret);
    Uniq([secret, encoded, strict, form, Lower(encoded), Lower(strict), Lower(form)])
  }

  // ---------- what the forms have in common ----------

  /** Nothing in an encoded spelling but printable ASCII. */
  predicate Ascii(s: string) { forall i :: 0 <= i < |s| ==> s[i] as int < 128 }

  predicate Letters(s: string) { forall i :: 0 <= i < |s| ==> AsciiAlnum(s[i]) }

  /** A character's spelling is the character, or ASCII that starts with an escape. */
  ghost predicate Escapes(spelling: char -> string) {
    forall c :: Escape(c, spelling(c))
  }

  lemma PercentByteAscii(b: nat)
    requires b < 256
    ensures Ascii(PercentByte(b)) && |PercentByte(b)| == 3 && PercentByte(b)[0] == '%'
  {
  }

  lemma PercentAscii(c: char)
    ensures Ascii(Percent(c)) && Percent(c) != "" && Percent(c)[0] == '%'
  {
    forall b: nat | b < 256 ensures Ascii(PercentByte(b)) && |PercentByte(b)| == 3 && PercentByte(b)[0] == '%' {
      PercentByteAscii(b);
    }
  }

  ghost predicate Escape(c: char, spelled: string) {
    spelled == [c] || (spelled != "" && Ascii(spelled) && !AsciiAlnum(spelled[0]))
  }

  lemma CharEscapes(c: char)
    ensures Escape(c, UriSpelling(c)) && Escape(c, StrictSpelling(c)) && Escape(c, FormSpelling(c))
    ensures Ascii(UriSpelling(c)) && Ascii(FormSpelling(c))
  {
    PercentAscii(c);
  }

  lemma SpellingsEscape()
    ensures Escapes(UriSpelling) && Escapes(StrictSpelling) && Escapes(FormSpelling)
    ensures forall c :: Ascii(UriSpelling(c))
    ensures forall c :: Ascii(FormSpelling(c))
  {
    forall c ensures Escape(c, UriSpelling(c)) && Ascii(UriSpelling(c)) { CharEscapes(c); }
    forall c ensures Escape(c, StrictSpelling(c)) { CharEscapes(c); }
    forall c ensures Escape(c, FormSpelling(c)) && Ascii(FormSpelling(c)) { CharEscapes(c); }
  }

  lemma {:induction false} SpellAscii(spelling: char -> string, s: string)
    requires (Ascii(s) && Escapes(spelling)) || forall c :: Ascii(spelling(c))
    ensures Ascii(Spell(spelling, s))
  {
    if s != "" { SpellAscii(spelling, s[1..]); }
  }

  lemma {:induction false} LowerAscii(v: string)
    requires Ascii(v)
    ensures Ascii(Lower(v))
    decreases |v|
  {
    if v != "" {
      LowerAscii(v[if |v| >= 3 && v[0] == '%' && UpperHex(v[1]) && UpperHex(v[2]) then 3 else 1..]);
    }
  }

  lemma {:induction false} SpellConcat(spelling: char -> string, x: string, y: string)
    ensures Spell(spelling, x + y) == Spell(spelling, x) + Spell(spelling, y)
  {
    if x == "" {
      assert x + y == y;
    } else {
      assert (x + y)[1..] == x[1..] + y;
      SpellConcat(spelling, x[1..], y);
    }
  }

  /** The seven spellings are the only forms. */
  lemma FormsAre(secret: string)
    ensures var (encoded, strict, form) := (EncodeUriComponent(secret), EncodeStrict(secret), EncodeForm(secret));
            forall f :: f in Forms(secret) <==>
                f in {secret, encoded, strict, form, Lower(encoded), Lower(strict), Lower(form)}
  {
    var (encoded, strict, form) := (EncodeUriComponent(secret), EncodeStrict(secret), EncodeForm(secret));
    UniqMembers([secret, encoded, strict, form, Lower(encoded), Lower(strict), Lower(form)]);
  }

  /** Every form but the raw value is ASCII. */
  lemma FormsAscii(secret: string, f: string)
    requires f in Forms(secret) && f != secret
    ensures Ascii(f)
  {
    FormsAre(secret);
    SpellingsEscape();
    var (encoded, strict, form) := (EncodeUriComponent(secret), EncodeStrict(secret), EncodeForm(secret));
    SpellAscii(UriSpelling, secret);
    SpellAscii(FormSpelling, secret);
    SpellAscii(StrictSpelling, encoded);
    LowerAscii(encoded);
    LowerAscii(strict);
    LowerAscii(form);
  }

  /** A spelling without escapes spells the text itself. */
  lemma {:induction false} SpellWithoutEscapes(spelling: char -> string, s: string)
    requires Escapes(spelling) && Letters(Spell(spelling, s))
    ensures Spell(spelling, s) == s
  {
    if s != "" {
      var head, tail := spelling(s[0]), Spell(spelling, s[1..]);
      assert AsciiAlnum((head + tail)[0]);
      assert (head + tail)[|head|..] == tail;
      SpellWithoutEscapes(spelling, s[1..]);
    }
  }

  lemma {:induction false} LowerWithoutEscapes(v: string)
    requires Letters(Lower(v))
    ensures Lower(v) == v
    decreases |v|
  {
    if v != "" && AsciiAlnum(Lower(v)[0]) {
      assert Lower(v)[1..] == Lower(v[1..]);
      LowerWithoutEscapes(v[1..]);
    }
  }

  /** A form made of letters and digits only is the secret itself. */
  lemma LetterFormIsSecret(secret: string, f: string)
    requires f in Forms(secret) && Letters(f)
    ensures f == secret
  {
    FormsAre(secret);
    SpellingsEscape();
    var (encoded, strict, form) := (EncodeUriComponent(secret), EncodeStrict(secret), EncodeForm(secret));
    if f == Lower(encoded) { LowerWithoutEscapes(encoded); }
    if f == Lower(strict) { LowerWithoutEscapes(strict); }
    if f == Lower(form) { LowerWithoutEscapes(form); }
    if f == form { SpellWithoutEscapes(FormSpelling, secret); }
    if f == strict { SpellWithoutEscapes(StrictSpelling, encoded); }
    if f == encoded { SpellWithoutEscapes(UriSpelling, secret); }
  }

  lemma {:induction false} SpellLetters(spelling: char -> string, s: string)
    requires Letters(s) && forall c :: AsciiAlnum(c) ==> spelling(c) == [c]
    ensures Spell(spelling, s) == s
  {
    if s != "" { SpellLetters(spelling, s[1..]); }
  }

  lemma {:induction false} LowerLetters(v: string)
    requires Letters(v)
    ensures Lower(v) == v
    decreases |v|
  {
    if v != "" {
      assert AsciiAlnum(v[0]);
      LowerLetters(v[1..]);
    }
  }

  /** A secret of letters and digits has one form. */
  lemma LettersHaveOneForm(secret: string)
    requires Letters(secret)
    ensures Forms(secret) == [secret]
  {
    SpellLetters(UriSpelling, secret);
    SpellLetters(StrictSpelling, secret);
    SpellLetters(FormSpelling, secret);
    LowerLetters(secret);
    UniqConstant([secret, secret, secret, secret, secret, secret, secret], secret);
  }

  lemma {:induction false} SpellNonEmpty(spelling: char -> string, s: string)
    requires s != "" && Escapes(spelling)
    ensures Spell(spelling, s) != ""
  {
  }

  lemma LowerNonEmpty(v: string)
    requires v != ""
    ensures Lower(v) != ""
  {
  }

  lemma FormsNonEmpty(secret: string)
    requires secret != ""
    ensures secret in Forms(secret)
    ensures forall i :: 0 <= i < |Forms(secret)| ==> Forms(secret)[i] != ""
  {
    FormsAre(secret);
    SpellingsEscape();
    SpellNonEmpty(UriSpelling, secret);
    SpellNonEmpty(FormSpelling, secret);
    SpellNonEmpty(StrictSpelling, EncodeUriComponent(secret));
    forall i | 0 <= i < |Forms(secret)| ensures Forms(secret)[i] != "" {
      assert Forms(secret)[i] in Forms(secret);
      LowerNonEmpty(EncodeUriComponent(secret));
      LowerNonEmpty(EncodeStrict(secret));
      LowerNonEmpty(EncodeForm(secret));
    }
  }

  lemma {:induction false} WeakIsShort(secret: string)
    ensures |secret| <= Units(secret)
  {
    if secret != "" { WeakIsShort(secret[1..]); }
  }
}
