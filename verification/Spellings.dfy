/**
 * What the forms of a secret are, apart from the functions that build them: the secret, and its spellings with
 * UTF-8 percent escapes (RFC 3986, section 2.1; RFC 3629, section 3) in three alphabets and either case.
 */
module Spellings {
  import opened Wrappers
  import opened Lists
  import opened Characters
  import opened SecretForms
  import opened Redaction
  import opened RedactionProofs

  // ---------- reading escapes ----------

  /** A hexadecimal digit of either case. */
  function DigitOf(c: char): Option<nat> {
    if '0' <= c <= '9' then Some(c as int - '0' as int)
    else if 'A' <= c <= 'F' then Some(c as int - 'A' as int + 10)
    else if 'a' <= c <= 'f' then Some(c as int - 'a' as int + 10)
    else None
  }

  /** The byte of an escape at the start of `t`. */
  function ByteOf(t: string): Option<nat> {
    if |t| >= 3 && t[0] == '%' && DigitOf(t[1]).Some? && DigitOf(t[2]).Some?
      then Some(16 * DigitOf(t[1]).value + DigitOf(t[2]).value)
    else None
  }

  /** Nothing but escapes, read as bytes. */
  function BytesOf(t: string): Option<seq<int>> {
    if t == "" then Some([])
    else
      match ByteOf(t)
      case None => None
      case Some(b) =>
        match BytesOf(t[3..])
        case None => None
        case Some(bs) => Some([b] + bs)
  }

  /** Six more bits of a code point. */
  function More(high: int, b: int): int { high * 64 + (b - 0x80) }

  predicate Continues(bs: seq<int>) { forall i :: 1 <= i < |bs| ==> 0x80 <= bs[i] < 0xC0 }

  /** The code point of one UTF-8 sequence, in its shortest form. */
  function CodePoint(bs: seq<int>): Option<int> {
    if !Continues(bs) then None
    else if |bs| == 1 && bs[0] < 0x80 then Some(bs[0])
    else if |bs| == 2 && 0xC0 <= bs[0] < 0xE0 then AtLeast(0x80, More(bs[0] - 0xC0, bs[1]))
    else if |bs| == 3 && 0xE0 <= bs[0] < 0xF0 then AtLeast(0x800, More(More(bs[0] - 0xE0, bs[1]), bs[2]))
    else if |bs| == 4 && 0xF0 <= bs[0] < 0xF8 then
      AtLeast(0x10000, More(More(More(bs[0] - 0xF0, bs[1]), bs[2]), bs[3]))
    else None
  }

  function AtLeast(least: int, n: int): Option<int> {
    if n >= least then Some(n) else None
  }

  /** The escapes of one character. */
  predicate EscapesOf(t: string, c: char) {
    BytesOf(t).Some? && CodePoint(BytesOf(t).value) == Some(c as int)
  }

  predicate LowerDigits(t: string) { forall i :: 0 <= i < |t| ==> !('A' <= t[i] <= 'F') }

  predicate UpperDigits(t: string) { forall i :: 0 <= i < |t| ==> !('a' <= t[i] <= 'f') }

  // ---------- spellings ----------

  /** `encodeURIComponent`, the strict alphabet of RFC 3986 (section 2.3), and a form's values. */
  datatype Alphabet = Component | Strict | Form

  /** What is written as it is. */
  predicate Unreserved(a: Alphabet, c: char) {
    AsciiAlnum(c) || c == '-' || c == '_' || c == '.'
    || match a
       case Component => c == '~' || c == '!' || c == '*' || c == '\'' || c == '(' || c == ')'
       case Strict => c == '~'
       case Form => c == '*'
  }

  /** `t` writes the character `c`. */
  predicate Writes(a: Alphabet, lower: bool, t: string, c: char) {
    if Unreserved(a, c) then t == [c]
    else if a.Form? && c == ' ' then t == "+"
    else EscapesOf(t, c) && if lower then LowerDigits(t) else UpperDigits(t)
  }

  /** `t` writes the text `s`, character by character. */
  predicate Spells(a: Alphabet, lower: bool, t: string, s: string) {
    if s == "" then t == ""
    else exists n :: 0 <= n <= |t| && Writes(a, lower, t[..n], s[0]) && Spells(a, lower, t[n..], s[1..])
  }

  // ---------- the escapes of a character ----------

  lemma HexDigits(n: nat)
    requires n < 16
    ensures DigitOf(Hex(n)) == Some(n) && DigitOf(LowerHex(Hex(n))) == Some(n)
    ensures !('a' <= Hex(n) <= 'f') && !('A' <= LowerHex(Hex(n)) <= 'F') && UpperHex(Hex(n))
  {
  }

  lemma DigitsHex(c: char)
    requires DigitOf(c).Some?
    ensures DigitOf(c).value < 16
    ensures !('a' <= c <= 'f') ==> c == Hex(DigitOf(c).value)
    ensures !('A' <= c <= 'F') ==> c == LowerHex(Hex(DigitOf(c).value))
  {
  }

  /** A byte as an escape of either case. */
  function EscapeOf(lower: bool, b: nat): string
    requires b < 256
  {
    if lower then ['%', LowerHex(Hex(b / 16)), LowerHex(Hex(b % 16))] else ['%', Hex(b / 16), Hex(b % 16)]
  }

  function EscapesOfAll(lower: bool, bs: seq<int>): string
    requires forall i :: 0 <= i < |bs| ==> 0 <= bs[i] < 256
  {
    if bs == [] then "" else EscapeOf(lower, bs[0]) + EscapesOfAll(lower, bs[1..])
  }

  predicate InCase(lower: bool, t: string) { if lower then LowerDigits(t) else UpperDigits(t) }

  lemma EscapeRead(lower: bool, b: nat, rest: string)
    requires b < 256
    ensures ByteOf(EscapeOf(lower, b) + rest) == Some(b) && InCase(lower, EscapeOf(lower, b))
    ensures (EscapeOf(lower, b) + rest)[3..] == rest
  {
    HexDigits(b / 16);
    HexDigits(b % 16);
  }

  lemma CaseConcat(lower: bool, x: string, y: string)
    ensures InCase(lower, x + y) <==> InCase(lower, x) && InCase(lower, y)
  {
    assert forall i :: 0 <= i < |x| ==> (x + y)[i] == x[i];
    assert forall i :: 0 <= i < |y| ==> (x + y)[|x| + i] == y[i];
  }

  lemma {:induction false} BytesRead(lower: bool, bs: seq<int>)
    requires forall i :: 0 <= i < |bs| ==> 0 <= bs[i] < 256
    ensures BytesOf(EscapesOfAll(lower, bs)) == Some(bs) && InCase(lower, EscapesOfAll(lower, bs))
  {
    if bs != [] {
      EscapeRead(lower, bs[0], EscapesOfAll(lower, bs[1..]));
      BytesRead(lower, bs[1..]);
      var (x, rest) := (EscapeOf(lower, bs[0]), EscapesOfAll(lower, bs[1..]));
      assert BytesOf(x + rest) == Some([bs[0]] + bs[1..]) && [bs[0]] + bs[1..] == bs;
      CaseConcat(lower, x, rest);
    }
  }

  lemma ReadEscape(lower: bool, t: string)
    requires ByteOf(t).Some? && InCase(lower, t)
    ensures ByteOf(t).value < 256 && t == EscapeOf(lower, ByteOf(t).value) + t[3..]
  {
    DigitsHex(t[1]);
    DigitsHex(t[2]);
  }

  /** Escapes of one case are read as bytes in one way. */
  lemma {:induction false} ReadBytes(lower: bool, t: string)
    requires BytesOf(t).Some? && InCase(lower, t)
    ensures forall i :: 0 <= i < |BytesOf(t).value| ==> 0 <= BytesOf(t).value[i] < 256
    ensures t == EscapesOfAll(lower, BytesOf(t).value)
  {
    if t != "" {
      ReadEscape(lower, t);
      ReadBytes(lower, t[3..]);
      var b := ByteOf(t).value;
      assert BytesOf(t).value == [b] + BytesOf(t[3..]).value;
    }
  }

  /** The low six bits of a code point as a continuation byte. */
  function Low(n: int): (b: int)
    ensures 0x80 <= b < 0xC0
  {
    0x80 + n % 64
  }

  lemma MoreSplits(n: int, high: int, b: int)
    requires 0x80 <= b < 0xC0
    ensures More(high, b) == n <==> high == n / 64 && b == Low(n)
  {
  }

  function Two(n: int): seq<int> { [0xC0 + n / 64, Low(n)] }
  function Three(n: int): seq<int> { [0xE0 + n / 64 / 64, Low(n / 64), Low(n)] }
  function Four(n: int): seq<int> { [0xF0 + n / 64 / 64 / 64, Low(n / 64 / 64), Low(n / 64), Low(n)] }

  /** The UTF-8 bytes of a character. */
  function Utf8(c: char): (bs: seq<int>)
    ensures forall i :: 0 <= i < |bs| ==> 0 <= bs[i] < 256
  {
    var n := c as int;
    if n < 0x80 then [n] else if n < 0x800 then Two(n) else if n < 0x10000 then Three(n) else Four(n)
  }

  lemma TwoExactly(n: int, bs: seq<int>)
    requires |bs| == 2 && Continues(bs)
    ensures More(bs[0] - 0xC0, bs[1]) == n <==> bs == Two(n)
  {
    MoreSplits(n, bs[0] - 0xC0, bs[1]);
  }

  lemma ThreeExactly(n: int, bs: seq<int>)
    requires |bs| == 3 && Continues(bs)
    ensures More(More(bs[0] - 0xE0, bs[1]), bs[2]) == n <==> bs == Three(n)
  {
    MoreSplits(n, More(bs[0] - 0xE0, bs[1]), bs[2]);
    MoreSplits(n / 64, bs[0] - 0xE0, bs[1]);
  }

  lemma FourExactly(n: int, bs: seq<int>)
    requires |bs| == 4 && Continues(bs)
    ensures More(More(More(bs[0] - 0xF0, bs[1]), bs[2]), bs[3]) == n <==> bs == Four(n)
  {
    MoreSplits(n, More(More(bs[0] - 0xF0, bs[1]), bs[2]), bs[3]);
    MoreSplits(n / 64, More(bs[0] - 0xF0, bs[1]), bs[2]);
    MoreSplits(n / 64 / 64, bs[0] - 0xF0, bs[1]);
  }

  lemma Utf8IsRead(c: char)
    ensures CodePoint(Utf8(c)) == Some(c as int)
  {
    var n, bs := c as int, Utf8(c);
    if |bs| == 2 { TwoExactly(n, bs); }
    if |bs| == 3 { ThreeExactly(n, bs); }
    if |bs| == 4 { FourExactly(n, bs); }
  }

  /** Each character has one UTF-8 sequence. */
  lemma Utf8IsUnique(c: char, bs: seq<int>)
    requires CodePoint(bs) == Some(c as int)
    ensures bs == Utf8(c)
  {
    var n := c as int;
    if |bs| == 2 { TwoExactly(n, bs); }
    if |bs| == 3 { ThreeExactly(n, bs); }
    if |bs| == 4 { FourExactly(n, bs); }
  }

  /** The escapes of a character, in one case. */
  function CharEscapes(lower: bool, c: char): string { EscapesOfAll(lower, Utf8(c)) }

  lemma EscapesExactly(lower: bool, t: string, c: char)
    ensures EscapesOf(t, c) && InCase(lower, t) <==> t == CharEscapes(lower, c)
  {
    Utf8IsRead(c);
    BytesRead(lower, Utf8(c));
    if EscapesOf(t, c) && InCase(lower, t) {
      ReadBytes(lower, t);
      Utf8IsUnique(c, BytesOf(t).value);
    }
  }

  // ---------- the forms of a secret ----------

  /** How a character is written. */
  function Written(a: Alphabet, lower: bool, c: char): string {
    if Unreserved(a, c) then [c] else if a.Form? && c == ' ' then "+" else CharEscapes(lower, c)
  }

  lemma WritesExactly(a: Alphabet, lower: bool, t: string, c: char)
    ensures Writes(a, lower, t, c) <==> t == Written(a, lower, c)
  {
    EscapesExactly(lower, t, c);
  }

  function Spelling(a: Alphabet, lower: bool, s: string): string {
    if s == "" then "" else Written(a, lower, s[0]) + Spelling(a, lower, s[1..])
  }

  lemma {:induction false} SpellingSpells(a: Alphabet, lower: bool, s: string)
    ensures Spells(a, lower, Spelling(a, lower, s), s)
  {
    if s != "" {
      var x, rest := Written(a, lower, s[0]), Spelling(a, lower, s[1..]);
      var t := x + rest;
      SpellingSpells(a, lower, s[1..]);
      WritesExactly(a, lower, x, s[0]);
      assert t[..|x|] == x && t[|x|..] == rest;
    }
  }

  lemma SpelledHead(a: Alphabet, lower: bool, t: string, s: string) returns (n: nat)
    requires s != "" && Spells(a, lower, t, s)
    ensures n <= |t| && t[..n] == Written(a, lower, s[0]) && Spells(a, lower, t[n..], s[1..])
  {
    n :| 0 <= n <= |t| && Writes(a, lower, t[..n], s[0]) && Spells(a, lower, t[n..], s[1..]);
    WritesExactly(a, lower, t[..n], s[0]);
  }

  lemma {:induction false} SpelledIsSpelling(a: Alphabet, lower: bool, t: string, s: string)
    requires Spells(a, lower, t, s)
    ensures t == Spelling(a, lower, s)
  {
    if s != "" {
      var n := SpelledHead(a, lower, t, s);
      SpelledIsSpelling(a, lower, t[n..], s[1..]);
      assert t == t[..n] + t[n..];
    }
  }

  lemma {:induction false} SpellIs(spelling: char -> string, a: Alphabet, s: string)
    requires forall c :: spelling(c) == Written(a, false, c)
    ensures Spell(spelling, s) == Spelling(a, false, s)
  {
    if s != "" { SpellIs(spelling, a, s[1..]); }
  }

  lemma {:induction false} EscapesAfter(lower: bool, b: int, bs: seq<int>)
    requires 0 <= b < 256 && forall i :: 0 <= i < |bs| ==> 0 <= bs[i] < 256
    ensures EscapesOfAll(lower, [b] + bs) == EscapeOf(lower, b) + EscapesOfAll(lower, bs)
  {
    assert ([b] + bs)[1..] == bs;
  }

  lemma LastEscape(b: int)
    requires 0 <= b < 256
    ensures EscapesOfAll(false, [b]) == PercentByte(b)
  {
    EscapesAfter(false, b, []);
    assert [b] + [] == [b];
  }

  lemma TwoEscapes(b: int, d: int)
    requires 0 <= b < 256 && 0 <= d < 256
    ensures EscapesOfAll(false, [b, d]) == PercentByte(b) + PercentByte(d)
  {
    EscapesAfter(false, b, [d]);
    LastEscape(d);
    assert [b] + [d] == [b, d];
  }

  lemma ThreeEscapes(b: int, d: int, e: int)
    requires 0 <= b < 256 && 0 <= d < 256 && 0 <= e < 256
    ensures EscapesOfAll(false, [b, d, e]) == PercentByte(b) + (PercentByte(d) + PercentByte(e))
  {
    EscapesAfter(false, b, [d, e]);
    TwoEscapes(d, e);
    assert [b] + [d, e] == [b, d, e];
  }

  lemma FourEscapes(b: int, d: int, e: int, f: int)
    requires 0 <= b < 256 && 0 <= d < 256 && 0 <= e < 256 && 0 <= f < 256
    ensures EscapesOfAll(false, [b, d, e, f])
         == PercentByte(b) + (PercentByte(d) + (PercentByte(e) + PercentByte(f)))
  {
    EscapesAfter(false, b, [d, e, f]);
    ThreeEscapes(d, e, f);
    assert [b] + [d, e, f] == [b, d, e, f];
  }

  lemma Quotients(n: nat)
    ensures n / 4096 == n / 64 / 64 && n / 262144 == n / 64 / 64 / 64
  {
  }

  lemma PercentIsShort(c: char)
    requires (c as int) < 0x800
    ensures Percent(c) == CharEscapes(false, c)
  {
    var n := c as int;
    if n < 0x80 { LastEscape(n); } else { TwoEscapes(0xC0 + n / 64, Low(n)); }
  }

  lemma PercentIsThree(c: char)
    requires 0x800 <= (c as int) < 0x10000
    ensures Percent(c) == CharEscapes(false, c)
  {
    var n := c as int;
    Quotients(n);
    ThreeEscapes(0xE0 + n / 64 / 64, Low(n / 64), Low(n));
  }

  lemma PercentIsFour(c: char)
    requires 0x10000 <= (c as int)
    ensures Percent(c) == CharEscapes(false, c)
  {
    var n := c as int;
    Quotients(n);
    FourEscapes(0xF0 + n / 64 / 64 / 64, Low(n / 64 / 64), Low(n / 64), Low(n));
  }

  lemma PercentIs(c: char)
    ensures Percent(c) == CharEscapes(false, c)
  {
    if (c as int) < 0x800 { PercentIsShort(c); }
    else if (c as int) < 0x10000 { PercentIsThree(c); }
    else { PercentIsFour(c); }
  }

  lemma CharsWritten(c: char)
    ensures UriSpelling(c) == Written(Component, false, c) && FormSpelling(c) == Written(Form, false, c)
  {
    PercentIs(c);
  }

  // ---------- the strict alphabet ----------

  lemma {:induction false} SpellPlain(spelling: char -> string, t: string)
    requires forall c <- t :: spelling(c) == [c]
    ensures Spell(spelling, t) == t
  {
    if t != "" {
      assert t[0] in t;
      SpellPlain(spelling, t[1..]);
    }
  }

  lemma {:induction false} EscapesText(bs: seq<int>)
    requires forall i :: 0 <= i < |bs| ==> 0 <= bs[i] < 256
    ensures forall c <- EscapesOfAll(false, bs) :: c == '%' || UpperHex(c)
  {
    if bs != [] {
      HexDigits(bs[0] / 16);
      HexDigits(bs[0] % 16);
      EscapesText(bs[1..]);
    }
  }

  lemma CharStrict(c: char)
    ensures Spell(StrictSpelling, UriSpelling(c)) == Written(Strict, false, c)
  {
    var x := UriSpelling(c);
    CharsWritten(c);
    PercentIs(c);
    if c in "!'()*" {
      assert x == [c] && x[1..] == "";
      assert Spell(StrictSpelling, "") == "";
    } else {
      EscapesText(Utf8(c));
      SpellPlain(StrictSpelling, x);
    }
  }

  lemma {:induction false} StrictIs(s: string)
    ensures EncodeStrict(s) == Spelling(Strict, false, s)
  {
    if s != "" {
      StrictIs(s[1..]);
      CharStrict(s[0]);
      SpellConcat(StrictSpelling, UriSpelling(s[0]), EncodeUriComponent(s[1..]));
    }
  }

  // ---------- lower case ----------

  lemma {:induction false} EscapesLower(bs: seq<int>, rest: string)
    requires forall i :: 0 <= i < |bs| ==> 0 <= bs[i] < 256
    ensures Lower(EscapesOfAll(false, bs) + rest) == EscapesOfAll(true, bs) + Lower(rest)
  {
    if bs == [] {
      assert "" + rest == rest;
    } else {
      var b, more := bs[0], EscapesOfAll(false, bs[1..]) + rest;
      HexDigits(b / 16);
      HexDigits(b % 16);
      EscapesLower(bs[1..], rest);
      var t := EscapeOf(false, b) + more;
      assert EscapesOfAll(false, bs) + rest == t && t[3..] == more;
      assert Lower(t) == EscapeOf(true, b) + Lower(more);
    }
  }

  lemma OneLower(c: char, rest: string)
    requires c != '%'
    ensures Lower([c] + rest) == [c] + Lower(rest)
  {
    assert ([c] + rest)[1..] == rest;
  }

  lemma {:induction false} LowerIs(a: Alphabet, s: string)
    ensures Lower(Spelling(a, false, s)) == Spelling(a, true, s)
  {
    if s != "" {
      var c, rest := s[0], Spelling(a, false, s[1..]);
      LowerIs(a, s[1..]);
      if Unreserved(a, c) {
        OneLower(c, rest);
      } else if a.Form? && c == ' ' {
        OneLower('+', rest);
      } else {
        EscapesLower(Utf8(c), rest);
      }
    }
  }

  // ---------- what the forms are ----------

  lemma SpelledForms(s: string)
    ensures EncodeUriComponent(s) == Spelling(Component, false, s)
    ensures EncodeStrict(s) == Spelling(Strict, false, s)
    ensures EncodeForm(s) == Spelling(Form, false, s)
  {
    forall c ensures UriSpelling(c) == Written(Component, false, c) { CharsWritten(c); }
    forall c ensures FormSpelling(c) == Written(Form, false, c) { CharsWritten(c); }
    SpellIs(UriSpelling, Component, s);
    SpellIs(FormSpelling, Form, s);
    StrictIs(s);
  }

  lemma SpellingIsForm(a: Alphabet, lower: bool, s: string)
    ensures Spelling(a, lower, s) in Forms(s)
  {
    FormsAre(s);
    SpelledForms(s);
    LowerIs(a, s);
  }

  lemma FormIsSpelling(s: string, t: string) returns (a: Alphabet, lower: bool)
    requires t in Forms(s) && t != s
    ensures t == Spelling(a, lower, s)
  {
    FormsAre(s);
    SpelledForms(s);
    LowerIs(Component, s);
    LowerIs(Strict, s);
    LowerIs(Form, s);
    lower := t !in {EncodeUriComponent(s), EncodeStrict(s), EncodeForm(s)};
    a := if t == Spelling(Component, lower, s) then Component
         else if t == Spelling(Strict, lower, s) then Strict else Form;
  }

  /** Some spelling of `s`, in one alphabet and one case. */
  predicate IsSpelling(s: string, t: string) {
    exists a: Alphabet, lower: bool :: Spells(a, lower, t, s)
  }

  lemma SpelledInForms(s: string, t: string)
    requires IsSpelling(s, t)
    ensures t in Forms(s)
  {
    var a: Alphabet, lower: bool :| Spells(a, lower, t, s);
    SpelledIsSpelling(a, lower, t, s);
    SpellingIsForm(a, lower, s);
  }

  /** The forms of a secret are the secret and its spellings in each alphabet and case. */
  lemma FormsExactly(s: string, t: string)
    ensures t in Forms(s) <==> t == s || IsSpelling(s, t)
  {
    if t in Forms(s) && t != s {
      var a, lower := FormIsSpelling(s, t);
      SpellingSpells(a, lower, s);
    }
    if t == s { FormsAre(s); }
    if IsSpelling(s, t) { SpelledInForms(s, t); }
  }

  /** How many bytes the UTF-8 sequence takes that starts with `b`. */
  function SequenceLength(b: int): nat {
    if b < 0x80 then 1 else if b < 0xE0 then 2 else if b < 0xF0 then 3 else 4
  }

  /** `decodeURIComponent`; with `plus`, a plus sign is a space, as in a form. */
  function Decoded(plus: bool, t: string): Option<string> {
    if t == "" then Some("")
    else if t[0] != '%' then
      var rest := Decoded(plus, t[1..]);
      if rest.None? then None else Some([if plus && t[0] == '+' then ' ' else t[0]] + rest.value)
    else
      var n := 3 * SequenceLength(ByteOf(t).GetOr(0));
      if |t| < n then None
      else
        var bs, rest := BytesOf(t[..n]), Decoded(plus, t[n..]);
        var p := if bs.None? then None else CodePoint(bs.value);
        if p.None? || !(0 <= p.value < 0xD800 || 0xE000 <= p.value < 0x11_0000) || rest.None? then None
        else Some([p.value as char] + rest.value)
  }

  lemma EscapesLength(lower: bool, bs: seq<int>)
    requires forall i :: 0 <= i < |bs| ==> 0 <= bs[i] < 256
    ensures |EscapesOfAll(lower, bs)| == 3 * |bs|
  {
  }

  lemma SequenceDecodes(plus: bool, x: string, rest: string, b: int, c: char)
    requires x != "" && x[0] == '%' && |x| == 3 * SequenceLength(b) && ByteOf(x) == Some(b)
    requires EscapesOf(x, c) && Decoded(plus, rest).Some?
    ensures Decoded(plus, x + rest) == Some([c] + Decoded(plus, rest).value)
  {
    var t, n := x + rest, |x|;
    assert t[0] == x[0] && t[1] == x[1] && t[2] == x[2];
    assert t[..n] == x && t[n..] == rest;
  }

  lemma EscapesDecode(plus: bool, lower: bool, c: char, rest: string)
    requires Decoded(plus, rest).Some?
    ensures Decoded(plus, CharEscapes(lower, c) + rest) == Some([c] + Decoded(plus, rest).value)
  {
    var bs := Utf8(c);
    EscapesExactly(lower, CharEscapes(lower, c), c);
    EscapesLength(lower, bs);
    EscapeRead(lower, bs[0], EscapesOfAll(lower, bs[1..]));
    assert SequenceLength(bs[0]) == |bs|;
    SequenceDecodes(plus, CharEscapes(lower, c), rest, bs[0], c);
  }

  lemma CharDecodes(plus: bool, c: char, rest: string)
    requires c != '%' && Decoded(plus, rest).Some?
    ensures Decoded(plus, [c] + rest) == Some([if plus && c == '+' then ' ' else c] + Decoded(plus, rest).value)
  {
    assert ([c] + rest)[1..] == rest;
  }

  lemma WrittenDecodes(a: Alphabet, lower: bool, c: char, rest: string)
    requires Decoded(a.Form?, rest).Some?
    ensures Decoded(a.Form?, Written(a, lower, c) + rest) == Some([c] + Decoded(a.Form?, rest).value)
  {
    if Unreserved(a, c) {
      CharDecodes(a.Form?, c, rest);
    } else if a.Form? && c == ' ' {
      CharDecodes(true, '+', rest);
    } else {
      EscapesDecode(a.Form?, lower, c, rest);
    }
  }

  lemma {:induction false} SpellingIsRead(a: Alphabet, lower: bool, s: string)
    ensures Decoded(a.Form?, Spelling(a, lower, s)) == Some(s)
  {
    if s != "" {
      SpellingIsRead(a, lower, s[1..]);
      WrittenDecodes(a, lower, s[0], Spelling(a, lower, s[1..]));
      assert s == [s[0]] + s[1..];
    }
  }

  /** Each spelling is read as the secret. */
  lemma SpellingDecodes(a: Alphabet, lower: bool, t: string, s: string)
    requires Spells(a, lower, t, s)
    ensures Decoded(a.Form?, t) == Some(s)
  {
    SpelledIsSpelling(a, lower, t, s);
    SpellingIsRead(a, lower, s);
  }

  // ---------- what the scrub and its check see ----------

  /** A strong secret is found in every spelling. */
  lemma SpellingIsFound(word: char -> bool, text: string, s: string, t: string)
    requires !IsWeak(s) && IsSpelling(s, t) && Includes(text, t)
    ensures ContainsSecret(word, text, s)
  {
    SpelledInForms(s, t);
  }

  /** After the scrub no spelling of a strong secret is left. */
  lemma NoSpellingLeft(
    word: char -> bool, lettered: bool, text: string, secrets: seq<string>, i: nat, t: string)
    requires WordClass(word) && Ordered(secrets) && AllRemovable(word, lettered, secrets)
    requires i < |secrets| && !IsWeak(secrets[i]) && (t == secrets[i] || IsSpelling(secrets[i], t))
    ensures !Includes(RedactText(word, text, secrets), t)
  {
    FormsExactly(secrets[i], t);
    ScrubLeavesNothing(word, lettered, text, secrets);
    assert !ContainsSecret(word, RedactText(word, text, secrets), secrets[i]);
  }
}
