/**
 * `canonicalJson` (check-evidence.ts): JSON text with every object's keys sorted. A decoder for the
 * grammar of RFC 8259 (sections 3 to 7, integers only) is its left inverse, so two values print the
 * same text exactly when they mean the same value.
 */
module CanonicalJson {
  import opened Wrappers
  import opened Json
  import opened Lists

  // ---------- key order: JavaScript's `sort()`, by UTF-16 code unit ----------

  /** Where a character sorts: an astral character starts with a surrogate, below U+E000. */
  function CharRank(c: char): int {
    var n := c as int;
    if n < 0xD800 then n else if n >= 0x10000 then n - 0x10000 + 0xD800 else n + 0x110000
  }

  predicate KeyLess(a: string, b: string) {
    if b == "" then false
    else if a == "" then true
    else if a[0] == b[0] then KeyLess(a[1..], b[1..])
    else CharRank(a[0]) < CharRank(b[0])
  }

  lemma KeyLessTotal(a: string, b: string)
    ensures KeyLess(a, b) || a == b || KeyLess(b, a)
    ensures !(KeyLess(a, b) && KeyLess(b, a))
    ensures !KeyLess(a, a)
  {
    if a != "" && b != "" && a[0] == b[0] {
      KeyLessTotal(a[1..], b[1..]);
      assert a == [a[0]] + a[1..] && b == [b[0]] + b[1..];
    }
    if a != "" { KeyLessTotal(a[1..], a[1..]); }
  }

  lemma KeyLessTransitive(a: string, b: string, c: string)
    requires KeyLess(a, b) && KeyLess(b, c)
    ensures KeyLess(a, c)
  {
    if a != "" && a[0] == b[0] && b[0] == c[0] {
      KeyLessTransitive(a[1..], b[1..], c[1..]);
    }
  }

  function InsertKey(k: string, ks: seq<string>): seq<string> {
    if ks == [] || KeyLess(k, ks[0]) then [k] + ks else [ks[0]] + InsertKey(k, ks[1..])
  }

  function SortKeys(ks: seq<string>): seq<string> {
    if ks == [] then [] else InsertKey(ks[0], SortKeys(ks[1..]))
  }

  ghost predicate Ascending(ks: seq<string>) {
    forall i, j :: 0 <= i < j < |ks| ==> KeyLess(ks[i], ks[j])
  }

  lemma {:induction false} InsertKeyAscending(k: string, ks: seq<string>)
    requires Ascending(ks) && k !in ks
    ensures Ascending(InsertKey(k, ks))
    ensures forall x :: x in InsertKey(k, ks) <==> x == k || x in ks
  {
    if ks == [] {
    } else if KeyLess(k, ks[0]) {
      forall j | 0 <= j < |ks| ensures KeyLess(k, ks[j]) {
        if j > 0 { KeyLessTransitive(k, ks[0], ks[j]); }
      }
    } else {
      KeyLessTotal(k, ks[0]);
      InsertKeyAscending(k, ks[1..]);
      var rest := InsertKey(k, ks[1..]);
      forall j | 0 <= j < |rest| ensures KeyLess(ks[0], rest[j]) {
        assert rest[j] in rest;
      }
    }
  }

  lemma {:induction false} SortKeysAscending(ks: seq<string>)
    requires Distinct(ks)
    ensures Ascending(SortKeys(ks))
    ensures forall x :: x in SortKeys(ks) <==> x in ks
  {
    if ks != [] {
      SortKeysAscending(ks[1..]);
      InsertKeyAscending(ks[0], SortKeys(ks[1..]));
    }
  }

  /** A set of keys has one ascending listing. */
  lemma {:induction false} AscendingUnique(a: seq<string>, b: seq<string>)
    requires Ascending(a) && Ascending(b)
    requires forall x :: x in a <==> x in b
    ensures a == b
  {
    assert a != [] ==> a[0] in b;
    assert b != [] ==> b[0] in a;
    if a != [] && b != [] {
      KeyLessTotal(a[0], b[0]);
      var i :| 0 <= i < |b| && b[i] == a[0];
      var j :| 0 <= j < |a| && a[j] == b[0];
      assert a[0] == b[0];
      forall x ensures x in a[1..] <==> x in b[1..] {
        TailMember(a, x);
        TailMember(b, x);
      }
      AscendingUnique(a[1..], b[1..]);
    }
  }

  lemma TailMember(a: seq<string>, x: string)
    requires a != [] && Ascending(a)
    ensures x in a[1..] <==> x in a && x != a[0]
  {
    KeyLessTotal(a[0], a[0]);
    if x in a && x != a[0] {
      var i :| 0 <= i < |a| && a[i] == x;
      assert a[1..][i - 1] == x;
    }
  }

  // ---------- printing ----------

  function HexDigit(n: nat): char
    requires n < 16
  {
    if n < 10 then ('0' as int + n) as char else ('a' as int + n - 10) as char
  }

  /** `JSON.stringify`'s escape of one character. */
  function EscapeChar(c: char): string {
    if c == '"' then "\\\""
    else if c == '\\' then "\\\\"
    else if c as int == 8 then "\\b"
    else if c == '\t' then "\\t"
    else if c == '\n' then "\\n"
    else if c as int == 12 then "\\f"
    else if c == '\r' then "\\r"
    else if c as int < 0x20 then "\\u00" + [HexDigit(c as int / 16), HexDigit(c as int % 16)]
    else [c]
  }

  function Escape(s: string): string {
    if s == "" then "" else EscapeChar(s[0]) + Escape(s[1..])
  }

  function Quote(s: string): string {
    "\"" + Escape(s) + "\""
  }

  function PrintNat(n: nat): string {
    var digit := [('0' as int + n % 10) as char];
    if n < 10 then digit else PrintNat(n / 10) + digit
  }

  function PrintInt(n: int): string {
    if n < 0 then "-" + PrintNat(-n) else PrintNat(n)
  }

  /** `canonicalJson`. */
  function Canonical(j: Json): string
    requires WellFormed(j)
    decreases j, 1, 0
  {
    match j
    case Null => "null"
    case Bool(b) => if b then "true" else "false"
    case Num(n) => PrintInt(n)
    case Str(s) => Quote(s)
    case Arr(items) => "[" + PrintItems(j, items) + "]"
    case Obj(keys, fields) =>
      SortKeysAscending(keys);
      "{" + PrintMembers(j, SortKeys(keys)) + "}"
  }

  /** The items of `whole`, joined with commas. */
  function PrintItems(ghost whole: Json, items: seq<Json>): string
    requires forall i :: 0 <= i < |items| ==> items[i] < whole && WellFormed(items[i])
    decreases whole, 0, |items|
  {
    if items == [] then ""
    else if |items| == 1 then Canonical(items[0])
    else Canonical(items[0]) + "," + PrintItems(whole, items[1..])
  }

  /** The members `keys` of the object `whole`, joined with commas. */
  function PrintMembers(whole: Json, keys: seq<string>): string
    requires whole.Obj? && WellFormed(whole)
    requires forall k <- keys :: k in whole.fields
    decreases whole, 0, |keys|
  {
    if keys == [] then ""
    else
      var member := Quote(keys[0]) + ":" + Canonical(whole.fields[keys[0]]);
      if |keys| == 1 then member else member + "," + PrintMembers(whole, keys[1..])
  }

  // ---------- decoding ----------

  datatype Parsed<+T> = Parsed(value: T, rest: string)

  predicate IsDigit(c: char) { '0' <= c <= '9' }

  function HexValue(c: char): Option<nat> {
    if IsDigit(c) then Some(c as int - '0' as int)
    else if 'a' <= c <= 'f' then Some(c as int - 'a' as int + 10)
    else if 'A' <= c <= 'F' then Some(c as int - 'A' as int + 10)
    else None
  }

  function DecodeHex4(t: string): Option<char>
    requires |t| >= 4
  {
    match (HexValue(t[0]), HexValue(t[1]), HexValue(t[2]), HexValue(t[3]))
    case (Some(a), Some(b), Some(c), Some(d)) =>
      var n := a * 4096 + b * 256 + c * 16 + d;
      if n < 0xD800 || 0xE000 <= n < 0x10000 then Some(n as char) else None
    case _ => None
  }

  /** One character of a string's body, escaped or not. */
  function DecodeChar(t: string): (r: Option<Parsed<char>>)
    requires t != ""
    ensures r.Some? ==> |r.value.rest| < |t|
  {
    if t[0] != '\\' then (if t[0] as int < 0x20 then None else Some(Parsed(t[0], t[1..])))
    else if |t| < 2 then None
    else if t[1] == '"' || t[1] == '\\' || t[1] == '/' then Some(Parsed(t[1], t[2..]))
    else if t[1] == 'b' then Some(Parsed(8 as char, t[2..]))
    else if t[1] == 't' then Some(Parsed('\t', t[2..]))
    else if t[1] == 'n' then Some(Parsed('\n', t[2..]))
    else if t[1] == 'f' then Some(Parsed(12 as char, t[2..]))
    else if t[1] == 'r' then Some(Parsed('\r', t[2..]))
    else if t[1] == 'u' && |t| >= 6 then
      match DecodeHex4(t[2..6])
      case Some(c) => Some(Parsed(c, t[6..]))
      case None => None
    else None
  }

  /** A string's body and its closing quote. */
  function DecodeString(t: string): (r: Option<Parsed<string>>)
    ensures r.Some? ==> |r.value.rest| < |t|
    decreases |t|
  {
    if t == "" then None
    else if t[0] == '"' then Some(Parsed("", t[1..]))
    else
      match DecodeChar(t)
      case None => None
      case Some(c) =>
        match DecodeString(c.rest)
        case None => None
        case Some(s) => Some(Parsed([c.value] + s.value, s.rest))
  }

  function DigitRun(t: string): (n: nat)
    ensures n <= |t|
    ensures forall i :: 0 <= i < n ==> IsDigit(t[i])
  {
    if t == "" || !IsDigit(t[0]) then 0 else 1 + DigitRun(t[1..])
  }

  function ReadNat(digits: string): nat
    requires forall i :: 0 <= i < |digits| ==> IsDigit(digits[i])
  {
    if digits == "" then 0
    else
      assert IsDigit(digits[|digits| - 1]);
      ReadNat(digits[..|digits| - 1]) * 10 + (digits[|digits| - 1] as int - '0' as int)
  }

  function DecodeDigits(t: string): (r: Option<Parsed<nat>>)
    ensures r.Some? ==> |r.value.rest| < |t|
  {
    var n := DigitRun(t);
    if n == 0 then None else Some(Parsed(ReadNat(t[..n]), t[n..]))
  }

  function DecodeNumber(t: string): (r: Option<Parsed<int>>)
    ensures r.Some? ==> |r.value.rest| < |t|
  {
    if At(t, '-') then
      match DecodeDigits(t[1..])
      case Some(d) => Some(Parsed(0 - d.value, d.rest))
      case None => None
    else
      match DecodeDigits(t)
      case Some(d) => Some(Parsed(d.value, d.rest))
      case None => None
  }

  predicate At(t: string, c: char) {
    t != "" && t[0] == c
  }

  /** The fixed text `word`, standing for `v`. */
  function DecodeWord(t: string, word: string, v: Value): (r: Option<Parsed<Value>>)
    requires word != ""
    ensures r.Some? ==> |r.value.rest| < |t|
  {
    if word <= t then Some(Parsed(v, t[|word|..])) else None
  }

  function Decode(t: string): (r: Option<Parsed<Value>>)
    ensures r.Some? ==> |r.value.rest| < |t|
    decreases |t|, 1
  {
    if At(t, 'n') then DecodeWord(t, "null", VNull)
    else if At(t, 't') then DecodeWord(t, "true", VBool(true))
    else if At(t, 'f') then DecodeWord(t, "false", VBool(false))
    else if At(t, '"') then
      match DecodeString(t[1..])
      case Some(s) => Some(Parsed(VStr(s.value), s.rest))
      case None => None
    else if At(t, '[') then
      if At(t[1..], ']') then Some(Parsed(VArr([]), t[2..]))
      else
        match DecodeItems(t[1..])
        case Some(p) => Some(Parsed(VArr(p.value), p.rest))
        case None => None
    else if At(t, '{') then
      if At(t[1..], '}') then Some(Parsed(VObj(map[]), t[2..]))
      else
        match DecodeMembers(t[1..])
        case Some(p) => Some(Parsed(VObj(p.value), p.rest))
        case None => None
    else
      match DecodeNumber(t)
      case Some(n) => Some(Parsed(VNum(n.value), n.rest))
      case None => None
  }

  /** A non-empty array's items and its closing bracket. */
  function DecodeItems(t: string): (r: Option<Parsed<seq<Value>>>)
    ensures r.Some? ==> |r.value.rest| < |t|
    decreases |t|, 2
  {
    match Decode(t)
    case None => None
    case Some(v) =>
      if At(v.rest, ']') then Some(Parsed([v.value], v.rest[1..]))
      else if At(v.rest, ',') then
        match DecodeItems(v.rest[1..])
        case Some(vs) => Some(Parsed([v.value] + vs.value, vs.rest))
        case None => None
      else None
  }

  /** A non-empty object's members and its closing brace; of a repeated name, the last counts. */
  function DecodeMembers(t: string): (r: Option<Parsed<map<string, Value>>>)
    ensures r.Some? ==> |r.value.rest| < |t|
    decreases |t|, 2
  {
    if !At(t, '"') then None
    else
      match DecodeString(t[1..])
      case None => None
      case Some(k) =>
        if !At(k.rest, ':') then None
        else
          match Decode(k.rest[1..])
          case None => None
          case Some(v) =>
            if At(v.rest, '}') then Some(Parsed(map[k.value := v.value], v.rest[1..]))
            else if At(v.rest, ',') then
              match DecodeMembers(v.rest[1..])
              case Some(m) => Some(Parsed(map[k.value := v.value] + m.value, m.rest))
              case None => None
            else None
  }
}
