/** The canonical text itself: the order of its keys, its escapes, and nothing between its parts but commas. */
module CanonicalForm {
  import opened Json
  import opened Lists
  import opened CanonicalJson
  import JsonText

  // ---------- the order of keys ----------

  /** A text as JavaScript holds it, in UTF-16 code units. */
  function Utf16(s: string): seq<int> {
    if s == "" then [] else UnitsOf(s[0]) + Utf16(s[1..])
  }

  function UnitsOf(c: char): seq<int> {
    var n := c as int;
    if n < 0x1_0000 then [n] else [0xD800 + (n - 0x1_0000) / 0x400, 0xDC00 + (n - 0x1_0000) % 0x400]
  }

  /** JavaScript's order of strings: the first unit that differs decides, and a prefix comes first. */
  predicate UnitsLess(a: seq<int>, b: seq<int>) {
    b != [] && (a == [] || a[0] < b[0] || (a[0] == b[0] && UnitsLess(a[1..], b[1..])))
  }

  lemma CharOrder(c: char, d: char, x: seq<int>, y: seq<int>)
    requires c != d
    ensures UnitsLess(UnitsOf(c) + x, UnitsOf(d) + y) <==> CharRank(c) < CharRank(d)
  {
    var (a, b) := (UnitsOf(c) + x, UnitsOf(d) + y);
    if |UnitsOf(c)| == 2 && |UnitsOf(d)| == 2 && a[0] == b[0] {
      assert a[1..][0] == UnitsOf(c)[1] && b[1..][0] == UnitsOf(d)[1];
    }
  }

  lemma {:induction false} SameUnits(u: seq<int>, x: seq<int>, y: seq<int>)
    ensures UnitsLess(u + x, u + y) <==> UnitsLess(x, y)
  {
    if u == [] {
      assert u + x == x && u + y == y;
    } else {
      assert (u + x)[1..] == u[1..] + x && (u + y)[1..] == u[1..] + y;
      SameUnits(u[1..], x, y);
    }
  }

  /** Keys are ordered by UTF-16 code units. */
  lemma {:induction false} KeyOrderExactly(a: string, b: string)
    ensures KeyLess(a, b) <==> UnitsLess(Utf16(a), Utf16(b))
  {
    if a != "" && b != "" {
      if a[0] == b[0] {
        KeyOrderExactly(a[1..], b[1..]);
        SameUnits(UnitsOf(a[0]), Utf16(a[1..]), Utf16(b[1..]));
      } else {
        CharOrder(a[0], b[0], Utf16(a[1..]), Utf16(b[1..]));
      }
    }
  }

  // ---------- strings and numbers ----------

  /** What is written for a character: a short escape, a numbered one for the other controls, or the character. */
  ghost predicate WritesChar(c: char, t: string) {
    var n := c as int;
    if n == 34 || n == 92 then t == ['\\', c]
    else if n == 8 then t == "\\b"
    else if n == 9 then t == "\\t"
    else if n == 10 then t == "\\n"
    else if n == 12 then t == "\\f"
    else if n == 13 then t == "\\r"
    else if n < 32 then
      && |t| == 6 && t[..4] == "\\u00" && t[4] == (if n < 16 then '0' else '1')
      && t[5] == "0123456789abcdef"[n % 16]
    else t == [c]
  }

  lemma EscapeExactly(c: char)
    ensures WritesChar(c, EscapeChar(c))
  {
  }

  /** A string is its characters' texts between two quotation marks. */
  lemma {:induction false} EscapeJoins(a: string, b: string)
    ensures Escape(a + b) == Escape(a) + Escape(b)
    ensures Quote(a) == "\"" + Escape(a) + "\"" && Escape("") == ""
  {
    if a == "" {
      assert a + b == b;
    } else {
      assert (a + b)[1..] == a[1..] + b;
      EscapeJoins(a[1..], b);
    }
  }

  /** What decimal digits stand for. */
  function Value(digits: string): int {
    if digits == "" then 0
    else 10 * Value(digits[..|digits| - 1]) + (digits[|digits| - 1] as int - '0' as int)
  }

  /** A number is its decimal digits, without a leading zero, after a minus sign if it is negative. */
  lemma {:induction false} DigitsExactly(n: nat)
    ensures var t := PrintNat(n);
            && Value(t) == n && t != "" && (t[0] == '0' ==> t == "0")
            && forall i :: 0 <= i < |t| ==> '0' <= t[i] <= '9'
  {
    if n >= 10 {
      DigitsExactly(n / 10);
      var front, last := PrintNat(n / 10), ('0' as int + n % 10) as char;
      assert (front + [last])[..|front|] == front;
      assert Value("0") == 10 * Value("0"[..0]) == 0;
    } else {
      assert PrintNat(n)[..0] == "";
    }
  }

  // ---------- arrays and objects ----------

  /** The parts with a comma between each two. */
  function Commas(parts: seq<string>): string {
    if parts == [] then ""
    else if |parts| == 1 then parts[0]
    else parts[0] + "," + Commas(parts[1..])
  }

  function ItemTexts(items: seq<Json>): seq<string>
    requires forall i :: 0 <= i < |items| ==> WellFormed(items[i])
  {
    seq(|items|, i requires 0 <= i < |items| => Canonical(items[i]))
  }

  function MemberTexts(j: Json, keys: seq<string>): seq<string>
    requires j.Obj? && WellFormed(j) && forall k <- keys :: k in j.fields
  {
    seq(|keys|, i requires 0 <= i < |keys| => Quote(keys[i]) + ":" + Canonical(j.fields[keys[i]]))
  }

  lemma {:induction false} ItemsJoined(whole: Json, items: seq<Json>)
    requires forall i :: 0 <= i < |items| ==> items[i] < whole && WellFormed(items[i])
    ensures PrintItems(whole, items) == Commas(ItemTexts(items))
  {
    if |items| > 1 {
      ItemsJoined(whole, items[1..]);
      assert ItemTexts(items)[1..] == ItemTexts(items[1..]);
    }
  }

  lemma {:induction false} MembersJoined(j: Json, keys: seq<string>)
    requires j.Obj? && WellFormed(j) && forall k <- keys :: k in j.fields
    ensures PrintMembers(j, keys) == Commas(MemberTexts(j, keys))
  {
    if |keys| > 1 {
      MembersJoined(j, keys[1..]);
      assert MemberTexts(j, keys)[1..] == MemberTexts(j, keys[1..]);
    }
  }

  /** All keys of the object, in the order of their code units. */
  ghost predicate InOrder(j: Json, keys: seq<string>)
    requires j.Obj?
  {
    && (forall k :: k in keys <==> k in j.fields)
    && forall a, b :: 0 <= a < b < |keys| ==> UnitsLess(Utf16(keys[a]), Utf16(keys[b]))
  }

  /** An array is its items, an object its members in the order of their keys; nothing else stands in the text. */
  lemma CanonicalExactly(j: Json, keys: seq<string>)
    requires WellFormed(j) && (j.Obj? ==> InOrder(j, keys))
    ensures j.Arr? ==> Canonical(j) == "[" + Commas(ItemTexts(j.items)) + "]"
    ensures j.Obj? ==> Canonical(j) == "{" + Commas(MemberTexts(j, keys)) + "}"
    ensures j.Str? ==> Canonical(j) == Quote(j.s)
    ensures j.Num? ==> Canonical(j) == if j.n < 0 then "-" + PrintNat(-j.n) else PrintNat(j.n)
    ensures j.Bool? ==> Canonical(j) == if j.b then "true" else "false"
    ensures j.Null? ==> Canonical(j) == "null"
  {
    if j.Arr? { ItemsJoined(j, j.items); }
    if j.Obj? {
      forall a, b | 0 <= a < b < |keys| ensures KeyLess(keys[a], keys[b]) { KeyOrderExactly(keys[a], keys[b]); }
      SortKeysAscending(j.keys);
      AscendingUnique(SortKeys(j.keys), keys);
      MembersJoined(j, keys);
    }
  }
  // ---------- JSON text in insertion order ----------

  function ItemsAsWritten(items: seq<Json>): seq<string>
    requires forall i :: 0 <= i < |items| ==> WellFormed(items[i])
  {
    seq(|items|, i requires 0 <= i < |items| => JsonText.Stringify(items[i]))
  }

  function MembersAsWritten(j: Json, keys: seq<string>): seq<string>
    requires j.Obj? && WellFormed(j) && forall k <- keys :: k in j.fields
  {
    seq(|keys|, i requires 0 <= i < |keys| => Quote(keys[i]) + ":" + JsonText.Stringify(j.fields[keys[i]]))
  }

  lemma {:induction false} WrittenItemsJoined(whole: Json, items: seq<Json>)
    requires forall i :: 0 <= i < |items| ==> items[i] < whole && WellFormed(items[i])
    ensures JsonText.StringifyItems(whole, items) == Commas(ItemsAsWritten(items))
  {
    if |items| > 1 {
      WrittenItemsJoined(whole, items[1..]);
      assert ItemsAsWritten(items)[1..] == ItemsAsWritten(items[1..]);
    }
  }

  lemma {:induction false} WrittenMembersJoined(j: Json, keys: seq<string>)
    requires j.Obj? && WellFormed(j) && forall k <- keys :: k in j.fields
    ensures JsonText.StringifyMembers(j, keys) == Commas(MembersAsWritten(j, keys))
  {
    if |keys| > 1 {
      WrittenMembersJoined(j, keys[1..]);
      assert MembersAsWritten(j, keys)[1..] == MembersAsWritten(j, keys[1..]);
    }
  }

  /** `JSON.stringify` differs in nothing but the order of the members, which is that of their insertion. */
  lemma StringifyExactly(j: Json)
    requires WellFormed(j)
    ensures j.Arr? ==> JsonText.Stringify(j) == "[" + Commas(ItemsAsWritten(j.items)) + "]"
    ensures j.Obj? ==> JsonText.Stringify(j) == "{" + Commas(MembersAsWritten(j, j.keys)) + "}"
    ensures !j.Arr? && !j.Obj? ==> JsonText.Stringify(j) == Canonical(j)
  {
    if j.Arr? { WrittenItemsJoined(j, j.items); }
    if j.Obj? { WrittenMembersJoined(j, j.keys); }
  }
}
