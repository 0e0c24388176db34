/** The decoder is a left inverse of `canonicalJson`; the consequences for equality of text. */
module CanonicalRoundTrip {
  import opened Wrappers
  import opened Json
  import opened CanonicalJson
  import opened Lists

  /** A printed value ends itself, except that a number runs on into digits that follow it. */
  predicate Delimited(j: Json, rest: string) {
    j.Num? ==> rest == "" || !IsDigit(rest[0])
  }

  lemma Cut(a: string, b: string)
    ensures (a + b)[|a|..] == b && (a + b)[..|a|] == a && a <= a + b
  {
  }

  // ---------- strings ----------

  lemma HexDecodes(n: nat)
    requires n < 16
    ensures HexValue(HexDigit(n)) == Some(n)
  {
  }

  lemma CharDecodes(c: char, rest: string)
    ensures DecodeChar(EscapeChar(c) + rest) == Some(Parsed(c, rest))
    ensures (EscapeChar(c) + rest)[0] != '"'
  {
    var e := EscapeChar(c);
    Cut(e, rest);
    if |e| == 6 {
      assert (e + rest)[2..6] == e[2..6];
      HexDecodes(c as int / 16);
      HexDecodes(c as int % 16);
    }
  }

  /** One more character in front of a string body the decoder reads. */
  lemma CharThenString(c: char, t: string, s: string, rest: string)
    requires DecodeString(t) == Some(Parsed(s, rest))
    ensures DecodeString(EscapeChar(c) + t) == Some(Parsed([c] + s, rest))
  {
    CharDecodes(c, t);
  }

  lemma {:induction false} StringDecodes(s: string, rest: string)
    ensures DecodeString(Escape(s) + "\"" + rest) == Some(Parsed(s, rest))
  {
    if s == "" {
      Cut("\"", rest);
      assert Escape(s) + "\"" + rest == "\"" + rest;
    } else {
      var tail := Escape(s[1..]) + "\"" + rest;
      assert Escape(s) + "\"" + rest == EscapeChar(s[0]) + tail;
      StringDecodes(s[1..], rest);
      CharThenString(s[0], tail, s[1..], rest);
      assert [s[0]] + s[1..] == s;
    }
  }

  // ---------- numbers ----------

  lemma {:induction false} NatReads(n: nat)
    ensures |PrintNat(n)| > 0
    ensures forall i :: 0 <= i < |PrintNat(n)| ==> IsDigit(PrintNat(n)[i])
    ensures ReadNat(PrintNat(n)) == n
  {
    var p := PrintNat(n);
    if n < 10 {
      assert p[..0] == "";
    } else {
      NatReads(n / 10);
      assert p[..|p| - 1] == PrintNat(n / 10);
    }
  }

  lemma {:induction false} RunCovers(digits: string, rest: string)
    requires forall i :: 0 <= i < |digits| ==> IsDigit(digits[i])
    ensures DigitRun(digits + rest) == |digits| + DigitRun(rest)
  {
    if digits == "" {
      assert digits + rest == rest;
    } else {
      assert (digits + rest)[1..] == digits[1..] + rest;
      RunCovers(digits[1..], rest);
    }
  }

  /** A printed number is read up to the end of the digits that follow it. */
  lemma DigitsDecode(digits: string, rest: string)
    requires digits != "" && forall i :: 0 <= i < |digits| ==> IsDigit(digits[i])
    ensures var d := DecodeDigits(digits + rest);
            d.Some? && d.value.rest == rest[DigitRun(rest)..]
                && (DigitRun(rest) == 0 ==> d.value.value == ReadNat(digits))
  {
    RunCovers(digits, rest);
    Cut(digits, rest);
    var t := digits + rest;
    assert t[|digits| + DigitRun(rest)..] == rest[DigitRun(rest)..];
  }

  ghost function Digits(n: int): string { PrintNat(if n < 0 then 0 - n else n) }

  lemma NumberDecodes(t: string, n: int, rest: string)
    requires t == PrintInt(n) + rest
    requires DecodeDigits(Digits(n) + rest).Some?
    ensures var d := DecodeDigits(Digits(n) + rest).value;
            DecodeNumber(t) == Some(Parsed(if n < 0 then 0 - d.value else d.value, d.rest))
  {
    NumberText(n, rest);
  }

  lemma NumberText(n: int, rest: string)
    ensures var t := PrintInt(n) + rest;
            if n < 0 then At(t, '-') && t[1..] == Digits(n) + rest
            else t != "" && IsDigit(t[0]) && t == Digits(n) + rest
  {
    NatReads(if n < 0 then 0 - n else n);
  }

  lemma IntDecodes(n: int, rest: string)
    requires DigitRun(rest) == 0
    ensures Decode(PrintInt(n) + rest) == Some(Parsed(VNum(n), rest))
  {
    NatReads(if n < 0 then 0 - n else n);
    DigitsDecode(Digits(n), rest);
    NumberDecodes(PrintInt(n) + rest, n, rest);
    NumberText(n, rest);
    NumberValue(PrintInt(n) + rest);
  }

  lemma UndelimitedIntRunsOn(n: int, rest: string)
    requires DigitRun(rest) > 0
    ensures Decode(PrintInt(n) + rest) != Some(Parsed(VNum(n), rest))
  {
    NatReads(if n < 0 then 0 - n else n);
    DigitsDecode(Digits(n), rest);
    NumberDecodes(PrintInt(n) + rest, n, rest);
    NumberText(n, rest);
    NumberValue(PrintInt(n) + rest);
  }

  // ---------- one level of structure: the text is cut elsewhere ----------

  lemma NumberValue(t: string)
    requires t != "" && (t[0] == '-' || IsDigit(t[0])) && DecodeNumber(t).Some?
    ensures Decode(t) == Some(Parsed(VNum(DecodeNumber(t).value.value), DecodeNumber(t).value.rest))
  {
  }

  lemma WordValue(t: string, word: string, v: Value, rest: string)
    requires (word, v) == ("null", VNull) || (word, v) == ("true", VBool(true)) || (word, v) == ("false", VBool(false))
    requires word <= t && t[|word|..] == rest
    ensures Decode(t) == Some(Parsed(v, rest))
  {
    assert t[0] == word[0];
  }

  lemma StringValue(t: string, s: string, rest: string)
    requires At(t, '"') && DecodeString(t[1..]) == Some(Parsed(s, rest))
    ensures Decode(t) == Some(Parsed(VStr(s), rest))
  {
  }

  lemma EmptyValue(t: string, rest: string)
    requires |t| >= 2 && t[2..] == rest
    ensures t[0] == '[' && t[1] == ']' ==> Decode(t) == Some(Parsed(VArr([]), rest))
    ensures t[0] == '{' && t[1] == '}' ==> Decode(t) == Some(Parsed(VObj(map[]), rest))
  {
  }

  lemma ArrayValue(t: string, vs: seq<Value>, rest: string)
    requires At(t, '[') && !At(t[1..], ']') && DecodeItems(t[1..]) == Some(Parsed(vs, rest))
    ensures Decode(t) == Some(Parsed(VArr(vs), rest))
  {
  }

  lemma ObjectValue(t: string, m: map<string, Value>, rest: string)
    requires At(t, '{') && !At(t[1..], '}') && DecodeMembers(t[1..]) == Some(Parsed(m, rest))
    ensures Decode(t) == Some(Parsed(VObj(m), rest))
  {
  }

  lemma LastItem(t: string, v: Value, u: string)
    requires Decode(t) == Some(Parsed(v, u)) && At(u, ']')
    ensures DecodeItems(t) == Some(Parsed([v], u[1..]))
  {
  }

  lemma NextItem(t: string, v: Value, u: string, vs: seq<Value>, rest: string)
    requires Decode(t) == Some(Parsed(v, u)) && At(u, ',') && DecodeItems(u[1..]) == Some(Parsed(vs, rest))
    ensures DecodeItems(t) == Some(Parsed([v] + vs, rest))
  {
  }

  lemma LastMember(t: string, k: string, w: string, v: Value, u: string)
    requires At(t, '"') && DecodeString(t[1..]) == Some(Parsed(k, w)) && At(w, ':')
    requires Decode(w[1..]) == Some(Parsed(v, u)) && At(u, '}')
    ensures DecodeMembers(t) == Some(Parsed(map[k := v], u[1..]))
  {
  }

  lemma NextMember(t: string, k: string, w: string, v: Value, u: string, m: map<string, Value>, rest: string)
    requires At(t, '"') && DecodeString(t[1..]) == Some(Parsed(k, w)) && At(w, ':')
    requires Decode(w[1..]) == Some(Parsed(v, u)) && At(u, ',') && DecodeMembers(u[1..]) == Some(Parsed(m, rest))
    ensures DecodeMembers(t) == Some(Parsed(map[k := v] + m, rest))
  {
  }

  // ---------- cutting the text ----------

  lemma Front(c: char, u: string)
    ensures At([c] + u, c) && ([c] + u)[1..] == u
  {
  }

  lemma Enclosed(open: char, body: string, close: string, rest: string)
    requires body != ""
    ensures var t := [open] + body + close + rest; At(t, open) && t[1..] == body + close + rest && t[1] == body[0]
  {
  }

  lemma QuoteText(s: string, rest: string)
    ensures At(Quote(s) + rest, '"') && (Quote(s) + rest)[1..] == Escape(s) + "\"" + rest
  {
  }

  lemma ItemsText(first: string, more: string, rest: string)
    ensures first + "," + more + "]" + rest == first + ("," + (more + "]" + rest))
    ensures first + "]" + rest == first + ("]" + rest)
  {
  }

  lemma MembersText(q: string, v: string, more: string, rest: string)
    ensures q + ":" + v + "}" + rest == q + (":" + (v + ("}" + rest)))
    ensures q + ":" + v + "," + more + "}" + rest == q + (":" + (v + ("," + (more + "}" + rest))))
  {
  }

  // ---------- values ----------

  ghost function Meanings(items: seq<Json>): seq<Value> {
    seq(|items|, i requires 0 <= i < |items| => Meaning(items[i]))
  }

  lemma FirstChar(j: Json)
    requires WellFormed(j)
    ensures Canonical(j) != "" && Canonical(j)[0] != ']'
  {
    match j
    case Num(n) => NumberText(n, "");
    case Str(s) => QuoteText(s, "");
    case _ =>
  }

  lemma {:induction false} ValueDecodes(j: Json, rest: string)
    requires WellFormed(j) && Delimited(j, rest)
    ensures Decode(Canonical(j) + rest) == Some(Parsed(Meaning(j), rest))
    decreases j, 2, 0
  {
    Cut(Canonical(j), rest);
    match j
    case Null => WordValue("null" + rest, "null", VNull, rest);
    case Bool(b) => WordValue(Canonical(j) + rest, Canonical(j), VBool(b), rest);
    case Num(n) => IntDecodes(n, rest);
    case Str(s) =>
      QuoteText(s, rest);
      StringDecodes(s, rest);
      StringValue(Quote(s) + rest, s, rest);
    case Arr(items) => ArrayDecodes(j, rest);
    case Obj(keys, fields) => ObjectDecodes(j, rest);
  }

  lemma {:induction false} ArrayDecodes(j: Json, rest: string)
    requires WellFormed(j) && j.Arr?
    ensures Decode(Canonical(j) + rest) == Some(Parsed(Meaning(j), rest))
    decreases j, 1, 0
  {
    if j.items == [] {
      assert Canonical(j) == "[]";
      assert |Meaning(j).items| == 0;
      Cut("[]", rest);
      EmptyValue("[]" + rest, rest);
    } else {
      ItemsDecode(j, j.items, rest);
      Enclosed('[', PrintItems(j, j.items), "]", rest);
      ArrayValue(Canonical(j) + rest, Meanings(j.items), rest);
    }
  }

  lemma {:induction false} ObjectDecodes(j: Json, rest: string)
    requires WellFormed(j) && j.Obj?
    ensures Decode(Canonical(j) + rest) == Some(Parsed(Meaning(j), rest))
    decreases j, 1, 0
  {
    SortedMembers(j);
    var ks := SortKeys(j.keys);
    if ks == [] {
      assert Canonical(j) == "{}";
      Cut("{}", rest);
      EmptyValue("{}" + rest, rest);
    } else {
      MembersDecode(j, ks, rest);
      Enclosed('{', PrintMembers(j, ks), "}", rest);
      ObjectValue(Canonical(j) + rest, MemberMeanings(j, ks), rest);
    }
  }

  lemma SortedMembers(j: Json)
    requires WellFormed(j) && j.Obj?
    ensures Ascending(SortKeys(j.keys))
    ensures forall k <- SortKeys(j.keys) :: k in j.fields
    ensures Meaning(j) == VObj(MemberMeanings(j, SortKeys(j.keys)))
  {
    SortKeysAscending(j.keys);
    assert forall k :: k in j.fields <==> k in SortKeys(j.keys);
  }

  lemma {:induction false} ItemsDecode(whole: Json, items: seq<Json>, rest: string)
    requires items != []
    requires forall i :: 0 <= i < |items| ==> items[i] < whole && WellFormed(items[i])
    ensures PrintItems(whole, items) != "" && PrintItems(whole, items)[0] != ']'
    ensures DecodeItems(PrintItems(whole, items) + "]" + rest) == Some(Parsed(Meanings(items), rest))
    decreases whole, 0, |items|
  {
    var first := Canonical(items[0]);
    var t := PrintItems(whole, items) + "]" + rest;
    FirstChar(items[0]);
    if |items| == 1 {
      ItemsText(first, "", rest);
      ValueDecodes(items[0], "]" + rest);
      Front(']', rest);
      LastItem(t, Meaning(items[0]), "]" + rest);
      assert Meanings(items) == [Meaning(items[0])];
    } else {
      var more := PrintItems(whole, items[1..]);
      ItemsText(first, more, rest);
      var tail := more + "]" + rest;
      ValueDecodes(items[0], "," + tail);
      ItemsDecode(whole, items[1..], rest);
      Front(',', tail);
      NextItem(t, Meaning(items[0]), "," + tail, Meanings(items[1..]), rest);
      assert Meanings(items) == [Meaning(items[0])] + Meanings(items[1..]);
    }
  }

  ghost function MemberMeanings(whole: Json, keys: seq<string>): map<string, Value>
    requires whole.Obj? && forall k <- keys :: k in whole.fields
  {
    map k | k in keys :: Meaning(whole.fields[k])
  }

  lemma FirstMember(whole: Json, keys: seq<string>)
    requires keys != [] && whole.Obj? && Ascending(keys) && forall k <- keys :: k in whole.fields
    ensures MemberMeanings(whole, keys)
         == map[keys[0] := Meaning(whole.fields[keys[0]])] + MemberMeanings(whole, keys[1..])
  {
    forall x ensures x in keys[1..] <==> x in keys && x != keys[0] { TailMember(keys, x); }
  }

  /** A member's name, in front of everything after it. */
  lemma NameDecodes(t: string, k: string, w: string)
    requires t == Quote(k) + (":" + w)
    ensures At(t, '"') && DecodeString(t[1..]) == Some(Parsed(k, ":" + w))
    ensures At(":" + w, ':') && (":" + w)[1..] == w
  {
    QuoteText(k, ":" + w);
    StringDecodes(k, ":" + w);
    Front(':', w);
  }

  lemma {:induction false} MembersDecode(whole: Json, keys: seq<string>, rest: string)
    requires keys != [] && whole.Obj? && WellFormed(whole) && Ascending(keys)
    requires forall k <- keys :: k in whole.fields
    ensures At(PrintMembers(whole, keys), '"')
    ensures DecodeMembers(PrintMembers(whole, keys) + "}" + rest) == Some(Parsed(MemberMeanings(whole, keys), rest))
    decreases whole, 0, |keys|
  {
    var k := keys[0];
    var v := Canonical(whole.fields[k]);
    var t := PrintMembers(whole, keys) + "}" + rest;
    QuoteText(k, "");
    if |keys| == 1 {
      MembersText(Quote(k), v, "", rest);
      ValueDecodes(whole.fields[k], "}" + rest);
      NameDecodes(t, k, v + ("}" + rest));
      Front('}', rest);
      LastMember(t, k, ":" + (v + ("}" + rest)), Meaning(whole.fields[k]), "}" + rest);
      assert MemberMeanings(whole, keys) == map[k := Meaning(whole.fields[k])];
    } else {
      var more := PrintMembers(whole, keys[1..]);
      MembersText(Quote(k), v, more, rest);
      var tail := more + "}" + rest;
      ValueDecodes(whole.fields[k], "," + tail);
      MembersDecode(whole, keys[1..], rest);
      NameDecodes(t, k, v + ("," + tail));
      Front(',', tail);
      NextMember(t, k, ":" + (v + ("," + tail)), Meaning(whole.fields[k]), "," + tail,
          MemberMeanings(whole, keys[1..]), rest);
      FirstMember(whole, keys);
    }
  }

  // ---------- the laws ----------

  /** Left inverse: the value is recovered whatever follows its text, exactly when the text is delimited. */
  lemma CanonicalLeftInverse(j: Json, rest: string)
    requires WellFormed(j)
    ensures Decode(Canonical(j) + rest) == Some(Parsed(Meaning(j), rest)) <==> Delimited(j, rest)
  {
    if Delimited(j, rest) {
      ValueDecodes(j, rest);
    } else {
      UndelimitedIntRunsOn(j.n, rest);
    }
  }

  lemma {:induction false} SameMeaningSameText(a: Json, b: Json)
    requires WellFormed(a) && WellFormed(b) && Meaning(a) == Meaning(b)
    ensures Canonical(a) == Canonical(b)
    decreases a, 1, 0
  {
    match a
    case Arr(items) =>
      assert |Meaning(a).items| == |items| && |Meaning(b).items| == |b.items|;
      forall i | 0 <= i < |items| ensures Meaning(items[i]) == Meaning(b.items[i]) {
        assert Meaning(a).items[i] == Meaning(b.items[i]);
      }
      SameItemsSameText(a, items, b, b.items);
    case Obj(keys, fields) =>
      SortKeysAscending(keys);
      SortKeysAscending(b.keys);
      assert Meaning(a).fields.Keys == fields.Keys && Meaning(b).fields.Keys == b.fields.Keys;
      forall k ensures k in SortKeys(keys) <==> k in SortKeys(b.keys) {
        assert k in keys <==> k in fields.Keys;
        assert k in b.keys <==> k in b.fields.Keys;
      }
      AscendingUnique(SortKeys(keys), SortKeys(b.keys));
      SameMembersSameText(a, b, SortKeys(keys));
    case _ =>
  }

  lemma {:induction false} SameItemsSameText(a: Json, xs: seq<Json>, b: Json, ys: seq<Json>)
    requires |xs| == |ys|
    requires forall i :: 0 <= i < |xs| ==> xs[i] < a && WellFormed(xs[i]) && ys[i] < b && WellFormed(ys[i])
    requires forall i :: 0 <= i < |xs| ==> Meaning(xs[i]) == Meaning(ys[i])
    ensures PrintItems(a, xs) == PrintItems(b, ys)
    decreases a, 0, |xs|
  {
    if xs != [] {
      SameMeaningSameText(xs[0], ys[0]);
      SameItemsSameText(a, xs[1..], b, ys[1..]);
    }
  }

  lemma {:induction false} SameMembersSameText(a: Json, b: Json, keys: seq<string>)
    requires a.Obj? && b.Obj? && WellFormed(a) && WellFormed(b) && Meaning(a) == Meaning(b)
    requires forall k <- keys :: k in a.fields && k in b.fields
    ensures PrintMembers(a, keys) == PrintMembers(b, keys)
    decreases a, 0, |keys|
  {
    if keys != [] {
      assert Meaning(a).fields[keys[0]] == Meaning(b).fields[keys[0]];
      SameMeaningSameText(a.fields[keys[0]], b.fields[keys[0]]);
      SameMembersSameText(a, b, keys[1..]);
    }
  }

  /** Two values print the same text exactly when they are equal with objects as unordered maps. */
  lemma CanonicalInjective(a: Json, b: Json)
    requires WellFormed(a) && WellFormed(b)
    ensures Canonical(a) == Canonical(b) <==> Meaning(a) == Meaning(b)
  {
    if Canonical(a) == Canonical(b) {
      ValueDecodes(a, "");
      ValueDecodes(b, "");
    } else if Meaning(a) == Meaning(b) {
      SameMeaningSameText(a, b);
    }
  }

  /** Re-inserting an object's members in any other order never changes its text. */
  lemma InsertionOrderIrrelevant(keys: seq<string>, other: seq<string>, fields: map<string, Json>)
    requires WellFormed(Obj(keys, fields))
    requires Distinct(other) && (set k | k in other) == fields.Keys
    ensures Canonical(Obj(keys, fields)) == Canonical(Obj(other, fields))
  {
    CanonicalInjective(Obj(keys, fields), Obj(other, fields));
  }
}
