/** What of a persona leaves for a bundle, and what never does. */
module ExportLaws {
  import opened Wrappers
  import opened Json
  import opened Characters
  import opened Lists
  import opened CatalogFile
  import opened PersonaExport

  // ---------- texts ----------

  /** A text that may travel: no personal data, one printable line, not too long. */
  predicate Travels(t: TextRules, s: string, max: nat) { !t.personal(s) && t.oneLine(s) && Units(s) <= max }

  ghost predicate TextExactly(t: TextRules, out: Option<string>, f: map<string, Json>, key: string, max: nat) {
    && (out.Some? <==> key in f && f[key].Str? && Travels(t, f[key].s, max))
    && (out.Some? ==> Str(out.value) == f[key])
  }

  /** A text under that key that holds personal data. */
  predicate Personal(t: TextRules, f: map<string, Json>, key: string) {
    key in f && f[key].Str? && t.personal(f[key].s)
  }

  /** A text without personal data that still may not travel. */
  predicate Unfit(t: TextRules, f: map<string, Json>, key: string, max: nat) {
    key in f && f[key].Str? && !t.personal(f[key].s) && !Travels(t, f[key].s, max)
  }

  lemma TextMeans(t: TextRules, f: Json, key: string, max: nat)
    requires f.Obj?
    ensures var v := TextVerdict(t, Get(f, key), max);
            && TextExactly(t, TextOf(v, Get(f, key)), f.fields, key, max)
            && (v.Refuse? <==> Personal(t, f.fields, key))
            && (v.Left? <==> Unfit(t, f.fields, key, max))
  {
  }

  // ---------- the other fields ----------

  /** The fields with a place, or a treatment, of their own. */
  predicate OwnPlace(k: string) {
    k == "id" || k == "name" || k == "description" || k == "role" || k == "approval" || k == "storageState"
    || k == "login"
  }

  /** 1 to 64 letters, digits and underscores, the first a letter. */
  predicate ProperKey(k: string) {
    && 0 < |k| < 65
    && (forall i :: 0 <= i < |k| ==>
          48 <= k[i] as int <= 57 || 65 <= k[i] as int <= 90 || 97 <= k[i] as int <= 122 || k[i] == '_')
    && !(48 <= k[0] as int <= 57) && k[0] != '_'
  }

  /** A number, a truth value, or a text of at most 1000 UTF-16 code units. */
  predicate Simple(v: Json) {
    match v
    case Num(_) => true
    case Bool(_) => true
    case Str(s) => Units(s) < 1001
    case _ => false
  }

  /** A field that travels under its own name. */
  predicate Carried(t: TextRules, k: string, v: Json) {
    !OwnPlace(k) && !(v.Str? && t.personal(v.s)) && ProperKey(k) && Simple(v)
  }

  /** A field that is left out. */
  predicate LeftOut(t: TextRules, k: string, v: Json) {
    !OwnPlace(k) && !(v.Str? && t.personal(v.s)) && !(ProperKey(k) && Simple(v))
  }

  lemma FieldMeans(t: TextRules, k: string, v: Json)
    ensures FieldVerdict(t, k, v).Carry? <==> Carried(t, k, v)
    ensures FieldVerdict(t, k, v).Left? <==> LeftOut(t, k, v)
    ensures FieldVerdict(t, k, v).Refuse? <==> !OwnPlace(k) && v.Str? && t.personal(v.s)
  {
  }

  /** The keys `p` holds of, in order. */
  function Chosen(p: string -> bool, keys: seq<string>): seq<string> {
    if keys == [] then []
    else
      var front := Chosen(p, keys[..|keys| - 1]);
      if p(keys[|keys| - 1]) then front + [keys[|keys| - 1]] else front
  }

  lemma {:induction false} ChosenExactly(p: string -> bool, keys: seq<string>)
    ensures forall k :: k in Chosen(p, keys) <==> k in keys && p(k)
    ensures Distinct(keys) ==> Distinct(Chosen(p, keys))
  {
    if keys != [] {
      ChosenExactly(p, keys[..|keys| - 1]);
      assert keys == keys[..|keys| - 1] + [keys[|keys| - 1]];
    }
  }

  function Carries(t: TextRules, f: map<string, Json>): string -> bool { k => k in f && Carried(t, k, f[k]) }

  function LeavesOut(t: TextRules, f: map<string, Json>): string -> bool { k => k in f && LeftOut(t, k, f[k]) }

  function Refuses(t: TextRules, f: map<string, Json>): string -> bool { k => !OwnPlace(k) && Personal(t, f, k) }

  /** What the fields `keys` of `f` make of the scan `s`. */
  ghost predicate ScannedTo(t: TextRules, s: Scan, z: Scan, f: map<string, Json>, keys: seq<string>) {
    && z.others.Obj?
    && z.others.keys == Chosen(Carries(t, f), keys)
    && z.others.fields == (map k | k in z.others.keys && k in f :: f[k])
    && z.dropped == s.dropped + Chosen(LeavesOut(t, f), keys)
    && z.refused == s.refused + Chosen(Refuses(t, f), keys)
  }

  /** The first `n` fields, one by one: carried, left out, or refused. */
  lemma {:induction false} ScanMeans(t: TextRules, s: Scan, f: Json, n: nat)
    requires Keyed(f) && Distinct(f.keys) && n <= |f.keys| && s.others == EMPTY
    ensures ScannedTo(t, s, ScanFields(t, s, f, n), f.fields, f.keys[..n])
  {
    if n > 0 {
      ScanMeans(t, s, f, n - 1);
      OneMore(f.keys, n);
      ScanNext(t, s, ScanFields(t, s, f, n - 1), f.fields, f.keys[..n - 1], f.keys[n - 1]);
    }
  }

  lemma ScanNext(t: TextRules, s: Scan, z: Scan, f: map<string, Json>, keys: seq<string>, k: string)
    requires ScannedTo(t, s, z, f, keys) && k in f && k !in keys
    ensures ScannedTo(t, s, Scanned(t, z, k, f[k]), f, keys + [k])
  {
    FieldMeans(t, k, f[k]);
    ChosenNext(Carries(t, f), keys, k);
    ChosenNext(LeavesOut(t, f), keys, k);
    ChosenNext(Refuses(t, f), keys, k);
    ChosenExactly(Carries(t, f), keys);
    var out := Chosen(Carries(t, f), keys);
    assert forall x :: x in out + [k] <==> x in out || x == k;
  }

  lemma ChosenNext(p: string -> bool, keys: seq<string>, k: string)
    ensures Chosen(p, keys + [k]) == Chosen(p, keys) + if p(k) then [k] else []
  {
    assert (keys + [k])[..|keys|] == keys;
  }

  lemma OneMore(keys: seq<string>, n: nat)
    requires Distinct(keys) && 0 < n <= |keys|
    ensures keys[..n] == keys[..n - 1] + [keys[n - 1]] && keys[n - 1] !in keys[..n - 1] && keys[n - 1] in keys
  {
  }

  /** Dropping the keys past the `m`-th keeps the first `m`. */
  lemma {:induction false} KeepFirst(keys: seq<string>, gone: set<string>, m: nat)
    requires forall i :: 0 <= i < |keys| ==> (keys[i] in gone <==> i >= m)
    ensures Keep(keys, gone) == if m <= |keys| then keys[..m] else keys
  {
    if keys != [] {
      var n := |keys| - 1;
      KeepFirst(keys[..n], gone, m);
      assert keys == keys[..n] + [keys[n]];
    }
  }

  lemma TruncatedMeans(others: Json)
    requires others.Obj? && Distinct(others.keys)
    ensures Truncated(others).keys == if |others.keys| <= 20 then others.keys else others.keys[..20]
    ensures forall k <- Truncated(others).fields ::
              k in others.fields && Truncated(others).fields[k] == others.fields[k]
    ensures forall k <- others.fields :: k in others.keys ==>
              (k in Truncated(others).fields <==> k in Truncated(others).keys)
  {
    if |others.keys| > 20 {
      var gone := set i | 20 <= i < |others.keys| :: others.keys[i];
      KeepFirst(others.keys, gone, 20);
      forall k | k in others.fields && k in others.keys
        ensures k !in gone <==> k in others.keys[..20]
      {
        var i :| 0 <= i < |others.keys| && others.keys[i] == k;
        if k in others.keys[..20] {
          var j :| 0 <= j < 20 && others.keys[..20][j] == k;
          assert others.keys[j] == k;
        } else {
          assert i >= 20;
        }
      }
    }
  }

  // ---------- a whole persona ----------

  /** The texts that may not travel. */
  function UnfitTexts(t: TextRules, f: map<string, Json>): seq<string> {
    (if Unfit(t, f, "description", 2000) then ["description"] else [])
    + (if Unfit(t, f, "role", 200) then ["role"] else [])
  }

  function PersonalTexts(t: TextRules, f: map<string, Json>): seq<string> {
    (if Personal(t, f, "description") then ["description"] else [])
    + (if Personal(t, f, "role") then ["role"] else [])
  }

  /**
   * What leaves with a persona: its id, the texts and the fields that may travel, the first 20 of those, each as
   * it stands in the file. Everything else is named, as left out or as refused for the personal data in it.
   */
  lemma ExportsExactly(t: TextRules, p: RawPersona, approval: Option<Json>)
    requires Keyed(p.fields) && Distinct(p.fields.keys)
    ensures var (e, f, keys) := (ExportOf(t, p, approval), p.fields.fields, p.fields.keys);
            var carried := Chosen(Carries(t, f), keys);
            && e.persona.id == p.id
            && TextExactly(t, e.persona.description, f, "description", 2000)
            && TextExactly(t, e.persona.role, f, "role", 200)
            && e.persona.otherFields.Obj?
            && e.persona.otherFields.keys == (if |carried| <= 20 then carried else carried[..20])
            && (forall k <- e.persona.otherFields.fields :: k in f && e.persona.otherFields.fields[k] == f[k])
            && (forall k :: k in e.persona.otherFields.fields <==> k in e.persona.otherFields.keys)
            && e.dropped == UnfitTexts(t, f) + Chosen(LeavesOut(t, f), keys)
                            + (if |carried| <= 20 then [] else carried[20..])
            && e.refused == PersonalTexts(t, f) + Chosen(Refuses(t, f), keys)
  {
    var f, first := p.fields, FirstScan(t, p.fields);
    var s := ScanFields(t, first, f, |f.keys|);
    TextMeans(t, f, "description", 2000);
    TextMeans(t, f, "role", 200);
    ScanMeans(t, first, f, |f.keys|);
    assert f.keys[..|f.keys|] == f.keys;
    ChosenExactly(Carries(t, f.fields), f.keys);
    TruncatedMeans(s.others);
    assert first.dropped == UnfitTexts(t, f.fields) && first.refused == PersonalTexts(t, f.fields);
  }

  /** A lower-case hexadecimal SHA-256. */
  ghost predicate Sha256(s: string) { |s| == 64 && forall i :: 0 <= i < |s| ==> s[i] in "0123456789abcdef" }

  lemma Sha256Exactly(s: string)
    ensures HexDigest(s) <==> Sha256(s)
  {
    var digits := "0123456789abcdef";
    forall c: char ensures c in digits <==> '0' <= c <= '9' || 'a' <= c <= 'f' {
      if '0' <= c <= '9' { assert digits[c as int - 48] == c; }
      if 'a' <= c <= 'f' { assert digits[c as int - 87] == c; }
    }
  }

  /** An approval travels exactly when nothing is left out, and then as its hash, if that and its time are proper. */
  lemma ApprovalTravels(t: TextRules, p: RawPersona, approval: Option<Json>)
    requires p.fields.Obj?
    ensures var e := ExportOf(t, p, approval);
            && (e.persona.approval.Some? <==>
                e.dropped == [] && approval.Some? && approval.value.Obj?
                && (var a := approval.value.fields;
                    && "contentHash" in a && a["contentHash"].Str? && Sha256(a["contentHash"].s)
                    && "at" in a && a["at"].Str? && t.dateTime(a["at"].s)))
            && (e.persona.approval.Some? ==> Str(e.persona.approval.value) == approval.value.fields["contentHash"])
  {
    if approval.Some? && approval.value.Obj? && "contentHash" in approval.value.fields {
      var h := approval.value.fields["contentHash"];
      if h.Str? { Sha256Exactly(h.s); }
    }
  }
}
