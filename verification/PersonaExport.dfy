/**
 * The personas of a catalog bundle (catalog-bundle.ts): what of a persona travels, and when the map its
 * approval hashes can be rebuilt from it.
 */
module PersonaExport {
  import opened Wrappers
  import opened Json
  import opened CatalogFile
  import opened Characters

  /** The contract's text patterns: personal data, one printable line, a date-time. */
  datatype TextRules = TextRules(personal: string -> bool, oneLine: string -> bool, dateTime: string -> bool)

  datatype BundlePersona = BundlePersona(
    id: string, description: Option<string>, role: Option<string>, otherFields: Json, approval: Option<string>)
  datatype Exported = Exported(persona: BundlePersona, dropped: seq<string>, refused: seq<string>)

  const NAMED_KEYS: set<string> := {"id", "name", "description", "role", "approval", "storageState", "login"}
  const MAX_OTHERS := 20
  const EMPTY := Obj([], map[])

  predicate FieldKey(k: string) {
    && 1 <= |k| <= 64
    && ('A' <= k[0] <= 'Z' || 'a' <= k[0] <= 'z')
    && forall i :: 1 <= i < |k| ==> AsciiAlnum(k[i]) || k[i] == '_'
  }

  predicate HexDigest(s: string) {
    |s| == 64 && forall i :: 0 <= i < |s| ==> '0' <= s[i] <= '9' || 'a' <= s[i] <= 'f'
  }

  datatype Verdict = Skip | Refuse | Left | Carry

  function TextVerdict(t: TextRules, v: Option<Json>, max: nat): Verdict {
    if v.None? || !v.value.Str? then Skip
    else if t.personal(v.value.s) then Refuse
    else if !t.oneLine(v.value.s) || Units(v.value.s) > max then Left
    else Carry
  }

  predicate Scalar(v: Json) {
    (v.Str? && Units(v.s) <= 1000) || v.Num? || v.Bool?
  }

  function FieldVerdict(t: TextRules, k: string, v: Json): Verdict {
    if k in NAMED_KEYS then Skip
    else if v.Str? && t.personal(v.s) then Refuse
    else if !FieldKey(k) || !Scalar(v) then Left
    else Carry
  }

  function Listed(verdict: Verdict, which: Verdict, k: string): seq<string> { if verdict == which then [k] else [] }

  datatype Scan = Scan(others: Json, dropped: seq<string>, refused: seq<string>)

  /** One more field. */
  function Scanned(t: TextRules, s: Scan, k: string, v: Json): (r: Scan)
    requires s.others.Obj?
    ensures r.others.Obj?
  {
    var verdict := FieldVerdict(t, k, v);
    Scan(if verdict.Carry? then Put(s.others, k, v) else s.others,
         s.dropped + Listed(verdict, Left, k), s.refused + Listed(verdict, Refuse, k))
  }

  /** The first `n` fields. */
  function ScanFields(t: TextRules, s: Scan, f: Json, n: nat): (r: Scan)
    requires s.others.Obj? && f.Obj? && n <= |f.keys|
    ensures r.others.Obj?
  {
    if n == 0 then s
    else
      var front, v := ScanFields(t, s, f, n - 1), Get(f, f.keys[n - 1]);
      if v.Some? then Scanned(t, front, f.keys[n - 1], v.value) else front
  }

  function Truncated(others: Json): (r: Json)
    requires others.Obj?
    ensures r.Obj?
  {
    if |others.keys| <= MAX_OTHERS then others
    else Drop(others, set i | MAX_OTHERS <= i < |others.keys| :: others.keys[i])
  }

  function ApprovalHash(t: TextRules, approval: Json): Option<string> {
    var hash, at := Get(approval, "contentHash"), Get(approval, "at");
    if hash.Some? && hash.value.Str? && HexDigest(hash.value.s) && at.Some? && at.value.Str? && t.dateTime(at.value.s)
        then Some(hash.value.s)
    else None
  }

  function TextOf(verdict: Verdict, v: Option<Json>): Option<string> {
    if verdict.Carry? && v.Some? && v.value.Str? then Some(v.value.s) else None
  }

  function FirstScan(t: TextRules, f: Json): Scan {
    var description, role := TextVerdict(t, Get(f, "description"), 2000), TextVerdict(t, Get(f, "role"), 200);
    Scan(EMPTY, Listed(description, Left, "description") + Listed(role, Left, "role"),
         Listed(description, Refuse, "description") + Listed(role, Refuse, "role"))
  }

  function ExportOf(t: TextRules, p: RawPersona, approval: Option<Json>): Exported
    requires p.fields.Obj?
  {
    var f := p.fields;
    var s := ScanFields(t, FirstScan(t, f), f, |f.keys|);
    var dropped := s.dropped + if |s.others.keys| > MAX_OTHERS then s.others.keys[MAX_OTHERS..] else [];
    Exported(
      BundlePersona(p.id,
                    TextOf(TextVerdict(t, Get(f, "description"), 2000), Get(f, "description")),
                    TextOf(TextVerdict(t, Get(f, "role"), 200), Get(f, "role")),
                    Truncated(s.others),
                    if dropped == [] && approval.Some? then ApprovalHash(t, approval.value) else None),
      dropped, s.refused)
  }

  /** The export of one persona, field by field. */
  method ExportPersona(t: TextRules, p: RawPersona, approval: Option<Json>) returns (r: Exported)
    requires p.fields.Obj?
    ensures r == ExportOf(t, p, approval)
  {
    var f := p.fields;
    var description := TextVerdict(t, Get(f, "description"), 2000);
    var dropped, refused := Listed(description, Left, "description"), Listed(description, Refuse, "description");
    var role := TextVerdict(t, Get(f, "role"), 200);
    dropped, refused := dropped + Listed(role, Left, "role"), refused + Listed(role, Refuse, "role");
    var others := EMPTY;
    for i := 0 to |f.keys|
      invariant others.Obj? && Scan(others, dropped, refused) == ScanFields(t, FirstScan(t, f), f, i)
    {
      var k := f.keys[i];
      var v := Get(f, k);
      if v.None? { continue; }
      var verdict := FieldVerdict(t, k, v.value);
      if verdict.Carry? { others := Put(others, k, v.value); }
      dropped, refused := dropped + Listed(verdict, Left, k), refused + Listed(verdict, Refuse, k);
    }
    if |others.keys| > MAX_OTHERS { dropped := dropped + others.keys[MAX_OTHERS..]; }
    var carried := if approval.None? then None else ApprovalHash(t, approval.value);
    if dropped != [] { carried := None; }
    r := Exported(BundlePersona(p.id, TextOf(description, Get(f, "description")), TextOf(role, Get(f, "role")),
        Truncated(others), carried),
                  dropped, refused);
  }

  // ---------- rebuilding the map the hash covers ----------

  function Texts(b: BundlePersona): (r: Json)
    ensures r.Obj?
  {
    var id := OnlyId(b.id);
    var described := if b.description.Some? then Put(id, "description", Str(b.description.value)) else id;
    if b.role.Some? then Put(described, "role", Str(b.role.value)) else described
  }

  /** The first `n` fields of `f`, set on `j` in order. */
  function PutAll(j: Json, f: Json, n: nat): (r: Json)
    requires j.Obj? && f.Obj? && n <= |f.keys|
    ensures r.Obj?
  {
    if n == 0 then j
    else
      var front, v := PutAll(j, f, n - 1), Get(f, f.keys[n - 1]);
      if v.Some? then Put(front, f.keys[n - 1], v.value) else front
  }

  /** What a reader of the bundle hashes: id, description, role and the other fields. */
  function Rebuilt(b: BundlePersona): (r: Json)
    requires b.otherFields.Obj?
    ensures r.Obj?
  {
    PutAll(Texts(b), b.otherFields, |b.otherFields.keys|)
  }

  ghost predicate Keyed(f: Json) {
    f.Obj? && forall k :: k in f.fields <==> k in f.keys
  }

  lemma {:induction false} GetPutAll(j: Json, f: Json, n: nat, k: string)
    requires j.Obj? && f.Obj? && n <= |f.keys|
    ensures Get(PutAll(j, f, n), k) == if k in f.keys[..n] && k in f.fields then Some(f.fields[k]) else Get(j, k)
  {
    if n > 0 {
      GetPutAll(j, f, n - 1, k);
      assert f.keys[..n] == f.keys[..n - 1] + [f.keys[n - 1]];
    }
  }

  lemma {:induction false} GetDescribe(j: Json, f: Json, n: nat, k: string)
    requires j.Obj? && f.Obj? && n <= |f.keys|
    ensures Get(Describe(j, f, n), k) == if k in f.keys[..n] && k in f.fields && k !in NOT_DESCRIBED
          then Some(f.fields[k]) else Get(j, k)
  {
    if n > 0 {
      GetDescribe(j, f, n - 1, k);
      assert f.keys[..n] == f.keys[..n - 1] + [f.keys[n - 1]];
    }
  }

  lemma GetDescribed(id: string, f: Json, k: string)
    requires Keyed(f)
    ensures Get(Described(id, f), k)
          == if k in f.fields && k !in NOT_DESCRIBED then Some(f.fields[k])
             else if k == "id" then Some(Str(id)) else None
  {
    assert f.keys[..|f.keys|] == f.keys;
    GetDescribe(OnlyId(id), f, |f.keys|, k);
  }

  lemma GetRebuilt(b: BundlePersona, k: string)
    requires Keyed(b.otherFields)
    ensures Get(Rebuilt(b), k) == if k in b.otherFields.fields then Some(b.otherFields.fields[k]) else Get(Texts(b), k)
  {
    var f := b.otherFields;
    assert f.keys[..|f.keys|] == f.keys;
    GetPutAll(Texts(b), f, |f.keys|, k);
  }

  /** A scan that left nothing out and refused nothing holds every field with a name of its own. */
  ghost predicate Whole(s: Scan, f: Json, n: nat)
    requires f.Obj? && n <= |f.keys|
  {
    && Keyed(s.others)
    && (forall k :: k in s.others.fields <==> (k in f.keys[..n] && k in f.fields && k !in NAMED_KEYS))
    && (forall k :: k in s.others.fields ==> s.others.fields[k] == f.fields[k])
  }

  lemma ScanIsWhole(t: TextRules, s: Scan, f: Json, n: nat)
    requires f.Obj? && n <= |f.keys| && s.others == EMPTY
    requires ScanFields(t, s, f, n).dropped == [] && ScanFields(t, s, f, n).refused == []
    ensures Whole(ScanFields(t, s, f, n), f, n)
    ensures s.dropped == [] && s.refused == []
  {
    if n > 0 {
      ScanIsWhole(t, s, f, n - 1);
      assert f.keys[..n] == f.keys[..n - 1] + [f.keys[n - 1]];
    }
  }

  /** The raw entry names its persona nowhere else: always so in a listed entry. */
  predicate NamedOnce(p: RawPersona)
    requires p.fields.Obj?
  {
    "name" !in p.fields.fields && ("id" in p.fields.fields ==> p.fields.fields["id"] == Str(p.id))
  }

  lemma ListedIsNamedOnce(entry: Json)
    requires ListEntry(entry).Ok?
    ensures NamedOnce(ListEntry(entry).value)
  {
  }

  lemma SameFields(a: Json, b: Json)
    requires a.Obj? && b.Obj?
    ensures a.fields == b.fields <==> forall k :: Get(a, k) == Get(b, k)
  {
    if forall k :: Get(a, k) == Get(b, k) {
      forall k | true ensures k in a.fields <==> k in b.fields { assert Get(a, k) == Get(b, k); }
      forall k | k in a.fields ensures a.fields[k] == b.fields[k] { assert Get(a, k) == Get(b, k); }
    }
  }

  lemma CarriedText(t: TextRules, v: Option<Json>, max: nat, k: string)
    requires v.None? || v.value.Str?
    requires Listed(TextVerdict(t, v, max), Left, k) == [] && Listed(TextVerdict(t, v, max), Refuse, k) == []
    ensures TextOf(TextVerdict(t, v, max), v) == if v.Some? then Some(v.value.s) else None
  {
  }

  lemma GetTexts(b: BundlePersona, k: string)
    ensures Get(Texts(b), k)
         == if k == "id" then Some(Str(b.id))
            else if k == "description" && b.description.Some? then Some(Str(b.description.value))
            else if k == "role" && b.role.Some? then Some(Str(b.role.value))
            else None
  {
  }

  /** Nothing was refused, and nothing left out (so that an approval may travel). */
  ghost predicate Clean(e: Exported) { e.dropped == [] && e.refused == [] }

  lemma CleanExport(t: TextRules, p: RawPersona, approval: Option<Json>)
    requires Keyed(p.fields) && Clean(ExportOf(t, p, approval))
    requires TextField(Get(p.fields, "description"), 2000) && TextField(Get(p.fields, "role"), 200)
    ensures var b, f := ExportOf(t, p, approval).persona, p.fields;
            && Keyed(b.otherFields)
            && b.description == TextValue(Get(f, "description")) && b.role == TextValue(Get(f, "role"))
            && (forall k :: k in b.otherFields.fields <==> (k in f.fields && k !in NAMED_KEYS))
            && (forall k :: k in b.otherFields.fields ==> b.otherFields.fields[k] == f.fields[k])
  {
    var f := p.fields;
    var s := ScanFields(t, FirstScan(t, f), f, |f.keys|);
    ScanIsWhole(t, FirstScan(t, f), f, |f.keys|);
    assert f.keys[..|f.keys|] == f.keys;
    CarriedText(t, Get(f, "description"), 2000, "description");
    CarriedText(t, Get(f, "role"), 200, "role");
  }

  function TextValue(v: Option<Json>): Option<string> {
    if v.Some? && v.value.Str? then Some(v.value.s) else None
  }

  lemma SameAt(p: RawPersona, b: BundlePersona, k: string)
    requires Keyed(p.fields) && Keyed(b.otherFields) && b.id == p.id
    requires TextField(Get(p.fields, "description"), 2000) && TextField(Get(p.fields, "role"), 200)
    requires b.description == TextValue(Get(p.fields, "description")) && b.role == TextValue(Get(p.fields, "role"))
    requires forall x :: x in b.otherFields.fields <==> (x in p.fields.fields && x !in NAMED_KEYS)
    requires forall x :: x in b.otherFields.fields ==> b.otherFields.fields[x] == p.fields.fields[x]
    ensures Get(Rebuilt(b), k) == Get(Described(p.id, p.fields), k) <==> SameNames(p, k)
  {
    GetRebuilt(b, k);
    GetTexts(b, k);
    GetDescribed(p.id, p.fields, k);
  }

  predicate SameNames(p: RawPersona, k: string)
    requires p.fields.Obj?
  {
    (k == "name" ==> "name" !in p.fields.fields)
        && (k == "id" && "id" in p.fields.fields ==> p.fields.fields["id"] == Str(p.id))
  }

  /**
   * From an export that may carry an approval the map the approval hashes is rebuilt exactly, as an
   * unordered map, if and only if the raw entry holds no `name`, and no `id` but its own.
   */
  lemma ExportCarriesHashInput(t: TextRules, rules: Rules, p: RawPersona)
    requires Keyed(p.fields) && ReadPersona(rules, p).Ok?
    requires Clean(ExportOf(t, p, ReadPersona(rules, p).value.approval))
    ensures var b := ExportOf(t, p, ReadPersona(rules, p).value.approval).persona;
            b.otherFields.Obj? && (Rebuilt(b).fields == Described(p.id, p.fields).fields <==> NamedOnce(p))
  {
    var approval := ReadPersona(rules, p).value.approval;
    CleanExport(t, p, approval);
    var b := ExportOf(t, p, approval).persona;
    SameFields(Rebuilt(b), Described(p.id, p.fields));
    forall k | true ensures Get(Rebuilt(b), k) == Get(Described(p.id, p.fields), k) <==> SameNames(p, k) {
      SameAt(p, b, k);
    }
    if forall k :: Get(Rebuilt(b), k) == Get(Described(p.id, p.fields), k) {
      assert Get(Rebuilt(b), "name") == Get(Described(p.id, p.fields), "name");
      assert Get(Rebuilt(b), "id") == Get(Described(p.id, p.fields), "id");
    }
  }

  /** The hash does not see the order of keys. */
  ghost predicate OrderFree(hash: Json -> string) {
    forall a: Json, b: Json :: a.Obj? && b.Obj? && a.fields == b.fields ==> hash(a) == hash(b)
  }

  /** A listed persona whose approval travels: the reader recomputes the very hash that was approved. */
  lemma ListedApprovalRecomputes(t: TextRules, rules: Rules, entry: Json)
    requires OrderFree(rules.hash) && ListEntry(entry).Ok? && Keyed(ListEntry(entry).value.fields)
    requires ReadPersona(rules, ListEntry(entry).value).Ok?
    ensures var p := ListEntry(entry).value;
            var q := ReadPersona(rules, p).value;
            var e := ExportOf(t, p, q.approval);
            e.refused == [] && e.persona.approval.Some? ==>
              e.persona.otherFields.Obj?
              && (e.persona.approval == Some(rules.hash(Rebuilt(e.persona))) <==>
                  HashOfApproval(q.approval.value) == Some(Str(q.contentHash)))
  {
    var p := ListEntry(entry).value;
    var q := ReadPersona(rules, p).value;
    var e := ExportOf(t, p, q.approval);
    if e.refused == [] && e.persona.approval.Some? {
      assert Clean(e);
      ListedIsNamedOnce(entry);
      ExportCarriesHashInput(t, rules, p);
      assert rules.hash(Rebuilt(e.persona)) == q.contentHash;
    }
  }

  // ---------- when an approval that travels can be checked ----------

  /** The hash is that of canonical JSON: one for each value, whatever the order of its keys. */
  ghost predicate HashesMeaning(hash: Json -> string) {
    forall a: Json, b: Json :: hash(a) == hash(b) <==> Meaning(a) == Meaning(b)
  }

  lemma MeaningOfFields(a: Json, b: Json)
    requires a.Obj? && b.Obj? && a.fields == b.fields
    ensures Meaning(a) == Meaning(b)
  {
  }

  lemma FieldOfMeaning(a: Json, b: Json, k: string)
    requires a.Obj? && b.Obj? && Meaning(a) == Meaning(b)
    ensures k in a.fields <==> k in b.fields
    ensures k in a.fields ==> Meaning(a.fields[k]) == Meaning(b.fields[k])
  {
    var x, y := map i | i in a.fields :: Meaning(a.fields[i]), map i | i in b.fields :: Meaning(b.fields[i]);
    assert VObj(x) == Meaning(a) && VObj(y) == Meaning(b);
    assert (k in x <==> k in a.fields) && (k in y <==> k in b.fields);
    if k in a.fields { assert x[k] == y[k]; }
  }

  /** An entry not named once is rebuilt as another value. */
  lemma NamesChangeMeaning(p: RawPersona, b: BundlePersona)
    requires Keyed(p.fields) && Keyed(b.otherFields) && b.id == p.id && !NamedOnce(p)
    requires forall x :: x in b.otherFields.fields <==> (x in p.fields.fields && x !in NAMED_KEYS)
    ensures Meaning(Rebuilt(b)) != Meaning(Described(p.id, p.fields))
  {
    var a, d := Rebuilt(b), Described(p.id, p.fields);
    var k := if "name" in p.fields.fields then "name" else "id";
    GetRebuilt(b, k);
    GetTexts(b, k);
    GetDescribed(p.id, p.fields, k);
    if Meaning(a) == Meaning(d) { FieldOfMeaning(a, d, k); }
  }

  /**
   * In every form of the file: a current approval that travels is the hash its reader recomputes if and only
   * if the raw entry holds no `name`, and no `id` but its own.
   */
  lemma CurrentApprovalRecomputes(t: TextRules, rules: Rules, p: RawPersona)
    requires HashesMeaning(rules.hash) && Keyed(p.fields) && ReadPersona(rules, p).Ok?
    requires var q := ReadPersona(rules, p).value;
             var e := ExportOf(t, p, q.approval);
             e.refused == [] && e.persona.approval.Some? && HashOfApproval(q.approval.value) == Some(Str(q.contentHash))
    ensures var b := ExportOf(t, p, ReadPersona(rules, p).value.approval).persona;
            b.otherFields.Obj? && (b.approval == Some(rules.hash(Rebuilt(b))) <==> NamedOnce(p))
  {
    var q := ReadPersona(rules, p).value;
    var b := ExportOf(t, p, q.approval).persona;
    assert Clean(ExportOf(t, p, q.approval));
    ExportCarriesHashInput(t, rules, p);
    CleanExport(t, p, q.approval);
    if NamedOnce(p) {
      MeaningOfFields(Rebuilt(b), Described(p.id, p.fields));
    } else {
      NamesChangeMeaning(p, b);
    }
  }

  const APPROVED_AT := "2026-01-01T00:00:00Z"

  /** What is hashed of a map entry that repeats a name: `{"p": {"name": "a"}}`. */
  const NAMED_CONTENT := Obj(["id", "name"], map["id" := Str("p"), "name" := Str("a")])

  function NamedApproval(hash: Json -> string): Json {
    Obj(["contentHash", "at"], map["contentHash" := Str(hash(NAMED_CONTENT)), "at" := Str(APPROVED_AT)])
  }

  /** That entry with an approval of its own hash. */
  function NamedEntry(hash: Json -> string): RawPersona {
    RawPersona("p", Obj(["name", "approval"], map["name" := Str("a"), "approval" := NamedApproval(hash)]))
  }

  lemma NamedIsDescribed(hash: Json -> string)
    ensures Described("p", NamedEntry(hash).fields) == NAMED_CONTENT
  {
    var f := NamedEntry(hash).fields;
    assert Describe(OnlyId("p"), f, 0) == OnlyId("p");
    assert f.keys[0] == "name" && Describe(OnlyId("p"), f, 1) == Put(OnlyId("p"), "name", Str("a"));
    assert f.keys[1] == "approval" && Describe(OnlyId("p"), f, 2) == Describe(OnlyId("p"), f, 1);
    assert ["id"] + ["name"] == ["id", "name"];
  }

  lemma NamedIsClean(t: TextRules, hash: Json -> string, approval: Option<Json>)
    ensures Clean(ExportOf(t, NamedEntry(hash), approval))
  {
    var f := NamedEntry(hash).fields;
    var first := FirstScan(t, f);
    assert Get(f, f.keys[0]) == Some(Str("a")) && Get(f, f.keys[1]) == Some(NamedApproval(hash));
    assert ScanFields(t, first, f, 0) == first == Scan(EMPTY, [], []);
    assert ScanFields(t, first, f, 1) == Scanned(t, first, "name", Str("a")) == first;
    assert ScanFields(t, first, f, 2) == Scanned(t, first, "approval", NamedApproval(hash)) == first;
  }

  /** What the schema and the date pattern make of that approval. */
  ghost predicate AcceptsNamed(t: TextRules, rules: Rules) {
    && rules.approval(NamedApproval(rules.hash)) == Some(NamedApproval(rules.hash))
    && HexDigest(rules.hash(NAMED_CONTENT)) && t.dateTime(APPROVED_AT)
  }

  lemma NamedReads(t: TextRules, rules: Rules)
    requires AcceptsNamed(t, rules)
    ensures var q := ReadPersona(rules, NamedEntry(rules.hash));
            && q.Ok? && q.value.status == Approved && q.value.approval == Some(NamedApproval(rules.hash))
            && q.value.contentHash == rules.hash(NAMED_CONTENT)
  {
    NamedIsDescribed(rules.hash);
    assert CatalogId("p");
  }

  lemma NamedTravels(t: TextRules, rules: Rules)
    requires AcceptsNamed(t, rules)
    ensures var e := ExportOf(t, NamedEntry(rules.hash), Some(NamedApproval(rules.hash)));
            Clean(e) && e.persona.approval == Some(rules.hash(NAMED_CONTENT))
  {
    NamedIsClean(t, rules.hash, Some(NamedApproval(rules.hash)));
  }

  /** Its reader recomputes another hash than the one that travels. */
  ghost predicate Disagrees(rules: Rules, e: Exported) {
    e.persona.otherFields.Obj? && e.persona.approval.Some? && e.persona.approval != Some(rules.hash(Rebuilt(e.persona)))
  }

  lemma NotNamedOnceDisagrees(t: TextRules, rules: Rules, p: RawPersona, e: Exported)
    requires HashesMeaning(rules.hash) && Keyed(p.fields) && !NamedOnce(p)
    requires var q := ReadPersona(rules, p);
             && q.Ok? && e == ExportOf(t, p, q.value.approval) && e.refused == [] && e.persona.approval.Some?
             && HashOfApproval(q.value.approval.value) == Some(Str(q.value.contentHash))
    ensures Disagrees(rules, e)
  {
    CurrentApprovalRecomputes(t, rules, p);
  }

  lemma NamedIsKeyed(hash: Json -> string)
    ensures Keyed(NamedEntry(hash).fields) && !NamedOnce(NamedEntry(hash))
    ensures MapEntry("p", Some(NamedEntry(hash).fields)) == Ok(NamedEntry(hash))
    ensures HashOfApproval(NamedApproval(hash)) == Some(Str(hash(NAMED_CONTENT)))
  {
  }

  /**
   * In a map, an entry that repeats a name is approved and travels with that very approval, and its reader
   * recomputes another hash.
   */
  lemma NamedMapEntryFails(t: TextRules, rules: Rules)
    requires HashesMeaning(rules.hash) && AcceptsNamed(t, rules)
    ensures var p := NamedEntry(rules.hash);
            MapEntry("p", Some(p.fields)) == Ok(p) && ReadPersona(rules, p).Ok?
                && ReadPersona(rules, p).value.status == Approved
    ensures var q := ReadPersona(rules, NamedEntry(rules.hash)).value;
            var e := ExportOf(t, NamedEntry(rules.hash), q.approval);
            Clean(e) && e.persona.approval == Some(q.contentHash) && Disagrees(rules, e)
  {
    NamedReads(t, rules);
    NamedTravels(t, rules);
    NamedIsKeyed(rules.hash);
    var p := NamedEntry(rules.hash);
    NotNamedOnceDisagrees(t, rules, p, ExportOf(t, p, Some(NamedApproval(rules.hash))));
  }
}
