/** What is read from a catalog file: which entries, which items, and which of them still hold their approval. */
module CatalogReading {
  import opened Wrappers
  import opened Json
  import opened Characters
  import opened CharacterLaws
  import opened Lists
  import opened CatalogFile
  import opened PersonaExport

  // ---------- personas ----------

  /** 1 to 64 letters, digits, dots, underscores and hyphens, the first a letter or digit. */
  ghost predicate ProperId(s: string) {
    && 0 < |s| < 65
    && (forall i :: 0 <= i < |s| ==> IdChar(s[i]))
    && s[0] !in {'.', '_', '-'}
  }

  predicate IdChar(c: char) {
    48 <= c as int <= 57 || 65 <= c as int <= 90 || 97 <= c as int <= 122 || c in {'.', '_', '-'}
  }

  lemma IdExactly(s: string)
    ensures CatalogId(s) <==> ProperId(s)
  {
    var marks := "._-";
    assert marks[0] == '.' && marks[1] == '_' && marks[2] == '-';
  }

  /** Absent, or a text of at most `max` UTF-16 code units. */
  ghost predicate TextAtMost(fields: map<string, Json>, key: string, max: nat) {
    key in fields ==> fields[key].Str? && Units(fields[key].s) <= max
  }

  /** What is approved of a persona: its id and every field but the approval and the session settings. */
  ghost predicate CoversExactly(described: Json, id: string, fields: map<string, Json>) {
    && described.Obj?
    && (forall k :: k in described.fields <==>
          k == "id" || (k in fields && k != "approval" && k != "storageState" && k != "login"))
    && (forall k <- described.fields :: described.fields[k] == if k in fields then fields[k] else Str(id))
  }

  lemma DescribedCovers(p: RawPersona)
    requires Keyed(p.fields)
    ensures CoversExactly(Described(p.id, p.fields), p.id, p.fields.fields)
  {
    var d := Described(p.id, p.fields);
    forall k | true
      ensures Get(d, k)
           == if k in p.fields.fields && k !in NOT_DESCRIBED then Some(p.fields.fields[k])
              else if k == "id" then Some(Str(p.id)) else None
    {
      GetDescribed(p.id, p.fields, k);
    }
    forall k | true
      ensures k in d.fields <==>
                k == "id" || (k in p.fields.fields && k != "approval" && k != "storageState" && k != "login")
    {
      assert Get(d, k).Some? <==> k in d.fields;
    }
    forall k | k in d.fields
      ensures d.fields[k] == if k in p.fields.fields then p.fields.fields[k] else Str(p.id)
    {
      assert Get(d, k) == Some(d.fields[k]);
    }
  }

  /** The record approves content of this hash, or of this older one. */
  ghost predicate ApprovesHash(approval: Json, hash: string, legacy: string) {
    && approval.Obj? && "contentHash" in approval.fields
    && (approval.fields["contentHash"] == Str(hash) || approval.fields["contentHash"] == Str(legacy))
  }

  /** Without an approval an item is a draft, with one of its content approved, with any other stale. */
  lemma StatusExactly(approval: Option<Json>, hash: string, legacy: string)
    ensures var s := StatusOf(approval, hash, legacy);
            && (s.Draft? <==> approval == None)
            && (s.Approved? <==> approval != None && ApprovesHash(approval.value, hash, legacy))
            && (s.Stale? <==> approval != None && !ApprovesHash(approval.value, hash, legacy))
  {
  }

  /** Which entries make a persona, why the others do not, and what of the entry the persona is. */
  lemma PersonaExactly(rules: Rules, p: RawPersona)
    requires p.fields.Obj?
    ensures var (r, f) := (ReadPersona(rules, p), p.fields.fields);
            var texts := TextAtMost(f, "description", 2000) && TextAtMost(f, "role", 200);
            var record := if "approval" in f then rules.approval(f["approval"]) else None;
            && (r == Err(BadId) <==> !ProperId(p.id))
            && (r == Err(BadText) <==> ProperId(p.id) && !texts)
            && (r == Err(BadApproval) <==> ProperId(p.id) && texts && "approval" in f && record.None?)
            && (r.Ok? <==> ProperId(p.id) && texts && ("approval" in f ==> record.Some?))
            && (r.Ok? ==>
                var q := r.value;
                && q.id == p.id && q.approval == record
                && q.description == (if "description" in f then Some(f["description"]) else None)
                && q.role == (if "role" in f then Some(f["role"]) else None)
                && (q.hasStorageState <==> "storageState" in f && f["storageState"].Str?)
                && (q.hasLogin <==> "login" in f)
                && q.contentHash == rules.hash(Described(p.id, p.fields))
                && (q.status.Draft? <==> record.None?)
                && (q.status.Approved? <==>
                    record.Some?
                    && ApprovesHash(record.value, q.contentHash, rules.legacyHash(Described(p.id, p.fields)))))
  {
    IdExactly(p.id);
  }

  /** A persona approved in one version holds the approval in another exactly when what is covered is the same. */
  lemma EditedIsStale(rules: Rules, p: RawPersona, q: RawPersona)
    requires HashesMeaning(rules.hash) && Keyed(p.fields) && Keyed(q.fields)
    requires ReadPersona(rules, p).Ok? && ReadPersona(rules, q).Ok? && p.id == q.id
    requires var was := ReadPersona(rules, p).value;
             && was.approval.Some? && ReadPersona(rules, q).value.approval == was.approval
             && HashOfApproval(was.approval.value) == Some(Str(was.contentHash))
             && was.contentHash != rules.legacyHash(Described(q.id, q.fields))
    ensures ReadPersona(rules, p).value.status.Approved?
    ensures ReadPersona(rules, q).value.status.Approved?
       <==> Meaning(Described(p.id, p.fields)) == Meaning(Described(q.id, q.fields))
  {
    PersonaExactly(rules, p);
    PersonaExactly(rules, q);
  }

  // ---------- the three forms of the personas file ----------

  /** The id a listed entry gives: its `name`, which an `id` beside it must repeat, or else its `id`. */
  ghost predicate Named(entry: Json, id: string) {
    && entry.Obj?
    && (("name" in entry.fields && entry.fields["name"] == Str(id)
         && ("id" in entry.fields ==> entry.fields["id"] == Str(id)))
        || ("name" !in entry.fields && "id" in entry.fields && entry.fields["id"] == Str(id)))
  }

  /** A listed entry is read exactly when it is an object with one id; every other field is the persona's. */
  lemma ListEntryExactly(entry: Json)
    ensures ListEntry(entry).Ok? <==> exists id :: Named(entry, id)
    ensures ListEntry(entry).Ok? ==>
              var p := ListEntry(entry).value;
              && Named(entry, p.id)
              && p.fields.fields == map k | k in entry.fields && k != "name" && k != "id" :: entry.fields[k]
  {
    if entry.Obj? {
      var name, id := Get(entry, "name"), Get(entry, "id");
      if name.Some? && name.value.Str? && (id == name || id.None?) { assert Named(entry, name.value.s); }
      if name.None? && id.Some? && id.value.Str? { assert Named(entry, id.value.s); }
    }
  }

  /** A mapped entry is an object, or the path of a storage state; its key is the id, whatever it holds. */
  lemma MapEntryExactly(id: string, value: Json)
    ensures MapEntry(id, Some(value)).Ok? <==> value.Str? || value.Obj?
    ensures MapEntry(id, Some(value)).Ok? ==>
              var p := MapEntry(id, Some(value)).value;
              p.id == id && p.fields.fields == if value.Obj? then value.fields else map["storageState" := value]
  {
  }

  /** The entries are read one by one, in the order of the file. */
  ghost predicate InOrder(raw: Json, ps: seq<RawPersona>) {
    if PersonaList(raw).Some? then
      && |ps| == |PersonaList(raw).value|
      && forall i :: 0 <= i < |ps| ==> ListEntry(PersonaList(raw).value[i]) == Ok(ps[i])
    else
      && raw.Obj? && |ps| == |raw.keys|
      && forall i :: 0 <= i < |ps| ==> MapEntry(raw.keys[i], Get(raw, raw.keys[i])) == Ok(ps[i])
  }

  /** Where the entries of a file are: in it, under `personas`, or, for any other object, its members. */
  lemma FormsExactly(raw: Json)
    ensures raw.Arr? ==> PersonaList(raw) == Some(raw.items)
    ensures PersonaList(raw).Some? && !raw.Arr? <==>
              raw.Obj? && "personas" in raw.fields && raw.fields["personas"].Arr?
    ensures PersonaList(raw).Some? && !raw.Arr? ==> PersonaList(raw).value == raw.fields["personas"].items
    ensures !raw.Arr? && !raw.Obj? ==> RawPersonas(raw) == Err(NotACatalog)
    ensures RawPersonas(raw).Ok? ==> InOrder(raw, RawPersonas(raw).value)
    ensures JobList(raw).Some? <==> raw.Arr? || (raw.Obj? && "jobs" in raw.fields && raw.fields["jobs"].Arr?)
    ensures JobList(raw).Some? ==> JobList(raw).value == if raw.Arr? then raw.items else raw.fields["jobs"].items
  {
  }

  // ---------- jobs ----------

  /** A job is read exactly when it has every required key and no unknown one, and each field parses. */
  lemma JobExactly(rules: Rules, entry: Json)
    requires "id" in rules.requiredJobKeys
    ensures var known := entry.Obj? && (forall k <- rules.requiredJobKeys :: k in entry.fields)
                         && (forall k <- entry.fields ::
                               k in rules.jobKeys && rules.jobField(k, entry.fields[k]).Some?);
            && (ReadJob(rules, entry).Ok? <==> known && rules.jobField("id", entry.fields["id"]).value.Str?)
            && (ReadJob(rules, entry).Ok? ==>
                var j := ReadJob(rules, entry).value;
                var f := map k | k in entry.fields :: rules.jobField(k, entry.fields[k]).value;
                && Str(j.id) == f["id"]
                && j.content.Obj? && j.content.fields == f - {"approval"}
                && j.approval == (if "approval" in f then Some(f["approval"]) else None)
                && j.contentHash == rules.hash(j.content)
                && (j.status.Draft? <==> j.approval.None?)
                && (j.status.Approved? <==>
                    j.approval.Some? && ApprovesHash(j.approval.value, j.contentHash, rules.legacyHash(j.content))))
  {
  }
  // ---------- whole files ----------

  /** A personas file is read exactly when each entry makes a persona and no two have one id; they keep its order. */
  lemma PersonasExactly(rules: Rules, raw: Json, ps: seq<Persona>)
    requires RawPersonas(raw).Ok?
    ensures var entries := RawPersonas(raw).value;
            LoadedPersonas(rules, raw) == Ok(ps) <==>
              (|ps| == |entries| && (forall i :: 0 <= i < |ps| ==> ReadPersona(rules, entries[i]) == Ok(ps[i]))
               && forall i, k :: 0 <= i < k < |ps| ==> ps[i].id != ps[k].id)
  {
    var rs := ReadPersonas(rules, RawPersonas(raw).value);
    if |ps| == |rs| && forall i :: 0 <= i < |ps| ==> rs[i] == Ok(ps[i]) { CollectAll(rs, ps); }
    var ids := PersonaIds(ps);
    NoRepeats(ids);
    if Distinct(ids) {
      forall i, k | 0 <= i < k < |ps| ensures ps[i].id != ps[k].id { assert ids[i] != ids[k]; }
    }
  }

  /** The same of a jobs file. */
  lemma JobsExactly(rules: Rules, raw: Json, js: seq<Job>)
    requires JobList(raw).Some?
    ensures var items := JobList(raw).value;
            LoadedJobs(rules, raw) == Ok(js) <==>
              (|js| == |items| && (forall i :: 0 <= i < |js| ==> ReadJob(rules, items[i]) == Ok(js[i]))
               && forall i, k :: 0 <= i < k < |js| ==> js[i].id != js[k].id)
  {
    var rs := ReadJobs(rules, JobList(raw).value);
    if |js| == |rs| && forall i :: 0 <= i < |js| ==> rs[i] == Ok(js[i]) { CollectAll(rs, js); }
    var ids := JobIds(js);
    NoRepeats(ids);
    if Distinct(ids) {
      forall i, k | 0 <= i < k < |js| ensures js[i].id != js[k].id { assert ids[i] != ids[k]; }
    }
  }
}
