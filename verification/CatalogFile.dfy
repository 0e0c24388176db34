/**
 * The personas and jobs files of the catalog (catalog.ts): reading them, the content hash an approval
 * binds to, and writing an approval back to the entry it belongs to.
 */
module CatalogFile {
  import opened Wrappers
  import opened Json
  import opened Characters
  import opened Lists

  // ---------- objects ----------

  function Get(j: Json, k: string): Option<Json> {
    if j.Obj? && k in j.fields then Some(j.fields[k]) else None
  }

  /** A spread with one key set: an existing key keeps its place, a new one comes last. */
  function Put(j: Json, k: string, v: Json): (r: Json)
    requires j.Obj?
    ensures r.Obj?
  {
    Obj(if k in j.fields then j.keys else j.keys + [k], j.fields[k := v])
  }

  function Keep(keys: seq<string>, gone: set<string>): seq<string> {
    if keys == [] then []
    else
      var front := Keep(keys[..|keys| - 1], gone);
      if keys[|keys| - 1] in gone then front else front + [keys[|keys| - 1]]
  }

  function Drop(j: Json, gone: set<string>): (r: Json)
    requires j.Obj?
    ensures r.Obj?
  {
    Obj(Keep(j.keys, gone), map k | k in j.fields && k !in gone :: j.fields[k])
  }

  lemma KeepSnoc(keys: seq<string>, k: string, gone: set<string>)
    ensures Keep(keys + [k], gone) == if k in gone then Keep(keys, gone) else Keep(keys, gone) + [k]
  {
    assert (keys + [k])[..|keys|] == keys;
  }

  lemma DropPut(j: Json, gone: set<string>, k: string, v: Json)
    requires j.Obj?
    ensures k in gone ==> Drop(Put(j, k, v), gone) == Drop(j, gone)
    ensures k !in gone ==> Drop(Put(j, k, v), gone) == Put(Drop(j, gone), k, v)
  {
    KeepSnoc(j.keys, k, gone);
  }

  // ---------- what is approved ----------

  datatype Status = Draft | Approved | Stale
  datatype Refusal =
    | NotACatalog | BadEntry | BadId | BadText | BadApproval | BadJob | DeclaredTwice
    | UnknownItem | InvalidApproval

  /** The schemas and hashes the catalog uses; `approval` gives the parsed record. */
  datatype Rules = Rules(
    approval: Json -> Option<Json>,
    hash: Json -> string,
    legacyHash: Json -> string,
    jobKeys: seq<string>,
    requiredJobKeys: set<string>,
    jobField: (string, Json) -> Option<Json>)

  const SESSION_KEYS: set<string> := {"storageState", "login"}
  const NOT_DESCRIBED: set<string> := {"approval"} + SESSION_KEYS

  /** The first `n` fields of `f` that describe the persona, set on `j` in order. */
  function Describe(j: Json, f: Json, n: nat): (r: Json)
    requires j.Obj? && f.Obj? && n <= |f.keys|
    ensures r.Obj?
  {
    if n == 0 then j
    else
      var front, k := Describe(j, f, n - 1), f.keys[n - 1];
      if k in f.fields && k !in NOT_DESCRIBED then Put(front, k, f.fields[k]) else front
  }

  function OnlyId(id: string): (r: Json)
    ensures r.Obj?
  {
    Obj(["id"], map["id" := Str(id)])
  }

  /** What a persona's hash covers: its id and descriptive keys, without its approval or session settings. */
  function Described(id: string, fields: Json): Json
    requires fields.Obj?
  {
    Describe(OnlyId(id), fields, |fields.keys|)
  }

  /** The loop that gathers it. */
  method PersonaContent(id: string, fields: Json) returns (described: Json)
    requires fields.Obj?
    ensures described == Described(id, fields)
  {
    described := OnlyId(id);
    for i := 0 to |fields.keys|
      invariant described.Obj? && described == Describe(OnlyId(id), fields, i)
    {
      var k := fields.keys[i];
      if k in fields.fields && k !in NOT_DESCRIBED { described := Put(described, k, fields.fields[k]); }
    }
  }

  function HashOfApproval(approval: Json): Option<Json> { Get(approval, "contentHash") }

  function StatusOf(approval: Option<Json>, hash: string, legacyHash: string): Status {
    if approval.None? then Draft
    else if HashOfApproval(approval.value) == Some(Str(hash)) || HashOfApproval(approval.value) == Some(Str(legacyHash))
        then Approved
    else Stale
  }

  // ---------- personas ----------

  datatype RawPersona = RawPersona(id: string, fields: Json)

  predicate AllObjects(ps: seq<RawPersona>) { forall i :: 0 <= i < |ps| ==> ps[i].fields.Obj? }

  function PersonaList(raw: Json): Option<seq<Json>> {
    match raw
    case Arr(items) => Some(items)
    case Obj(_, fields) => if "personas" in fields && fields["personas"].Arr? then Some(fields["personas"].items)
        else None
    case _ => None
  }

  function ListEntry(entry: Json): (r: Result<RawPersona, Refusal>)
    ensures r.Ok? ==> r.value.fields.Obj?
  {
    if !entry.Obj? then Err(BadEntry)
    else
      var name, id := Get(entry, "name"), Get(entry, "id");
      var named := if name.None? || name.value.Null? then id else name;
      if named.None? || !named.value.Str? then Err(BadEntry)
      else if name.Some? && id.Some? && name != id then Err(BadEntry)
      else Ok(RawPersona(named.value.s, Drop(entry, {"name", "id"})))
  }

  function MapEntry(id: string, value: Option<Json>): (r: Result<RawPersona, Refusal>)
    ensures r.Ok? ==> r.value.fields.Obj?
  {
    match value
    case Some(Str(path)) => Ok(RawPersona(id, Obj(["storageState"], map["storageState" := Str(path)])))
    case Some(Obj(keys, fields)) => Ok(RawPersona(id, Obj(keys, fields)))
    case _ => Err(BadEntry)
  }

  function ListEntries(items: seq<Json>): seq<Result<RawPersona, Refusal>> {
    seq(|items|, i requires 0 <= i < |items| => ListEntry(items[i]))
  }

  function MapEntries(raw: Json): seq<Result<RawPersona, Refusal>>
    requires raw.Obj?
  {
    seq(|raw.keys|, i requires 0 <= i < |raw.keys| => MapEntry(raw.keys[i], Get(raw, raw.keys[i])))
  }

  /** The three forms of a personas file: a list, `{"personas": [...]}`, or a map by id. */
  function RawPersonas(raw: Json): (r: Result<seq<RawPersona>, Refusal>)
    ensures r.Ok? ==> AllObjects(r.value)
  {
    var items := PersonaList(raw);
    if items.Some? then Collect(ListEntries(items.value))
    else if raw.Obj? then Collect(MapEntries(raw))
    else Err(NotACatalog)
  }

  datatype Persona = Persona(
    id: string, description: Option<Json>, role: Option<Json>, hasStorageState: bool, hasLogin: bool,
    approval: Option<Json>, contentHash: string, status: Status)

  predicate CatalogId(s: string) {
    1 <= |s| <= 64 && AsciiAlnum(s[0]) && forall i :: 1 <= i < |s| ==> AsciiAlnum(s[i]) || s[i] in "._-"
  }

  predicate TextField(v: Option<Json>, max: nat) {
    v.None? || (v.value.Str? && Units(v.value.s) <= max)
  }

  function ReadPersona(rules: Rules, p: RawPersona): Result<Persona, Refusal>
    requires p.fields.Obj?
  {
    if !CatalogId(p.id) then Err(BadId)
    else
      var description, role, written := Get(p.fields, "description"), Get(p.fields, "role"), Get(p.fields, "approval");
      if !TextField(description, 2000) || !TextField(role, 200) then Err(BadText)
      else
        var approval := if written.Some? then rules.approval(written.value) else None;
        if written.Some? && approval.None? then Err(BadApproval)
        else
          var described, path := Described(p.id, p.fields), Get(p.fields, "storageState");
          Ok(Persona(p.id, description, role, path.Some? && path.value.Str?, Get(p.fields, "login").Some?,
                     approval, rules.hash(described),
                         StatusOf(approval, rules.hash(described), rules.legacyHash(described))))
  }

  function ReadPersonas(rules: Rules, ps: seq<RawPersona>): seq<Result<Persona, Refusal>>
    requires AllObjects(ps)
  {
    seq(|ps|, i requires 0 <= i < |ps| => ReadPersona(rules, ps[i]))
  }

  function PersonaIds(ps: seq<Persona>): seq<string> { seq(|ps|, i requires 0 <= i < |ps| => ps[i].id) }

  function LoadedPersonas(rules: Rules, raw: Json): Result<seq<Persona>, Refusal> {
    var entries := RawPersonas(raw);
    if entries.Err? then Err(entries.error)
    else
      var ps := Collect(ReadPersonas(rules, entries.value));
      if ps.Ok? && Repeats(PersonaIds(ps.value)) then Err(DeclaredTwice) else ps
  }

  // ---------- jobs ----------

  function JobList(raw: Json): Option<seq<Json>> {
    match raw
    case Arr(items) => Some(items)
    case Obj(_, fields) => if "jobs" in fields && fields["jobs"].Arr? then Some(fields["jobs"].items) else None
    case _ => None
  }

  function Present(keys: seq<string>, fields: map<string, Json>): seq<string> {
    if keys == [] then []
    else
      var front := Present(keys[..|keys| - 1], fields);
      if keys[|keys| - 1] in fields then front + [keys[|keys| - 1]] else front
  }

  /** The strict job schema: only its keys, every required one, each field as its own schema reads it. */
  function ParsedJob(rules: Rules, entry: Json): (r: Option<Json>)
    ensures r.Some? ==> r.value.Obj?
  {
    if !entry.Obj? || !(rules.requiredJobKeys <= entry.fields.Keys) then None
    else if exists k <- entry.fields.Keys :: k !in rules.jobKeys || rules.jobField(k, entry.fields[k]).None? then None
    else
      Some(Obj(Present(rules.jobKeys, entry.fields),
        map k | k in entry.fields :: rules.jobField(k, entry.fields[k]).value))
  }

  /** A job as the catalog holds it: `content` is the parsed job without its approval. */
  datatype Job = Job(id: string, content: Json, approval: Option<Json>, contentHash: string, status: Status)

  function JobOf(rules: Rules, parsed: Json): Result<Job, Refusal>
    requires parsed.Obj?
  {
    var id, approval, content := Get(parsed, "id"), Get(parsed, "approval"), Drop(parsed, {"approval"});
    if id.None? || !id.value.Str? then Err(BadJob)
    else Ok(Job(id.value.s, content, approval, rules.hash(content),
        StatusOf(approval, rules.hash(content), rules.legacyHash(content))))
  }

  function ReadJob(rules: Rules, entry: Json): Result<Job, Refusal> {
    var parsed := ParsedJob(rules, entry);
    if parsed.None? then Err(BadJob) else JobOf(rules, parsed.value)
  }

  function ReadJobs(rules: Rules, items: seq<Json>): seq<Result<Job, Refusal>> {
    seq(|items|, i requires 0 <= i < |items| => ReadJob(rules, items[i]))
  }

  function JobIds(js: seq<Job>): seq<string> { seq(|js|, i requires 0 <= i < |js| => js[i].id) }

  function LoadedJobs(rules: Rules, raw: Json): Result<seq<Job>, Refusal> {
    var items := JobList(raw);
    if items.None? then Err(NotACatalog)
    else
      var js := Collect(ReadJobs(rules, items.value));
      if js.Ok? && Repeats(JobIds(js.value)) then Err(DeclaredTwice) else js
  }

  // ---------- writing an approval back ----------

  function FindPersona(ps: seq<RawPersona>, id: string): (i: nat)
    ensures i <= |ps| && (i < |ps| ==> ps[i].id == id) && forall k :: 0 <= k < i ==> ps[k].id != id
  {
    if ps == [] || ps[0].id == id then 0 else 1 + FindPersona(ps[1..], id)
  }

  /** An entry with the approval; a bare storage state path becomes an object that holds it. */
  function Approve(entry: Json, record: Json): Json {
    match entry
    case Str(path) => Obj(["storageState", "approval"], map["storageState" := Str(path), "approval" := record])
    case Obj(keys, fields) => Put(Obj(keys, fields), "approval", record)
    case other => other
  }

  /** The file with the approval in its `i`-th entry. */
  function WithPersonaApproval(raw: Json, i: nat, record: Json): Json {
    var items := PersonaList(raw);
    if items.Some? then
      if i >= |items.value| then raw
      else
        var next := Arr(items.value[i := Approve(items.value[i], record)]);
        if raw.Arr? then next else Put(raw, "personas", next)
    else if raw.Obj? && i < |raw.keys| && raw.keys[i] in raw.fields then
      Put(raw, raw.keys[i], Approve(raw.fields[raw.keys[i]], record))
    else raw
  }

  function PersonaApproved(rules: Rules, raw: Json, id: string, approval: Json): Result<Json, Refusal> {
    var entries := RawPersonas(raw);
    if entries.Err? then Err(entries.error)
    else
      var i := FindPersona(entries.value, id);
      if i == |entries.value| then Err(UnknownItem)
      else
        var record := rules.approval(approval);
        if record.None? then Err(InvalidApproval) else Ok(WithPersonaApproval(raw, i, record.value))
  }

  function FindJob(items: seq<Json>, id: string): (i: nat)
    ensures i <= |items| && (i < |items| ==> Get(items[i], "id") == Some(Str(id)))
    ensures forall k :: 0 <= k < i ==> Get(items[k], "id") != Some(Str(id))
  {
    if items == [] || Get(items[0], "id") == Some(Str(id)) then 0 else 1 + FindJob(items[1..], id)
  }

  /** The file with the approval in its `i`-th job. */
  function WithJobApproval(raw: Json, i: nat, record: Json): Json {
    var items := JobList(raw);
    if items.None? || i >= |items.value| || !items.value[i].Obj? then raw
    else
      var next := Arr(items.value[i := Put(items.value[i], "approval", record)]);
      if raw.Arr? then next else Put(raw, "jobs", next)
  }

  function JobApproved(rules: Rules, raw: Json, id: string, approval: Json): Result<Json, Refusal> {
    var items := JobList(raw);
    if items.None? then Err(NotACatalog)
    else
      var i := FindJob(items.value, id);
      if i == |items.value| then Err(UnknownItem)
      else
        var record := rules.approval(approval);
        if record.None? then Err(InvalidApproval)
        else
          if ReadJob(rules, Put(items.value[i], "approval", record.value)).Err? then Err(BadJob)
          else Ok(WithJobApproval(raw, i, record.value))
  }

  /** A catalog file on disk. */
  class File {
    const rules: Rules
    var json: Json

    constructor (rules: Rules, json: Json)
      ensures this.rules == rules && this.json == json
    {
      this.rules, this.json := rules, json;
    }

    method LoadPersonas() returns (r: Result<seq<Persona>, Refusal>)
      ensures r == LoadedPersonas(rules, json)
    {
      var entries := RawPersonas(json);
      if entries.Err? { return Err(entries.error); }
      r := Collect(ReadPersonas(rules, entries.value));
      if r.Err? { return; }
      var twice := Duplicates(PersonaIds(r.value));
      if twice { r := Err(DeclaredTwice); }
    }

    method LoadJobs() returns (r: Result<seq<Job>, Refusal>)
      ensures r == LoadedJobs(rules, json)
    {
      var items := JobList(json);
      if items.None? { return Err(NotACatalog); }
      r := Collect(ReadJobs(rules, items.value));
      if r.Err? { return; }
      var twice := Duplicates(JobIds(r.value));
      if twice { r := Err(DeclaredTwice); }
    }

    /** Rewrites the file, or leaves it as it is and says why. */
    method WritePersonaApproval(id: string, approval: Json) returns (refusal: Option<Refusal>)
      modifies this
      ensures match PersonaApproved(rules, old(json), id, approval)
              case Ok(next) => json == next && refusal == None
              case Err(why) => json == old(json) && refusal == Some(why)
    {
      var entries := RawPersonas(json);
      if entries.Err? { return Some(entries.error); }
      var i := FindPersona(entries.value, id);
      if i == |entries.value| { return Some(UnknownItem); }
      var record := rules.approval(approval);
      if record.None? { return Some(InvalidApproval); }
      json := WithPersonaApproval(json, i, record.value);
      return None;
    }

    method WriteJobApproval(id: string, approval: Json) returns (refusal: Option<Refusal>)
      modifies this
      ensures match JobApproved(rules, old(json), id, approval)
              case Ok(next) => json == next && refusal == None
              case Err(why) => json == old(json) && refusal == Some(why)
    {
      var items := JobList(json);
      if items.None? { return Some(NotACatalog); }
      var list := items.value;
      var index := FindJob(list, id);
      if index == |list| { return Some(UnknownItem); }
      var record := rules.approval(approval);
      if record.None? { return Some(InvalidApproval); }
      list := list[index := Put(list[index], "approval", record.value)];
      if ReadJob(rules, list[index]).Err? { return Some(BadJob); }
      json := if json.Arr? then Arr(list) else Put(json, "jobs", Arr(list));
      return None;
    }
  }

  method Duplicates(ids: seq<string>) returns (twice: bool)
    ensures twice <==> Repeats(ids)
    ensures twice <==> !Distinct(ids)
  {
    var seen: set<string> := {};
    for i := 0 to |ids|
      invariant seen == set k | k in ids[..i]
      invariant forall k :: 0 <= k < i ==> !RepeatsAt(ids, k)
    {
      if ids[i] in seen {
        assert RepeatsAt(ids, i);
        NoRepeats(ids);
        return true;
      }
      seen := seen + {ids[i]};
      assert ids[..i + 1] == ids[..i] + [ids[i]];
    }
    NoRepeats(ids);
    return false;
  }
}
