/** An approval written back approves its item, keeps its content hash, and leaves everything else alone. */
module CatalogFileLaws {
  import opened Wrappers
  import opened Json
  import opened CatalogFile
  import opened Lists

  lemma CollectUpdate<T, E>(rs: seq<Result<T, E>>, i: nat, v: T)
    requires Collect(rs).Ok? && i < |rs|
    ensures Collect(rs[i := Ok(v)]) == Ok(Collect(rs).value[i := v])
  {
    CollectAll(rs[i := Ok(v)], Collect(rs).value[i := v]);
  }

  // ---------- what the hash covers is not the approval ----------

  lemma {:induction false} DescribeIgnoresApproval(j: Json, fields: Json, record: Json, n: nat)
    requires j.Obj? && fields.Obj? && n <= |fields.keys|
    ensures Describe(j, Put(fields, "approval", record), n) == Describe(j, fields, n)
  {
    if n > 0 { DescribeIgnoresApproval(j, fields, record, n - 1); }
  }

  lemma DescribedIgnoresApproval(id: string, fields: Json, record: Json)
    requires fields.Obj?
    ensures Described(id, Put(fields, "approval", record)) == Described(id, fields)
  {
    DescribeIgnoresApproval(OnlyId(id), fields, record, |fields.keys|);
  }

  lemma OtherFieldsStay(fields: Json, k: string, record: Json)
    requires fields.Obj? && k != "approval"
    ensures Get(Put(fields, "approval", record), k) == Get(fields, k)
  {
  }

  ghost predicate Approves(rules: Rules, record: Json, again: Json, hash: string) {
    rules.approval(record) == Some(again) && HashOfApproval(again) == Some(Str(hash))
  }

  /** Reading an entry that was given an approval of its own hash: the same persona, approved. */
  lemma ApprovedEntry(rules: Rules, p: RawPersona, record: Json, again: Json)
    requires p.fields.Obj? && ReadPersona(rules, p).Ok?
    requires Approves(rules, record, again, ReadPersona(rules, p).value.contentHash)
    ensures ReadPersona(rules, RawPersona(p.id, Put(p.fields, "approval", record)))
         == Ok(ReadPersona(rules, p).value.(approval := Some(again), status := Approved))
  {
    DescribedIgnoresApproval(p.id, p.fields, record);
    OtherFieldsStay(p.fields, "description", record);
    OtherFieldsStay(p.fields, "role", record);
    OtherFieldsStay(p.fields, "storageState", record);
    OtherFieldsStay(p.fields, "login", record);
  }

  // ---------- the three file forms ----------

  function Given(p: RawPersona, record: Json): RawPersona
    requires p.fields.Obj?
  {
    RawPersona(p.id, Put(p.fields, "approval", record))
  }

  lemma ListEntryApproved(entry: Json, record: Json)
    requires ListEntry(entry).Ok?
    ensures ListEntry(Approve(entry, record)) == Ok(Given(ListEntry(entry).value, record))
  {
    OtherFieldsStay(entry, "name", record);
    OtherFieldsStay(entry, "id", record);
    DropPut(entry, {"name", "id"}, "approval", record);
  }

  lemma MapEntryApproved(id: string, value: Json, record: Json)
    requires MapEntry(id, Some(value)).Ok?
    ensures MapEntry(id, Some(Approve(value, record))) == Ok(Given(MapEntry(id, Some(value)).value, record))
  {
    assert ["storageState"] + ["approval"] == ["storageState", "approval"];
  }

  lemma ListApproved(items: seq<Json>, i: nat, record: Json)
    requires Collect(ListEntries(items)).Ok? && i < |items|
    ensures var ps := Collect(ListEntries(items)).value;
            Collect(ListEntries(items[i := Approve(items[i], record)])) == Ok(ps[i := Given(ps[i], record)])
  {
    var rs := ListEntries(items);
    var ps := Collect(rs).value;
    assert rs[i] == Ok(ps[i]);
    ListEntryApproved(items[i], record);
    assert ListEntries(items[i := Approve(items[i], record)]) == rs[i := Ok(Given(ps[i], record))];
    CollectUpdate(rs, i, Given(ps[i], record));
  }

  lemma MapIds(raw: Json)
    requires raw.Obj? && Collect(MapEntries(raw)).Ok?
    ensures forall k :: 0 <= k < |raw.keys| ==>
          raw.keys[k] in raw.fields && Collect(MapEntries(raw)).value[k].id == raw.keys[k]
  {
    var rs := MapEntries(raw);
    forall k | 0 <= k < |raw.keys| ensures raw.keys[k] in raw.fields && Collect(rs).value[k].id == raw.keys[k] {
      assert rs[k] == Ok(Collect(rs).value[k]);
    }
  }

  lemma MapApproved(raw: Json, i: nat, record: Json)
    requires raw.Obj? && Collect(MapEntries(raw)).Ok? && i < |raw.keys| && Distinct(raw.keys)
          && raw.keys[i] in raw.fields
    ensures var ps := Collect(MapEntries(raw)).value;
            Collect(MapEntries(Put(raw, raw.keys[i], Approve(raw.fields[raw.keys[i]], record))))
                == Ok(ps[i := Given(ps[i], record)])
  {
    var rs := MapEntries(raw);
    var ps := Collect(rs).value;
    var value := raw.fields[raw.keys[i]];
    assert rs[i] == Ok(ps[i]);
    MapEntryApproved(raw.keys[i], value, record);
    assert MapEntries(Put(raw, raw.keys[i], Approve(value, record))) == rs[i := Ok(Given(ps[i], record))];
    CollectUpdate(rs, i, Given(ps[i], record));
  }

  function IdOf(p: RawPersona): string { p.id }

  ghost predicate DistinctIds(ps: seq<RawPersona>) { DistinctBy(IdOf, ps) }

  /** In every form, the written file holds the same entries, the `i`-th with the approval. */
  lemma RawPersonasApproved(raw: Json, i: nat, record: Json)
    requires RawPersonas(raw).Ok? && i < |RawPersonas(raw).value| && DistinctIds(RawPersonas(raw).value)
    ensures var ps := RawPersonas(raw).value;
            RawPersonas(WithPersonaApproval(raw, i, record)) == Ok(ps[i := Given(ps[i], record)])
  {
    var items := PersonaList(raw);
    if items.Some? {
      ListApproved(items.value, i, record);
    } else {
      MapIds(raw);
      var ps := RawPersonas(raw).value;
      forall a, b | 0 <= a < b < |raw.keys| ensures raw.keys[a] != raw.keys[b] {
        assert ps[a].id != ps[b].id;
      }
      MapApproved(raw, i, record);
      assert MapEntries(raw)[i] == Ok(ps[i]);
      StillAMap(raw, i, record);
    }
  }

  lemma StillAMap(raw: Json, i: nat, record: Json)
    requires raw.Obj? && PersonaList(raw).None? && i < |raw.keys| && raw.keys[i] in raw.fields
    requires MapEntry(raw.keys[i], Some(raw.fields[raw.keys[i]])).Ok?
    ensures var next := WithPersonaApproval(raw, i, record);
            next.Obj? && PersonaList(next).None? && next.keys == raw.keys
  {
  }

  // ---------- reading the written file ----------

  function Promoted(p: Persona, again: Json): Persona {
    p.(approval := Some(again), status := Approved)
  }

  lemma ReadPersonasApproved(rules: Rules, ps: seq<RawPersona>, i: nat, record: Json, again: Json)
    requires AllObjects(ps) && i < |ps| && Collect(ReadPersonas(rules, ps)).Ok?
    requires Approves(rules, record, again, Collect(ReadPersonas(rules, ps)).value[i].contentHash)
    ensures var was := Collect(ReadPersonas(rules, ps)).value;
            AllObjects(ps[i := Given(ps[i], record)])
            && Collect(ReadPersonas(rules, ps[i := Given(ps[i], record)])) == Ok(was[i := Promoted(was[i], again)])
  {
    var rs := ReadPersonas(rules, ps);
    var was := Collect(rs).value;
    assert rs[i] == Ok(was[i]);
    ApprovedEntry(rules, ps[i], record, again);
    assert ReadPersonas(rules, ps[i := Given(ps[i], record)]) == rs[i := Ok(Promoted(was[i], again))];
    CollectUpdate(rs, i, Promoted(was[i], again));
  }

  lemma LoadedIds(rules: Rules, raw: Json)
    requires LoadedPersonas(rules, raw).Ok?
    ensures RawPersonas(raw).Ok? && LoadedPersonas(rules, raw) == Collect(ReadPersonas(rules, RawPersonas(raw).value))
    ensures DistinctIds(RawPersonas(raw).value)
    ensures forall k :: 0 <= k < |RawPersonas(raw).value| ==>
          RawPersonas(raw).value[k].id == LoadedPersonas(rules, raw).value[k].id
  {
    var ps := RawPersonas(raw).value;
    var loaded := LoadedPersonas(rules, raw).value;
    var ids := PersonaIds(loaded);
    NoRepeats(ids);
    forall k | 0 <= k < |ps| ensures ps[k].id == loaded[k].id {
      assert ReadPersonas(rules, ps)[k] == Ok(loaded[k]);
    }
    forall a, b | 0 <= a < b < |ps| ensures ps[a].id != ps[b].id { assert ids[a] != ids[b]; }
  }

  lemma FindsItself(ps: seq<RawPersona>, i: nat)
    requires DistinctIds(ps) && i < |ps|
    ensures FindPersona(ps, ps[i].id) == i
  {
    var at := FindPersona(ps, ps[i].id);
    assert at <= i;
  }

  lemma LoadedFrom(rules: Rules, raw: Json, ps: seq<RawPersona>, loaded: seq<Persona>)
    requires RawPersonas(raw) == Ok(ps) && AllObjects(ps) && Collect(ReadPersonas(rules, ps)) == Ok(loaded)
    requires !Repeats(PersonaIds(loaded))
    ensures LoadedPersonas(rules, raw) == Ok(loaded)
  {
  }

  lemma WritesToItsEntry(rules: Rules, raw: Json, i: nat, approval: Json, record: Json)
    requires RawPersonas(raw).Ok? && i < |RawPersonas(raw).value| && DistinctIds(RawPersonas(raw).value)
    requires rules.approval(approval) == Some(record)
    ensures PersonaApproved(rules, raw, RawPersonas(raw).value[i].id, approval)
          == Ok(WithPersonaApproval(raw, i, record))
  {
    FindsItself(RawPersonas(raw).value, i);
  }

  lemma SameIds(before: seq<Persona>, i: nat, again: Json)
    requires i < |before|
    ensures PersonaIds(before[i := Promoted(before[i], again)]) == PersonaIds(before)
  {
  }

  lemma AfterReload(rules: Rules, next: Json, ps: seq<RawPersona>, i: nat, record: Json, again: Json,
      before: seq<Persona>)
    requires AllObjects(ps) && i < |ps| && Collect(ReadPersonas(rules, ps)) == Ok(before)
          && !Repeats(PersonaIds(before))
    requires Approves(rules, record, again, before[i].contentHash)
    requires RawPersonas(next) == Ok(ps[i := Given(ps[i], record)])
    ensures LoadedPersonas(rules, next) == Ok(before[i := Promoted(before[i], again)])
  {
    ReadPersonasApproved(rules, ps, i, record, again);
    SameIds(before, i, again);
    LoadedFrom(rules, next, ps[i := Given(ps[i], record)], before[i := Promoted(before[i], again)]);
  }

  lemma ReloadsApproved(rules: Rules, raw: Json, i: nat, record: Json, again: Json, before: seq<Persona>)
    requires LoadedPersonas(rules, raw) == Ok(before) && i < |before|
          && Approves(rules, record, again, before[i].contentHash)
    ensures LoadedPersonas(rules, WithPersonaApproval(raw, i, record)) == Ok(before[i := Promoted(before[i], again)])
  {
    LoadedIds(rules, raw);
    RawPersonasApproved(raw, i, record);
    AfterReload(rules, WithPersonaApproval(raw, i, record), RawPersonas(raw).value, i, record, again, before);
  }

  /**
   * Writing an approval of a persona's own hash and loading the file again, in any of its three forms:
   * that persona is approved with its hash unchanged; every other persona and every position is as it was.
   */
  lemma PersonaApprovalReloads(rules: Rules, raw: Json, i: nat, approval: Json, record: Json, again: Json)
    requires LoadedPersonas(rules, raw).Ok? && i < |LoadedPersonas(rules, raw).value|
    requires rules.approval(approval) == Some(record)
    requires Approves(rules, record, again, LoadedPersonas(rules, raw).value[i].contentHash)
    ensures var before := LoadedPersonas(rules, raw).value;
            var written := PersonaApproved(rules, raw, before[i].id, approval);
            && written == Ok(WithPersonaApproval(raw, i, record))
            && LoadedPersonas(rules, written.value) == Ok(before[i := Promoted(before[i], again)])
  {
    LoadedIds(rules, raw);
    WritesToItsEntry(rules, raw, i, approval, record);
    ReloadsApproved(rules, raw, i, record, again, LoadedPersonas(rules, raw).value);
  }

  /** The rest of the file: other entries of a list, wrapped or not, and of a map; other keys beside a wrapped list. */
  lemma RestOfPersonasFile(raw: Json, i: nat, record: Json)
    ensures var next := WithPersonaApproval(raw, i, record);
            && (raw.Arr? ==>
                next.Arr? && |next.items| == |raw.items|
                && forall k :: 0 <= k < |raw.items| && k != i ==> next.items[k] == raw.items[k])
            && (raw.Obj? ==> next.Obj? && next.keys == raw.keys && next.fields.Keys == raw.fields.Keys)
            && (raw.Obj? && PersonaList(raw).Some? ==>
                forall k :: k in raw.fields && k != "personas" ==> next.fields[k] == raw.fields[k])
            && (raw.Obj? && PersonaList(raw).Some? ==>
                var (was, now) := (PersonaList(raw).value, PersonaList(next));
                now.Some? && |now.value| == |was| && forall k :: 0 <= k < |was| && k != i ==> now.value[k] == was[k])
            && (raw.Obj? && PersonaList(raw).None? && i < |raw.keys| ==>
                forall k :: k in raw.fields && k != raw.keys[i] ==> next.fields[k] == raw.fields[k])
  {
  }

  // ---------- jobs ----------

  /** What the job schema does with an id and an approval: ids are read as written, approvals by the approval schema. */
  ghost predicate JobRules(rules: Rules) {
    && "approval" in rules.jobKeys
    && (forall v :: rules.jobField("id", v).Some? ==> rules.jobField("id", v).value == v)
    && (forall v :: rules.jobField("approval", v) == rules.approval(v))
  }

  lemma {:induction false} PresentIgnores(keys: seq<string>, a: map<string, Json>, b: map<string, Json>)
    requires forall k :: k != "approval" ==> (k in a <==> k in b)
    ensures Keep(Present(keys, a), {"approval"}) == Keep(Present(keys, b), {"approval"})
  {
    if keys != [] {
      var n := |keys| - 1;
      PresentIgnores(keys[..n], a, b);
      KeepSnoc(Present(keys[..n], a), keys[n], {"approval"});
      KeepSnoc(Present(keys[..n], b), keys[n], {"approval"});
    }
  }

  lemma ParsedJobApproved(rules: Rules, entry: Json, record: Json, again: Json)
    requires JobRules(rules) && ParsedJob(rules, entry).Some? && rules.approval(record) == Some(again)
    ensures var parsed := ParsedJob(rules, Put(entry, "approval", record));
            && parsed.Some?
            && Get(parsed.value, "approval") == Some(again)
            && Get(parsed.value, "id") == Get(ParsedJob(rules, entry).value, "id")
            && Drop(parsed.value, {"approval"}) == Drop(ParsedJob(rules, entry).value, {"approval"})
  {
    var next := Put(entry, "approval", record);
    PresentIgnores(rules.jobKeys, entry.fields, next.fields);
    assert rules.requiredJobKeys <= next.fields.Keys;
    assert rules.jobField("approval", record) == Some(again);
  }

  function PromotedJob(j: Job, again: Json): Job {
    j.(approval := Some(again), status := Approved)
  }

  lemma ReadJobApproved(rules: Rules, entry: Json, record: Json, again: Json)
    requires JobRules(rules) && ReadJob(rules, entry).Ok?
          && Approves(rules, record, again, ReadJob(rules, entry).value.contentHash)
    ensures ReadJob(rules, Put(entry, "approval", record)) == Ok(PromotedJob(ReadJob(rules, entry).value, again))
  {
    ParsedJobApproved(rules, entry, record, again);
  }

  lemma ReadJobId(rules: Rules, entry: Json)
    requires JobRules(rules) && ReadJob(rules, entry).Ok?
    ensures Get(entry, "id") == Some(Str(ReadJob(rules, entry).value.id))
  {
    var parsed := ParsedJob(rules, entry).value;
    assert "id" in entry.fields;
    assert rules.jobField("id", entry.fields["id"]).Some?;
  }

  lemma ReadJobsApproved(rules: Rules, items: seq<Json>, i: nat, record: Json, again: Json)
    requires JobRules(rules) && i < |items| && Collect(ReadJobs(rules, items)).Ok?
    requires Approves(rules, record, again, Collect(ReadJobs(rules, items)).value[i].contentHash)
    ensures var was := Collect(ReadJobs(rules, items)).value;
            && items[i].Obj?
            && ReadJob(rules, Put(items[i], "approval", record)).Ok?
            && Collect(ReadJobs(rules, items[i := Put(items[i], "approval", record)]))
                == Ok(was[i := PromotedJob(was[i], again)])
  {
    var rs := ReadJobs(rules, items);
    var was := Collect(rs).value;
    assert rs[i] == Ok(was[i]);
    ReadJobApproved(rules, items[i], record, again);
    assert ReadJobs(rules, items[i := Put(items[i], "approval", record)]) == rs[i := Ok(PromotedJob(was[i], again))];
    CollectUpdate(rs, i, PromotedJob(was[i], again));
  }

  lemma FindsItsJob(rules: Rules, raw: Json, i: nat)
    requires JobRules(rules) && LoadedJobs(rules, raw).Ok? && i < |LoadedJobs(rules, raw).value|
    ensures LoadedJobs(rules, raw) == Collect(ReadJobs(rules, JobList(raw).value))
    ensures FindJob(JobList(raw).value, LoadedJobs(rules, raw).value[i].id) == i
  {
    var before, items := LoadedJobs(rules, raw).value, JobList(raw).value;
    var rs := ReadJobs(rules, items);
    var ids := JobIds(before);
    NoRepeats(ids);
    forall k | 0 <= k < |items| ensures Get(items[k], "id") == Some(Str(ids[k])) {
      assert rs[k] == Ok(before[k]);
      ReadJobId(rules, items[k]);
    }
    var at := FindJob(items, ids[i]);
    assert at <= i;
  }

  lemma JobsFileApproved(raw: Json, i: nat, record: Json)
    requires JobList(raw).Some? && i < |JobList(raw).value| && JobList(raw).value[i].Obj?
    ensures var items := JobList(raw).value;
            JobList(WithJobApproval(raw, i, record)) == Some(items[i := Put(items[i], "approval", record)])
  {
  }

  /** The same of the jobs file, listed or wrapped. */
  lemma JobApprovalReloads(rules: Rules, raw: Json, i: nat, approval: Json, record: Json, again: Json)
    requires JobRules(rules) && LoadedJobs(rules, raw).Ok? && i < |LoadedJobs(rules, raw).value|
    requires rules.approval(approval) == Some(record)
    requires Approves(rules, record, again, LoadedJobs(rules, raw).value[i].contentHash)
    ensures var before := LoadedJobs(rules, raw).value;
            var written := JobApproved(rules, raw, before[i].id, approval);
            && written == Ok(WithJobApproval(raw, i, record))
            && LoadedJobs(rules, written.value) == Ok(before[i := PromotedJob(before[i], again)])
  {
    FindsItsJob(rules, raw, i);
    var before := LoadedJobs(rules, raw).value;
    ReadJobsApproved(rules, JobList(raw).value, i, record, again);
    JobsFileApproved(raw, i, record);
    assert JobIds(before[i := PromotedJob(before[i], again)]) == JobIds(before);
  }
}
