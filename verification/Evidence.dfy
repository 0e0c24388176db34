/**
 * Evidence identity and reuse (check-evidence.ts). The hash is any injective function of the
 * canonical text. A manifest as it was made is reused exactly for an equal input; one changed since
 * is reused exactly when its key is that of the asked input and its digest that of its own content.
 */
module Evidence {
  import opened Wrappers
  import opened Json
  import opened CanonicalJson
  import opened CanonicalRoundTrip
  import opened Lists

  /** A string-valued object: `Record<string, string>`, in insertion order. */
  datatype Record = Record(keys: seq<string>, values: map<string, string>) {
    ghost predicate Valid() {
      Distinct(keys) && (set k | k in keys) == values.Keys
    }

    function ToJson(): Json {
      Obj(keys, map k | k in values :: Str(values[k]))
    }
  }

  datatype App = App(build: string, target: string, origins: seq<string>)
  datatype Suite = Suite(name: string, policyHash: string, changedRoutes: seq<string>)
  datatype Inputs = Inputs(
    journeys: Record, fixtures: string, parameters: string, invariants: string, goals: string, missions: string)
  datatype KeyInput = KeyInput(app: App, suite: Suite, inputs: Inputs)

  datatype Manifest = Manifest(
    version: int, key: string, input: KeyInput, outcome: string, resultDigests: Record, contentDigest: string)

  datatype Reason =
    | MissingEvidence | UnsupportedVersion | NotSuccessful | KeyMismatch | Tampered
    | BuildChanged | TargetDrift | SuiteChanged | PolicyChanged | RoutesChanged | JourneysChanged
    | FixturesChanged | ParametersChanged | InvariantsChanged | GoalsChanged | MissionsChanged

  datatype Decision = Run(reasons: seq<Reason>) | Skip(manifest: Manifest)

  ghost predicate ValidInput(i: KeyInput) { i.inputs.journeys.Valid() }

  ghost predicate ValidManifest(m: Manifest) { ValidInput(m.input) && m.resultDigests.Valid() }

  /** Equal as JSON values: the journeys are an unordered record. */
  ghost predicate SameInput(a: KeyInput, b: KeyInput) {
    && a.app == b.app
    && a.suite == b.suite
    && a.inputs.(journeys := b.inputs.journeys) == b.inputs
    && a.inputs.journeys.values == b.inputs.journeys.values
  }

  // ---------- the JSON the hashes cover ----------

  /** The map in which `names[i]` holds `values[i]`. */
  function Zip<V>(names: seq<string>, values: seq<V>): map<string, V>
    requires |names| == |values|
  {
    if names == [] then map[] else Zip(names[1..], values[1..])[names[0] := values[0]]
  }

  lemma {:induction false} ZipAt<V>(names: seq<string>, values: seq<V>)
    requires |names| == |values| && Distinct(names)
    ensures Zip(names, values).Keys == set k | k in names
    ensures forall i :: 0 <= i < |names| ==> Zip(names, values)[names[i]] == values[i]
  {
    if names != [] {
      ZipAt(names[1..], values[1..]);
      forall i | 0 < i < |names| ensures names[i] in Zip(names, values) && Zip(names, values)[names[i]] == values[i] {
        assert names[i] == names[1..][i - 1] && values[i] == values[1..][i - 1];
      }
    }
  }

  /** An object literal. */
  function ObjectOf(names: seq<string>, values: seq<Json>): Json
    requires |names| == |values|
  {
    Obj(names, Zip(names, values))
  }

  function Strings(xs: seq<string>): Json {
    Arr(seq(|xs|, i requires 0 <= i < |xs| => Str(xs[i])))
  }

  const APP_NAMES := ["build", "target", "origins"]
  const SUITE_NAMES := ["name", "policyHash", "changedRoutes"]
  const INPUT_NAMES := ["journeys", "fixtures", "parameters", "invariants", "goals", "missions"]
  const KEY_NAMES := ["app", "suite", "inputs"]
  const MANIFEST_NAMES := ["version", "key", "input", "outcome", "resultDigests"]

  lemma NamesDistinct()
    ensures Distinct(APP_NAMES) && Distinct(SUITE_NAMES) && Distinct(INPUT_NAMES)
    ensures Distinct(KEY_NAMES) && Distinct(MANIFEST_NAMES)
  {
    assert "invariants"[2] != "parameters"[2];
    assert "fixtures"[0] != "missions"[0] && "journeys"[0] != "fixtures"[0] && "journeys"[0] != "missions"[0];
    assert "suite"[0] != "input"[0];
  }

  function AppJson(a: App): Json {
    NamesDistinct();
    ObjectOf(APP_NAMES, [Str(a.build), Str(a.target), Strings(a.origins)])
  }

  function SuiteJson(s: Suite): Json {
    NamesDistinct();
    ObjectOf(SUITE_NAMES, [Str(s.name), Str(s.policyHash), Strings(s.changedRoutes)])
  }

  function InputsJson(i: Inputs): Json {
    NamesDistinct();
    ObjectOf(INPUT_NAMES, [i.journeys.ToJson(), Str(i.fixtures), Str(i.parameters), Str(i.invariants), Str(i.goals),
        Str(i.missions)])
  }

  function InputJson(i: KeyInput): Json {
    NamesDistinct();
    ObjectOf(KEY_NAMES, [AppJson(i.app), SuiteJson(i.suite), InputsJson(i.inputs)])
  }

  /** The manifest without its content digest. */
  function UnsignedJson(m: Manifest): Json {
    NamesDistinct();
    ObjectOf(MANIFEST_NAMES, [Num(m.version), Str(m.key), InputJson(m.input), Str(m.outcome), m.resultDigests.ToJson()])
  }

  lemma ObjectOfWellFormed(names: seq<string>, values: seq<Json>)
    requires |names| == |values| && Distinct(names)
    requires forall i :: 0 <= i < |values| ==> WellFormed(values[i])
    ensures WellFormed(ObjectOf(names, values))
  {
    ZipAt(names, values);
    var fields := Zip(names, values);
    forall k | k in fields ensures WellFormed(fields[k]) {
      var i :| 0 <= i < |names| && names[i] == k;
    }
  }

  // ---------- what that JSON means ----------

  ghost function ObjectValue(names: seq<string>, values: seq<Value>): Value
    requires |names| == |values|
  {
    VObj(Zip(names, values))
  }

  lemma ObjectValueInjective(names: seq<string>, a: seq<Value>, b: seq<Value>)
    requires |names| == |a| == |b| && Distinct(names)
    ensures ObjectValue(names, a) == ObjectValue(names, b) <==> a == b
  {
    ZipAt(names, a);
    ZipAt(names, b);
    if Zip(names, a) == Zip(names, b) {
      forall i | 0 <= i < |names| ensures a[i] == b[i] {
        assert Zip(names, a)[names[i]] == a[i];
      }
    }
  }

  lemma ObjectOfMeaning(names: seq<string>, values: seq<Json>, meanings: seq<Value>)
    requires |names| == |values| == |meanings| && Distinct(names)
    requires forall i :: 0 <= i < |values| ==> Meaning(values[i]) == meanings[i]
    ensures Meaning(ObjectOf(names, values)) == ObjectValue(names, meanings)
  {
    ZipAt(names, values);
    ZipAt(names, meanings);
    var fields, target := Zip(names, values), Zip(names, meanings);
    forall k | k in fields ensures Meaning(fields[k]) == target[k] {
      var i :| 0 <= i < |names| && names[i] == k;
    }
    FieldsMeaning(Obj(names, fields), target);
  }

  lemma FieldsMeaning(o: Json, target: map<string, Value>)
    requires o.Obj? && o.fields.Keys == target.Keys
    requires forall k :: k in o.fields ==> Meaning(o.fields[k]) == target[k]
    ensures Meaning(o) == VObj(target)
  {
    assert (map k | k in o.fields :: Meaning(o.fields[k])) == target;
  }

  ghost function StringsValue(xs: seq<string>): Value {
    VArr(seq(|xs|, i requires 0 <= i < |xs| => VStr(xs[i])))
  }

  ghost function RecordValue(r: Record): Value {
    VObj(map k | k in r.values :: VStr(r.values[k]))
  }

  ghost function AppValues(a: App): seq<Value> {
    [VStr(a.build), VStr(a.target), StringsValue(a.origins)]
  }

  ghost function SuiteValues(s: Suite): seq<Value> {
    [VStr(s.name), VStr(s.policyHash), StringsValue(s.changedRoutes)]
  }

  ghost function InputsValues(i: Inputs): seq<Value> {
    [RecordValue(i.journeys), VStr(i.fixtures), VStr(i.parameters), VStr(i.invariants), VStr(i.goals), VStr(i.missions)]
  }

  ghost function AppValue(a: App): Value {
    NamesDistinct();
    ObjectValue(APP_NAMES, AppValues(a))
  }

  ghost function SuiteValue(s: Suite): Value {
    NamesDistinct();
    ObjectValue(SUITE_NAMES, SuiteValues(s))
  }

  ghost function InputsValue(i: Inputs): Value {
    NamesDistinct();
    ObjectValue(INPUT_NAMES, InputsValues(i))
  }

  ghost function KeyValue(i: KeyInput): Value {
    NamesDistinct();
    ObjectValue(KEY_NAMES, KeyValues(i))
  }

  ghost function ManifestValue(m: Manifest): Value {
    NamesDistinct();
    ObjectValue(MANIFEST_NAMES, ManifestValues(m))
  }

  ghost function KeyValues(i: KeyInput): seq<Value> {
    [AppValue(i.app), SuiteValue(i.suite),
     InputsValue(i.inputs)]
  }

  ghost function ManifestValues(m: Manifest): seq<Value> {
    [VNum(m.version), VStr(m.key), KeyValue(m.input), VStr(m.outcome), RecordValue(m.resultDigests)]
  }

  lemma StringsMeaning(a: seq<string>)
    ensures WellFormed(Strings(a)) && Meaning(Strings(a)) == StringsValue(a)
  {
    var items := Strings(a).items;
    forall i | 0 <= i < |a| ensures Meaning(items[i]) == VStr(a[i]) {}
    assert seq(|items|, i requires 0 <= i < |items| => Meaning(items[i])) == StringsValue(a).items;
  }

  lemma StringsValueInjective(a: seq<string>, b: seq<string>)
    ensures StringsValue(a) == StringsValue(b) <==> a == b
  {
    if StringsValue(a) == StringsValue(b) {
      var x, y := StringsValue(a).items, StringsValue(b).items;
      assert |a| == |x| == |y| == |b|;
      forall i | 0 <= i < |a| ensures a[i] == b[i] { assert x[i] == y[i]; }
    }
  }

  lemma RecordMeaning(r: Record)
    requires r.Valid()
    ensures WellFormed(r.ToJson()) && Meaning(r.ToJson()) == RecordValue(r)
  {
    var fields := r.ToJson().fields;
    forall k | k in fields ensures Meaning(fields[k]) == VStr(r.values[k]) {}
    assert (map k | k in fields :: Meaning(fields[k])) == RecordValue(r).fields;
  }

  lemma RecordValueInjective(a: Record, b: Record)
    ensures RecordValue(a) == RecordValue(b) <==> a.values == b.values
  {
    if RecordValue(a) == RecordValue(b) {
      var x, y := RecordValue(a).fields, RecordValue(b).fields;
      assert a.values.Keys == x.Keys == y.Keys == b.values.Keys;
      forall k | k in a.values ensures a.values[k] == b.values[k] { assert x[k] == y[k]; }
      assert a.values == b.values;
    }
  }

  lemma AppMeaning(a: App)
    ensures WellFormed(AppJson(a))
    ensures Meaning(AppJson(a)) == AppValue(a)
  {
    NamesDistinct();
    StringsMeaning(a.origins);
    var js := [Str(a.build), Str(a.target), Strings(a.origins)];
    ObjectOfWellFormed(APP_NAMES, js);
    ObjectOfMeaning(APP_NAMES, js, AppValues(a));
  }

  lemma SuiteMeaning(s: Suite)
    ensures WellFormed(SuiteJson(s))
    ensures Meaning(SuiteJson(s)) == SuiteValue(s)
  {
    NamesDistinct();
    StringsMeaning(s.changedRoutes);
    var js := [Str(s.name), Str(s.policyHash), Strings(s.changedRoutes)];
    ObjectOfWellFormed(SUITE_NAMES, js);
    ObjectOfMeaning(SUITE_NAMES, js, SuiteValues(s));
  }

  lemma InputsMeaning(i: Inputs)
    requires i.journeys.Valid()
    ensures WellFormed(InputsJson(i))
    ensures Meaning(InputsJson(i)) == InputsValue(i)
  {
    NamesDistinct();
    RecordMeaning(i.journeys);
    var js := [i.journeys.ToJson(), Str(i.fixtures), Str(i.parameters), Str(i.invariants), Str(i.goals),
        Str(i.missions)];
    ObjectOfWellFormed(INPUT_NAMES, js);
    ObjectOfMeaning(INPUT_NAMES, js, InputsValues(i));
  }

  lemma InputMeaning(i: KeyInput)
    requires ValidInput(i)
    ensures WellFormed(InputJson(i))
    ensures Meaning(InputJson(i)) == KeyValue(i)
  {
    NamesDistinct();
    AppMeaning(i.app);
    SuiteMeaning(i.suite);
    InputsMeaning(i.inputs);
    var js := [AppJson(i.app), SuiteJson(i.suite), InputsJson(i.inputs)];
    ObjectOfWellFormed(KEY_NAMES, js);
    ObjectOfMeaning(KEY_NAMES, js, KeyValues(i));
  }

  lemma UnsignedMeaning(m: Manifest)
    requires ValidManifest(m)
    ensures WellFormed(UnsignedJson(m))
    ensures Meaning(UnsignedJson(m)) == ManifestValue(m)
  {
    NamesDistinct();
    InputMeaning(m.input);
    RecordMeaning(m.resultDigests);
    var js := [Num(m.version), Str(m.key), InputJson(m.input), Str(m.outcome), m.resultDigests.ToJson()];
    ObjectOfWellFormed(MANIFEST_NAMES, js);
    ObjectOfMeaning(MANIFEST_NAMES, js, ManifestValues(m));
  }

  lemma KeyValuesInjective(a: KeyInput, b: KeyInput)
    ensures KeyValues(a) == KeyValues(b) <==> SameInput(a, b)
  {
    NamesDistinct();
    ObjectValueInjective(APP_NAMES, AppValues(a.app), AppValues(b.app));
    ObjectValueInjective(SUITE_NAMES, SuiteValues(a.suite), SuiteValues(b.suite));
    ObjectValueInjective(INPUT_NAMES, InputsValues(a.inputs), InputsValues(b.inputs));
    AppValuesInjective(a.app, b.app);
    SuiteValuesInjective(a.suite, b.suite);
    InputsValuesInjective(a.inputs, b.inputs);
    var x, y := KeyValues(a), KeyValues(b);
    assert x == y <==> x[0] == y[0] && x[1] == y[1] && x[2] == y[2];
  }

  lemma AppValuesInjective(a: App, b: App)
    ensures AppValues(a) == AppValues(b) <==> a == b
  {
    StringsValueInjective(a.origins, b.origins);
    var x, y := AppValues(a), AppValues(b);
    assert x == y <==> x[0] == y[0] && x[1] == y[1] && x[2] == y[2];
  }

  lemma SuiteValuesInjective(a: Suite, b: Suite)
    ensures SuiteValues(a) == SuiteValues(b) <==> a == b
  {
    StringsValueInjective(a.changedRoutes, b.changedRoutes);
    var x, y := SuiteValues(a), SuiteValues(b);
    assert x == y <==> x[0] == y[0] && x[1] == y[1] && x[2] == y[2];
  }

  lemma InputsValuesInjective(a: Inputs, b: Inputs)
    ensures InputsValues(a) == InputsValues(b)
       <==> a.(journeys := b.journeys) == b && a.journeys.values == b.journeys.values
  {
    RecordValueInjective(a.journeys, b.journeys);
    var x, y := InputsValues(a), InputsValues(b);
    assert x == y <==> x[0] == y[0] && x[1] == y[1] && x[2] == y[2] && x[3] == y[3] && x[4] == y[4] && x[5] == y[5];
  }

  /** Everything a content digest covers, with records as unordered maps. */
  ghost predicate SameContent(a: Manifest, b: Manifest) {
    && a.version == b.version
    && a.key == b.key
    && SameInput(a.input, b.input)
    && a.outcome == b.outcome
    && a.resultDigests.values == b.resultDigests.values
  }

  lemma ManifestValuesInjective(a: Manifest, b: Manifest)
    ensures ManifestValues(a) == ManifestValues(b) <==> SameContent(a, b)
  {
    NamesDistinct();
    RecordValueInjective(a.resultDigests, b.resultDigests);
    KeyValuesInjective(a.input, b.input);
    ObjectValueInjective(KEY_NAMES, KeyValues(a.input), KeyValues(b.input));
    var x, y := ManifestValues(a), ManifestValues(b);
    assert x == y <==> x[0] == y[0] && x[1] == y[1] && x[2] == y[2] && x[3] == y[3] && x[4] == y[4];
  }

  // ---------- hashing ----------

  /** SHA-256 as hex, of which only injectivity is used. */
  type Hash = string -> string

  ghost predicate Injective(h: Hash) {
    forall a, b :: h(a) == h(b) ==> a == b
  }

  function Labelled(digest: string): string { "sha256:" + digest }

  lemma LabelledInjective(a: string, b: string)
    ensures Labelled(a) == Labelled(b) <==> a == b
  {
    assert Labelled(a)[7..] == a && Labelled(b)[7..] == b;
  }

  function Sha256(h: Hash, j: Json): string
    requires WellFormed(j)
  {
    h(Canonical(j))
  }

  function EvidenceKey(h: Hash, i: KeyInput): string
    requires ValidInput(i)
  {
    InputMeaning(i);
    Labelled(Sha256(h, InputJson(i)))
  }

  function ContentDigest(h: Hash, m: Manifest): string
    requires ValidManifest(m)
  {
    UnsignedMeaning(m);
    Labelled(Sha256(h, UnsignedJson(m)))
  }

  lemma KeyIdentifiesInput(h: Hash, a: KeyInput, b: KeyInput)
    requires Injective(h) && ValidInput(a) && ValidInput(b)
    ensures EvidenceKey(h, a) == EvidenceKey(h, b) <==> SameInput(a, b)
  {
    NamesDistinct();
    InputMeaning(a);
    InputMeaning(b);
    KeyValuesInjective(a, b);
    ObjectValueInjective(KEY_NAMES, KeyValues(a), KeyValues(b));
    CanonicalInjective(InputJson(a), InputJson(b));
    LabelledInjective(Sha256(h, InputJson(a)), Sha256(h, InputJson(b)));
  }

  lemma DigestIdentifiesContent(h: Hash, a: Manifest, b: Manifest)
    requires Injective(h) && ValidManifest(a) && ValidManifest(b)
    ensures ContentDigest(h, a) == ContentDigest(h, b) <==> SameContent(a, b)
  {
    NamesDistinct();
    UnsignedMeaning(a);
    UnsignedMeaning(b);
    ManifestValuesInjective(a, b);
    ObjectValueInjective(MANIFEST_NAMES, ManifestValues(a), ManifestValues(b));
    CanonicalInjective(UnsignedJson(a), UnsignedJson(b));
    LabelledInjective(Sha256(h, UnsignedJson(a)), Sha256(h, UnsignedJson(b)));
  }

  // ---------- the decision ----------

  function CreateManifest(h: Hash, input: KeyInput, resultDigests: Record): Manifest
    requires ValidInput(input) && resultDigests.Valid()
  {
    var unsigned := Manifest(1, EvidenceKey(h, input), input, "pass", resultDigests, "");
    unsigned.(contentDigest := ContentDigest(h, unsigned))
  }

  function When(changed: bool, reason: Reason): seq<Reason> {
    if changed then [reason] else []
  }

  predicate ListChanged(a: seq<string>, b: seq<string>) {
    StringsMeaning(a);
    StringsMeaning(b);
    Canonical(Strings(a)) != Canonical(Strings(b))
  }

  predicate RecordChanged(a: Record, b: Record)
    requires a.Valid() && b.Valid()
  {
    RecordMeaning(a);
    RecordMeaning(b);
    Canonical(a.ToJson()) != Canonical(b.ToJson())
  }

  function AppReasons(a: App, b: App): seq<Reason> {
    When(a.build != b.build, BuildChanged)
    + When(a.target != b.target || ListChanged(a.origins, b.origins), TargetDrift)
  }

  function SuiteReasons(a: Suite, b: Suite): seq<Reason> {
    When(a.name != b.name, SuiteChanged)
    + When(a.policyHash != b.policyHash, PolicyChanged)
    + When(ListChanged(a.changedRoutes, b.changedRoutes), RoutesChanged)
  }

  function InputsReasons(a: Inputs, b: Inputs): seq<Reason>
    requires a.journeys.Valid() && b.journeys.Valid()
  {
    When(RecordChanged(a.journeys, b.journeys), JourneysChanged)
    + When(a.fixtures != b.fixtures, FixturesChanged)
    + When(a.parameters != b.parameters, ParametersChanged)
    + When(a.invariants != b.invariants, InvariantsChanged)
    + When(a.goals != b.goals, GoalsChanged)
    + When(a.missions != b.missions, MissionsChanged)
  }

  /** `evidenceMismatchReasons`. */
  function MismatchReasons(input: KeyInput, candidate: KeyInput): seq<Reason>
    requires ValidInput(input) && ValidInput(candidate)
  {
    AppReasons(input.app, candidate.app) + SuiteReasons(input.suite, candidate.suite)
    + InputsReasons(input.inputs, candidate.inputs)
  }

  function ReuseDecision(h: Hash, input: KeyInput, candidate: Option<Manifest>): Decision
    requires ValidInput(input) && (candidate.Some? ==> ValidManifest(candidate.value))
  {
    match candidate
    case None => Run([MissingEvidence])
    case Some(m) =>
      if m.version != 1 then Run([UnsupportedVersion])
      else if m.outcome != "pass" then Run([NotSuccessful])
      else if m.key != EvidenceKey(h, input) then
        var reasons := MismatchReasons(input, m.input);
        Run(if reasons == [] then [KeyMismatch] else reasons)
      else if ContentDigest(h, m) != m.contentDigest then Run([Tampered])
      else Skip(m)
  }

  // ---------- which part changed ----------

  ghost predicate AppPart(r: Reason, a: App, b: App) {
    (r == BuildChanged && a.build != b.build) || (r == TargetDrift && (a.target != b.target || a.origins != b.origins))
  }

  ghost predicate SuitePart(r: Reason, a: Suite, b: Suite) {
    || (r == SuiteChanged && a.name != b.name)
    || (r == PolicyChanged && a.policyHash != b.policyHash)
    || (r == RoutesChanged && a.changedRoutes != b.changedRoutes)
  }

  ghost predicate InputsPart(r: Reason, a: Inputs, b: Inputs) {
    || (r == JourneysChanged && a.journeys.values != b.journeys.values)
    || (r == FixturesChanged && a.fixtures != b.fixtures)
    || (r == ParametersChanged && a.parameters != b.parameters)
    || (r == InvariantsChanged && a.invariants != b.invariants)
    || (r == GoalsChanged && a.goals != b.goals)
    || (r == MissionsChanged && a.missions != b.missions)
  }

  /** The part of the proof inputs reason `r` names differs. */
  ghost predicate Changed(r: Reason, a: KeyInput, b: KeyInput) {
    AppPart(r, a.app, b.app) || SuitePart(r, a.suite, b.suite) || InputsPart(r, a.inputs, b.inputs)
  }

  lemma ListChangedExact(a: seq<string>, b: seq<string>)
    ensures ListChanged(a, b) <==> a != b
  {
    StringsMeaning(a);
    StringsMeaning(b);
    StringsValueInjective(a, b);
    CanonicalInjective(Strings(a), Strings(b));
  }

  lemma RecordChangedExact(a: Record, b: Record)
    requires a.Valid() && b.Valid()
    ensures RecordChanged(a, b) <==> a.values != b.values
  {
    RecordMeaning(a);
    RecordMeaning(b);
    RecordValueInjective(a, b);
    CanonicalInjective(a.ToJson(), b.ToJson());
  }

  lemma AppReasonsExact(a: App, b: App)
    ensures forall r :: r in AppReasons(a, b) <==> AppPart(r, a, b)
    ensures AppReasons(a, b) == [] <==> a == b
  {
    ListChangedExact(a.origins, b.origins);
  }

  lemma SuiteReasonsExact(a: Suite, b: Suite)
    ensures forall r :: r in SuiteReasons(a, b) <==> SuitePart(r, a, b)
    ensures SuiteReasons(a, b) == [] <==> a == b
  {
    ListChangedExact(a.changedRoutes, b.changedRoutes);
  }

  lemma InputsReasonsExact(a: Inputs, b: Inputs)
    requires a.journeys.Valid() && b.journeys.Valid()
    ensures forall r :: r in InputsReasons(a, b) <==> InputsPart(r, a, b)
    ensures InputsReasons(a, b) == []
       <==> a.(journeys := b.journeys) == b && a.journeys.values == b.journeys.values
  {
    RecordChangedExact(a.journeys, b.journeys);
  }

  lemma Combined(x: seq<Reason>, y: seq<Reason>, z: seq<Reason>, a: KeyInput, b: KeyInput)
    requires forall r :: r in x <==> AppPart(r, a.app, b.app)
    requires forall r :: r in y <==> SuitePart(r, a.suite, b.suite)
    requires forall r :: r in z <==> InputsPart(r, a.inputs, b.inputs)
    ensures forall r :: r in x + y + z <==> Changed(r, a, b)
    ensures x + y + z == [] <==> x == [] && y == [] && z == []
  {
    assert |x + y + z| == |x| + |y| + |z|;
  }

  /** The reasons name exactly the changed parts; none are given exactly for equal inputs. */
  lemma MismatchReasonsExact(a: KeyInput, b: KeyInput)
    requires ValidInput(a) && ValidInput(b)
    ensures forall r :: r in MismatchReasons(a, b) <==> Changed(r, a, b)
    ensures MismatchReasons(a, b) == [] <==> SameInput(a, b)
  {
    AppReasonsExact(a.app, b.app);
    SuiteReasonsExact(a.suite, b.suite);
    InputsReasonsExact(a.inputs, b.inputs);
    Combined(AppReasons(a.app, b.app), SuiteReasons(a.suite, b.suite), InputsReasons(a.inputs, b.inputs), a, b);
  }

  /**
   * A manifest made from `a` is reused for `b` exactly when the two inputs are equal; otherwise the
   * refusal names exactly the changed parts.
   */
  lemma ReuseExact(h: Hash, a: KeyInput, b: KeyInput, digests: Record)
    requires Injective(h) && ValidInput(a) && ValidInput(b) && digests.Valid()
    ensures var d := ReuseDecision(h, b, Some(CreateManifest(h, a, digests)));
            && (d.Skip? <==> SameInput(a, b))
            && (d.Run? ==> d.reasons != [] && forall r :: r in d.reasons <==> Changed(r, b, a))
  {
    KeyIdentifiesInput(h, a, b);
    MismatchReasonsExact(b, a);
    var m := CreateManifest(h, a, digests);
    DigestIdentifiesContent(h, m, m.(contentDigest := ""));
  }

  // ---------- what the hashes cover ----------

  /** The member `k` of an object. */
  ghost predicate Holds(j: Json, k: string, v: Json) { j.Obj? && k in j.fields && j.fields[k] == v }

  /** An object with these keys and no others. */
  ghost predicate HasKeys(j: Json, keys: set<string>) { j.Obj? && j.fields.Keys == keys }

  /** The proof inputs as the key's text holds them. */
  lemma InputJsonExactly(i: KeyInput)
    ensures var j := InputJson(i);
            && HasKeys(j, {"app", "suite", "inputs"})
            && Holds(j, "app", AppJson(i.app)) && Holds(j, "suite", SuiteJson(i.suite))
            && Holds(j, "inputs", InputsJson(i.inputs))
    ensures var a := AppJson(i.app);
            && HasKeys(a, {"build", "target", "origins"}) && Holds(a, "build", Str(i.app.build))
            && Holds(a, "target", Str(i.app.target)) && Holds(a, "origins", Strings(i.app.origins))
    ensures var s := SuiteJson(i.suite);
            && HasKeys(s, {"name", "policyHash", "changedRoutes"}) && Holds(s, "name", Str(i.suite.name))
            && Holds(s, "policyHash", Str(i.suite.policyHash))
            && Holds(s, "changedRoutes", Strings(i.suite.changedRoutes))
  {
    NamesDistinct();
    ZipAt(KEY_NAMES, [AppJson(i.app), SuiteJson(i.suite), InputsJson(i.inputs)]);
    ZipAt(APP_NAMES, [Str(i.app.build), Str(i.app.target), Strings(i.app.origins)]);
    ZipAt(SUITE_NAMES, [Str(i.suite.name), Str(i.suite.policyHash), Strings(i.suite.changedRoutes)]);
    assert APP_NAMES[0] == "build" && APP_NAMES[1] == "target" && APP_NAMES[2] == "origins";
    assert SUITE_NAMES[0] == "name" && SUITE_NAMES[1] == "policyHash" && SUITE_NAMES[2] == "changedRoutes";
    assert KEY_NAMES[0] == "app" && KEY_NAMES[1] == "suite" && KEY_NAMES[2] == "inputs";
  }

  lemma InputsJsonExactly(x: Inputs)
    ensures var j := InputsJson(x);
            && HasKeys(j, {"journeys", "fixtures", "parameters", "invariants", "goals", "missions"})
            && Holds(j, "journeys", x.journeys.ToJson()) && Holds(j, "fixtures", Str(x.fixtures))
            && Holds(j, "parameters", Str(x.parameters)) && Holds(j, "invariants", Str(x.invariants))
            && Holds(j, "goals", Str(x.goals)) && Holds(j, "missions", Str(x.missions))
  {
    NamesDistinct();
    ZipAt(INPUT_NAMES, [x.journeys.ToJson(), Str(x.fixtures), Str(x.parameters), Str(x.invariants), Str(x.goals),
      Str(x.missions)]);
    assert INPUT_NAMES[0] == "journeys" && INPUT_NAMES[1] == "fixtures" && INPUT_NAMES[2] == "parameters";
    assert INPUT_NAMES[3] == "invariants" && INPUT_NAMES[4] == "goals" && INPUT_NAMES[5] == "missions";
  }

  /** A manifest as its content digest's text holds it: all of it but that digest. */
  lemma UnsignedJsonExactly(m: Manifest)
    ensures var j := UnsignedJson(m);
            && HasKeys(j, {"version", "key", "input", "outcome", "resultDigests"})
            && Holds(j, "version", Num(m.version)) && Holds(j, "key", Str(m.key))
            && Holds(j, "input", InputJson(m.input)) && Holds(j, "outcome", Str(m.outcome))
            && Holds(j, "resultDigests", m.resultDigests.ToJson())
  {
    NamesDistinct();
    ZipAt(MANIFEST_NAMES, [Num(m.version), Str(m.key), InputJson(m.input), Str(m.outcome), m.resultDigests.ToJson()]);
    assert MANIFEST_NAMES[0] == "version" && MANIFEST_NAMES[1] == "key" && MANIFEST_NAMES[2] == "input";
    assert MANIFEST_NAMES[3] == "outcome" && MANIFEST_NAMES[4] == "resultDigests";
  }

  // ---------- which changes of a manifest make the check run ----------

  /** What a manifest says of itself: a pass, of version 1, under the key of `b`. */
  ghost predicate Addressed(h: Hash, b: KeyInput, m: Manifest)
    requires ValidInput(b)
  {
    m.version == 1 && m.outcome == "pass" && m.key == EvidenceKey(h, b)
  }

  /** Why a manifest is not reused: the first of these that holds, and for another key the changed parts. */
  lemma RefusalExactly(h: Hash, b: KeyInput, m: Manifest)
    requires ValidInput(b) && ValidManifest(m)
    ensures ReuseDecision(h, b, None) == Run([MissingEvidence])
    ensures var d := ReuseDecision(h, b, Some(m));
            && (m.version != 1 ==> d == Run([UnsupportedVersion]))
            && (m.version == 1 && m.outcome != "pass" ==> d == Run([NotSuccessful]))
            && (m.version == 1 && m.outcome == "pass" && m.key != EvidenceKey(h, b) ==>
                  d.Run? && d.reasons != []
                  && (SameInput(b, m.input) ==> d.reasons == [KeyMismatch])
                  && (!SameInput(b, m.input) ==> forall r :: r in d.reasons <==> Changed(r, b, m.input)))
            && (Addressed(h, b, m) && m.contentDigest != ContentDigest(h, m) ==> d == Run([Tampered]))
            && (d.Skip? ==> d.manifest == m)
  {
    MismatchReasonsExact(b, m.input);
  }

  /** Any manifest at all is reused exactly when it is addressed to `b` and its digest is that of its content. */
  lemma SkipsExactly(h: Hash, b: KeyInput, m: Manifest)
    requires ValidInput(b) && ValidManifest(m)
    ensures ReuseDecision(h, b, Some(m)).Skip? <==> Addressed(h, b, m) && m.contentDigest == ContentDigest(h, m)
  {
  }

  /**
   * Every later change to a manifest made from `a`, whatever else changes with it. A changed version or outcome
   * always runs, and a changed key unless it is that of `b` and the digest was computed again. With its content
   * as it was, it is reused for `b` exactly when the inputs are equal and its digest is as it was. With its
   * content changed and its digest not, it runs; with both changed, it is reused exactly when it is addressed to
   * `b` and its digest is that of the changed content.
   */
  lemma TamperedRuns(h: Hash, a: KeyInput, b: KeyInput, digests: Record, other: Manifest)
    requires Injective(h) && ValidInput(a) && ValidInput(b) && digests.Valid() && ValidManifest(other)
    ensures var m, d := CreateManifest(h, a, digests), ReuseDecision(h, b, Some(other));
            && (!Addressed(h, b, other) ==> d.Run?)
            && (other.version != m.version || other.outcome != m.outcome ==> d.Run?)
            && (other.key != m.key && d.Skip? ==>
                  other.key == EvidenceKey(h, b) && !SameInput(a, b) && other.contentDigest != m.contentDigest)
            && (SameContent(m, other) ==> (d.Skip? <==> SameInput(a, b) && other.contentDigest == m.contentDigest))
            && (!SameContent(m, other) && other.contentDigest == m.contentDigest ==> d.Run?)
            && (!SameContent(m, other) ==>
                  (d.Skip? <==> Addressed(h, b, other) && other.contentDigest == ContentDigest(h, other)))
  {
    var m := CreateManifest(h, a, digests);
    KeyIdentifiesInput(h, a, b);
    DigestIdentifiesContent(h, m, m.(contentDigest := ""));
    DigestIdentifiesContent(h, m, other);
    SkipsExactly(h, b, other);
  }

  /** A manifest whose input and result digests are replaced, and its content digest computed again. */
  ghost function Resealed(h: Hash, m: Manifest, input: KeyInput, digests: Record): Manifest
    requires ValidInput(input) && digests.Valid()
  {
    var changed := m.(input := input, resultDigests := digests);
    changed.(contentDigest := ContentDigest(h, changed))
  }

  /**
   * The change reuse does not see: with the content digest computed again, any input and any result digests are
   * reused under the old key, for the digest is no secret and the key is not compared with the recorded input.
   */
  lemma ResealedIsReused(h: Hash, a: KeyInput, digests: Record, input: KeyInput, forged: Record)
    requires Injective(h) && ValidInput(a) && digests.Valid() && ValidInput(input) && forged.Valid()
    ensures var m := CreateManifest(h, a, digests);
            var other := Resealed(h, m, input, forged);
            && ReuseDecision(h, a, Some(other)).Skip?
            && (SameContent(m, other) <==> SameInput(a, input) && digests.values == forged.values)
  {
    var m := CreateManifest(h, a, digests);
    var other := Resealed(h, m, input, forged);
    DigestIdentifiesContent(h, other, other.(contentDigest := ""));
    SkipsExactly(h, a, other);
  }

  /** A manifest put under the key of `b`, and its content digest computed again. */
  ghost function Readdressed(h: Hash, m: Manifest, b: KeyInput): Manifest
    requires ValidManifest(m) && ValidInput(b)
  {
    var changed := m.(key := EvidenceKey(h, b));
    changed.(contentDigest := ContentDigest(h, changed))
  }

  /** Nor does it see this one: under another input's key a manifest made from `a` is reused for that input. */
  lemma ReaddressedIsReused(h: Hash, a: KeyInput, b: KeyInput, digests: Record)
    requires Injective(h) && ValidInput(a) && ValidInput(b) && digests.Valid()
    ensures var m := CreateManifest(h, a, digests);
            var other := Readdressed(h, m, b);
            && ReuseDecision(h, b, Some(other)).Skip?
            && other.input == a && other.resultDigests == digests
            && (other.key == m.key <==> SameInput(a, b))
  {
    var other := Readdressed(h, CreateManifest(h, a, digests), b);
    KeyIdentifiesInput(h, a, b);
    DigestIdentifiesContent(h, other, other.(contentDigest := ""));
    SkipsExactly(h, b, other);
  }
}
