/** What a bundle exports: which demos, in what order, with what content, and where each listed file comes from. */
module MediaPackerContents {
  import opened Wrappers
  import opened MediaPacker
  import opened MediaPackerProofs
  import CanonicalJson

  // ---------- every listed file is one of its demo's own ----------

  /** The type a record's file name stands for. */
  function TypeOf(name: string): FileType {
    if ShotName(name) then Png else if name == "demo.webm" then Webm else Vtt
  }

  ghost predicate FromInput(f: BundleFile, m: MediaCopy, d: DemoInput, name: string) {
    && name in d.media
    && f == BundleFile(Path(d.journey, name), d.media[name].sha256, d.media[name].bytes, TypeOf(name))
    && m == MediaCopy(Path(d.journey, name), d.media[name].source)
  }

  ghost predicate OfDemo(f: BundleFile, m: MediaCopy, d: DemoInput) {
    exists name :: FromInput(f, m, d, name)
  }

  /** `q` is `p` with files of `d` added to both lists. */
  ghost predicate Adds(p: Packed, q: Packed, d: DemoInput) {
    && |p.files| == |p.media| <= |q.files| == |q.media|
    && q.files[..|p.files|] == p.files && q.media[..|p.media|] == p.media
    && forall i :: |p.files| <= i < |q.files| ==> OfDemo(q.files[i], q.media[i], d)
  }

  lemma AddsBoth(p: Packed, q: Packed, r: Packed, d: DemoInput)
    requires Adds(p, q, d) && Adds(q, r, d)
    ensures Adds(p, r, d)
  {
    assert r.files[..|p.files|] == r.files[..|q.files|][..|p.files|];
    assert r.media[..|p.media|] == r.media[..|q.media|][..|p.media|];
    forall i | |p.files| <= i < |r.files| ensures OfDemo(r.files[i], r.media[i], d) {
      if i < |q.files| {
        assert r.files[i] == r.files[..|q.files|][i] && r.media[i] == r.media[..|q.media|][i];
      }
    }
  }

  lemma TakeAdds(p: Packed, d: DemoInput, name: Option<string>, t: FileType)
    requires |p.files| == |p.media| && (name.Some? ==> TypeOf(name.value) == t)
    ensures Adds(p, TakeFile(p, d, name, t).0, d)
  {
    var (q, path) := TakeFile(p, d, name, t);
    if path.Some? {
      assert FromInput(q.files[|p.files|], q.media[|p.media|], d, name.value);
    }
  }

  lemma {:induction false} StepsAdd(p: Packed, d: DemoInput, n: nat, textOk: TextRule)
    requires |p.files| == |p.media| && n <= |d.steps|
    ensures Adds(p, PackSteps(p, d, n, textOk).0, d)
  {
    if n > 0 {
      StepsAdd(p, d, n - 1, textOk);
      var q, s := PackSteps(p, d, n - 1, textOk).0, d.steps[n - 1];
      if s.screenshot.Some? && ShotName(s.screenshot.value) { TakeAdds(q, d, s.screenshot, Png); }
      AddsBoth(p, q, PackStep(q, d, s, textOk).0, d);
    }
  }

  lemma ClipsAdd(p: Packed, refs: seq<string>, d: DemoInput)
    requires Lockstep(p, refs) && RecordNames(d) && Path(d.journey, "demo.webm") !in refs
    ensures Adds(p, PackClips(p, d).packed, d)
  {
    ClipsList(p, refs, d);
    assert |Paths(p.files)| == |Copies(p.media)|;
    if PackClips(p, d).video.Some? {
      var q := TakeFile(p, d, d.video, Webm).0;
      TakeAdds(p, d, d.video, Webm);
      TakeAdds(q, d, d.subtitles, Vtt);
      AddsBoth(p, q, TakeFile(q, d, d.subtitles, Vtt).0, d);
    }
  }

  lemma DemoAdds(p: Packed, refs: seq<string>, d: DemoInput, textOk: TextRule)
    requires Lockstep(p, refs) && RecordNames(d) && Path(d.journey, "demo.webm") !in refs
    ensures Adds(p, PackDemo(p, d, textOk).0, d)
  {
    var (q, steps) := PackSteps(p, d, |d.steps|, textOk);
    assert |Paths(p.files)| == |Copies(p.media)|;
    StepsAdd(p, d, |d.steps|, textOk);
    StepsList(p, refs, d, |d.steps|, textOk);
    ShotsAreOwn(d.journey, StepRefs(steps));
    ClipsAdd(q, refs + StepRefs(steps), d);
    AddsBoth(p, q, PackClips(q, d).packed, d);
  }

  /** Each listed file and its copy are of one of the first `n` demos, as that demo's verified media say. */
  ghost predicate Sourced(p: Packed, sorted: seq<DemoInput>, n: nat)
    requires n <= |sorted|
  {
    |p.files| == |p.media| && forall i :: 0 <= i < |p.files| ==> SourcedAt(p.files[i], p.media[i], sorted, n)
  }

  ghost predicate SourcedAt(f: BundleFile, m: MediaCopy, sorted: seq<DemoInput>, n: nat)
    requires n <= |sorted|
  {
    exists k :: 0 <= k < n && OfDemo(f, m, sorted[k])
  }

  lemma SourcedMore(p: Packed, q: Packed, sorted: seq<DemoInput>, n: nat)
    requires n < |sorted| && Sourced(p, sorted, n) && Adds(p, q, sorted[n])
    ensures Sourced(q, sorted, n + 1)
  {
    forall i | 0 <= i < |q.files| ensures SourcedAt(q.files[i], q.media[i], sorted, n + 1) {
      if i < |p.files| {
        assert q.files[i] == q.files[..|p.files|][i] && q.media[i] == q.media[..|p.media|][i];
        assert SourcedAt(p.files[i], p.media[i], sorted, n);
      }
    }
  }

  lemma SourcedStep(sorted: seq<DemoInput>, n: nat, byId: map<string, Exported>, textOk: TextRule,
      state: (Packed, seq<Demo>))
    requires n < |sorted| && Expected(sorted, byId) && AllNamedApart(sorted)
    requires Sound(state, sorted, n) && Sourced(state.0, sorted, n)
    ensures Sourced(PackNext(state, sorted[n], byId, textOk).0, sorted, n + 1)
  {
    var d := sorted[n];
    if Exports(d, byId, textOk) {
      NotYetListed(state.1, sorted, n, "demo.webm");
      DemoAdds(state.0, Refs(state.1), d, textOk);
    }
    SourcedMore(state.0, PackNext(state, d, byId, textOk).0, sorted, n);
  }

  ghost predicate SoundAndSourced(state: (Packed, seq<Demo>), sorted: seq<DemoInput>, n: nat)
    requires n <= |sorted|
  {
    Sound(state, sorted, n) && Sourced(state.0, sorted, n)
  }

  lemma SoundAndSourcedStep(sorted: seq<DemoInput>, n: nat, byId: map<string, Exported>, textOk: TextRule,
      state: (Packed, seq<Demo>))
    requires n < |sorted| && Expected(sorted, byId) && AllNamedApart(sorted) && SoundAndSourced(state, sorted, n)
    ensures SoundAndSourced(PackNext(state, sorted[n], byId, textOk), sorted, n + 1)
  {
    StateStep(sorted, n, byId, textOk, state);
    SourcedStep(sorted, n, byId, textOk, state);
  }

  /** In every state, each listed file has the digest, size, type and source its demo's media give for its name. */
  lemma EveryFileIsSourced(sorted: seq<DemoInput>, n: nat, byId: map<string, Exported>, textOk: TextRule)
    requires n <= |sorted| && Expected(sorted, byId) && AllNamedApart(sorted)
    ensures SoundAndSourced(PackAll(sorted, n, byId, textOk), sorted, n)
  {
    var inv: Invariant := (s: (Packed, seq<Demo>), k: int) => 0 <= k <= |sorted| && SoundAndSourced(s, sorted, k);
    NothingListed(sorted);
    forall s, k | 0 <= k < |sorted| && inv(s, k) ensures inv(PackNext(s, sorted[k], byId, textOk), k + 1) {
      SoundAndSourcedStep(sorted, k, byId, textOk, s);
    }
    PackAllKeeps(inv, sorted, n, byId, textOk);
  }

  // ---------- truncation keeps files and copies together ----------

  ghost predicate SameAt(f: BundleFile, m: MediaCopy, files: seq<BundleFile>, media: seq<MediaCopy>)
    requires |files| == |media|
  {
    exists j :: 0 <= j < |files| && f == files[j] && m == media[j]
  }

  lemma SameAtMore(f: BundleFile, m: MediaCopy, files: seq<BundleFile>, media: seq<MediaCopy>)
    requires |files| == |media| > 0 && SameAt(f, m, files[..|files| - 1], media[..|media| - 1])
    ensures SameAt(f, m, files, media)
  {
    var j :| 0 <= j < |files| - 1 && f == files[..|files| - 1][j] && m == media[..|media| - 1][j];
    assert f == files[j] && m == media[j];
  }

  lemma {:induction false} KeptPairs(keep: string -> bool, files: seq<BundleFile>, media: seq<MediaCopy>)
    requires |files| == |media| && forall i :: 0 <= i < |files| ==> files[i].path == media[i].path
    ensures var (a, b) := (KeepBy(FilePath, keep, files), KeepBy(CopyPath, keep, media));
            |a| == |b| && forall i :: 0 <= i < |a| ==> SameAt(a[i], b[i], files, media)
  {
    if files != [] {
      var n := |files| - 1;
      KeptPairs(keep, files[..n], media[..n]);
      var (a, b) := (KeepBy(FilePath, keep, files[..n]), KeepBy(CopyPath, keep, media[..n]));
      forall i | 0 <= i < |a| ensures SameAt(a[i], b[i], files, media) { SameAtMore(a[i], b[i], files, media); }
      assert files[n].path == media[n].path;
    }
  }

  lemma TruncateSourced(p: Packed, demos: seq<Demo>, sorted: seq<DemoInput>)
    requires Sourced(p, sorted, |sorted|) && forall i :: 0 <= i < |p.files| ==> p.files[i].path == p.media[i].path
    ensures var b := Truncate(p, demos); Sourced(Packed(b.files, b.media, 0), sorted, |sorted|)
  {
    if |demos| > MAX_DEMOS {
      var keep := path => Kept(demos[..MAX_DEMOS], path);
      KeptPairs(keep, p.files, p.media);
      var b := Truncate(p, demos);
      forall i | 0 <= i < |b.files| ensures SourcedAt(b.files[i], b.media[i], sorted, |sorted|) {
        assert SameAt(b.files[i], b.media[i], p.files, p.media);
        var j :| 0 <= j < |p.files| && b.files[i] == p.files[j] && b.media[i] == p.media[j];
        assert SourcedAt(p.files[j], p.media[j], sorted, |sorted|);
      }
    }
  }

  // ---------- which demos are exported ----------

  function Exportable(sorted: seq<DemoInput>, n: nat, byId: map<string, Exported>, textOk: TextRule): seq<DemoInput>
    requires n <= |sorted|
  {
    if n == 0 then []
    else Exportable(sorted, n - 1, byId, textOk) + if Exports(sorted[n - 1], byId, textOk) then [sorted[n - 1]] else []
  }

  /** A step keeps its number and caption, and its expected result unless the text rule refuses it. */
  ghost predicate SameStep(out: DemoStep, s: StepInput, d: DemoInput, textOk: TextRule) {
    && out.number == s.number && out.caption == s.caption
    && (out.expected.Some? <==> s.expected.Some? && textOk(s.expected.value, 500))
        && (out.expected.Some? ==> out.expected == s.expected)
    && (out.screenshot.Some? ==>
        s.screenshot.Some? && ShotName(s.screenshot.value)
        && out.screenshot.value == Path(d.journey, s.screenshot.value))
  }

  ghost predicate SameDemo(out: Demo, d: DemoInput, textOk: TextRule) {
    && out.journey == d.journey && out.renderedFrom == d.renderedFrom && out.privacy == d.privacy
    && (out.title.Some? <==> d.title.Some? && textOk(d.title.value, 200) && !("DRAFT" <= d.title.value))
    && (out.title.Some? ==> out.title == d.title)
    && |out.steps| == |d.steps|
    && (forall i :: 0 <= i < |d.steps| ==> SameStep(out.steps[i], d.steps[i], d, textOk))
  }

  lemma {:induction false} StepsSame(p: Packed, d: DemoInput, n: nat, textOk: TextRule)
    requires n <= |d.steps|
    ensures forall i :: 0 <= i < n ==> SameStep(PackSteps(p, d, n, textOk).1[i], d.steps[i], d, textOk)
  {
    if n > 0 { StepsSame(p, d, n - 1, textOk); }
  }

  lemma DemoSame(p: Packed, d: DemoInput, textOk: TextRule)
    ensures SameDemo(PackDemo(p, d, textOk).1, d, textOk)
  {
    StepsSame(p, d, |d.steps|, textOk);
  }

  ghost predicate AllSame(demos: seq<Demo>, ds: seq<DemoInput>, textOk: TextRule) {
    |demos| == |ds| && forall i :: 0 <= i < |ds| ==> SameDemo(demos[i], ds[i], textOk)
  }

  lemma AllSameSnoc(demos: seq<Demo>, ds: seq<DemoInput>, out: Demo, d: DemoInput, textOk: TextRule)
    requires AllSame(demos, ds, textOk) && SameDemo(out, d, textOk)
    ensures AllSame(demos + [out], ds + [d], textOk)
  {
  }

  /** The demos exported are exactly the exportable ones, in order, each with its own text. */
  lemma ExportsExactly(sorted: seq<DemoInput>, n: nat, byId: map<string, Exported>, textOk: TextRule)
    requires n <= |sorted|
    ensures AllSame(PackAll(sorted, n, byId, textOk).1, Exportable(sorted, n, byId, textOk), textOk)
  {
    var inv: Invariant := (s: (Packed, seq<Demo>), k: int) => 0 <= k <= |sorted|
        && AllSame(s.1, Exportable(sorted, k, byId, textOk), textOk);
    forall s, k | 0 <= k < |sorted| && inv(s, k) ensures inv(PackNext(s, sorted[k], byId, textOk), k + 1) {
      ExportableStep(sorted, k, byId, textOk, s);
    }
    PackAllKeeps(inv, sorted, n, byId, textOk);
  }

  lemma ExportableStep(sorted: seq<DemoInput>, n: nat, byId: map<string, Exported>, textOk: TextRule,
      s: (Packed, seq<Demo>))
    requires n < |sorted| && AllSame(s.1, Exportable(sorted, n, byId, textOk), textOk)
    ensures AllSame(PackNext(s, sorted[n], byId, textOk).1, Exportable(sorted, n + 1, byId, textOk), textOk)
  {
    if Exports(sorted[n], byId, textOk) {
      DemoSame(s.0, sorted[n], textOk);
      AllSameSnoc(s.1, Exportable(sorted, n, byId, textOk), PackDemo(s.0, sorted[n], textOk).1, sorted[n], textOk);
    }
  }

  // ---------- the order of export ----------

  ghost predicate ByJourney(ds: seq<DemoInput>) {
    forall i, j :: 0 <= i < j < |ds| ==> CanonicalJson.KeyLess(ds[i].journey, ds[j].journey)
  }

  lemma {:induction false} InsertByJourney(d: DemoInput, ds: seq<DemoInput>)
    requires ByJourney(ds) && forall i :: 0 <= i < |ds| ==> ds[i].journey != d.journey
    ensures ByJourney(InsertDemo(d, ds))
    ensures forall x :: x in InsertDemo(d, ds) <==> x == d || x in ds
  {
    if ds != [] {
      CanonicalJson.KeyLessTotal(ds[0].journey, d.journey);
      if CanonicalJson.KeyLess(ds[0].journey, d.journey) {
        InsertByJourney(d, ds[1..]);
        var rest := InsertDemo(d, ds[1..]);
        forall j | 0 <= j < |rest| ensures CanonicalJson.KeyLess(ds[0].journey, rest[j].journey) {
          assert rest[j] in rest;
        }
        assert ds == [ds[0]] + ds[1..];
      } else {
        forall j | 0 <= j < |ds| ensures CanonicalJson.KeyLess(d.journey, ds[j].journey) {
          if j > 0 { CanonicalJson.KeyLessTransitive(d.journey, ds[0].journey, ds[j].journey); }
        }
      }
    }
  }

  /** The demos are exported by Journey id, in UTF-16 order, whatever order they came in. */
  lemma {:induction false} SortedByJourney(ds: seq<DemoInput>)
    requires OnePerJourney(ds)
    ensures ByJourney(SortDemos(ds))
    ensures forall x :: x in SortDemos(ds) <==> x in ds
  {
    if ds != [] {
      SortedByJourney(ds[1..]);
      var rest := SortDemos(ds[1..]);
      forall i | 0 <= i < |rest| ensures rest[i].journey != ds[0].journey {
        assert rest[i] in rest;
        var k :| 0 <= k < |ds[1..]| && ds[1..][k] == rest[i];
        assert ds[k + 1] == rest[i];
      }
      InsertByJourney(ds[0], rest);
      assert ds == [ds[0]] + ds[1..];
    }
  }

  // ---------- the finished bundle ----------

  lemma SortedExpected(demos: seq<DemoInput>, byId: map<string, Exported>)
    requires OnePerJourney(demos) && AllNamedApart(demos) && forall id :: id in byId ==> '/' !in id
    ensures Expected(SortDemos(demos), byId) && AllNamedApart(SortDemos(demos))
  {
    SortDemosKeeps(demos);
    var sorted := SortDemos(demos);
    forall i | 0 <= i < |sorted| ensures DistinctShots(sorted[i]) && RecordNames(sorted[i]) {
      assert sorted[i] in demos;
    }
  }

  /**
   * The finished bundle exports the first 1000 exportable demos in order of their Journeys, each with its
   * own text, and every file it lists has the digest, size, type and source its demo's media give.
   */
  lemma BundleContents(demos: seq<DemoInput>, byId: map<string, Exported>, textOk: TextRule)
    requires OnePerJourney(demos) && AllNamedApart(demos) && forall id :: id in byId ==> '/' !in id
    ensures var b, sorted := Bundle(demos, byId, textOk), SortDemos(demos);
            var all := Exportable(sorted, |sorted|, byId, textOk);
            && AllSame(b.demos, if |all| <= MAX_DEMOS then all else all[..MAX_DEMOS], textOk)
            && Sourced(Packed(b.files, b.media, 0), sorted, |sorted|)
  {
    var sorted := SortDemos(demos);
    SortedExpected(demos, byId);
    EveryFileIsSourced(sorted, |sorted|, byId, textOk);
    ExportsExactly(sorted, |sorted|, byId, textOk);
    var (p, out) := PackAll(sorted, |sorted|, byId, textOk);
    forall i | 0 <= i < |p.files| ensures p.files[i].path == p.media[i].path {
      assert Paths(p.files)[i] == Copies(p.media)[i];
    }
    TruncateSourced(p, out, sorted);
  }
}
