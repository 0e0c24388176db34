/** What every state of the packer keeps, and what its listing says. */
module MediaPackerProofs {
  import opened Wrappers
  import opened Json
  import opened MediaPacker
  import CanonicalJson
  import opened Lists

  // ---------- the listing ----------

  function Paths(files: seq<BundleFile>): seq<string> {
    seq(|files|, i requires 0 <= i < |files| => files[i].path)
  }

  function Copies(media: seq<MediaCopy>): seq<string> {
    seq(|media|, i requires 0 <= i < |media| => media[i].path)
  }

  function Bytes(files: seq<BundleFile>): int {
    if files == [] then 0 else Bytes(files[..|files| - 1]) + files[|files| - 1].bytes
  }

  function Listed(path: Option<string>): seq<string> {
    match path
    case Some(x) => [x]
    case None => []
  }

  /** The paths a demo's steps refer to, in order. */
  function StepRefs(steps: seq<DemoStep>): seq<string> {
    if steps == [] then [] else StepRefs(steps[..|steps| - 1]) + Listed(steps[|steps| - 1].screenshot)
  }

  function DemoRefs(d: Demo): seq<string> {
    StepRefs(d.steps) + Listed(d.video) + Listed(d.subtitles)
  }

  function Refs(demos: seq<Demo>): seq<string> {
    if demos == [] then [] else Refs(demos[..|demos| - 1]) + DemoRefs(demos[|demos| - 1])
  }

  /** The files listed are exactly `refs`, copied in step, within every limit, and `total` is their size. */
  ghost predicate Lockstep(p: Packed, refs: seq<string>) {
    && Paths(p.files) == Copies(p.media) == refs
    && p.total == Bytes(p.files) <= TOTAL_BYTES
    && |p.files| <= MAX_FILES
    && WithinLimits(p.files)
  }

  predicate WithinLimits(files: seq<BundleFile>) {
    forall i :: 0 <= i < |files| ==> files[i].bytes <= LimitOf(files[i].ftype)
  }

  lemma TakeLists(p: Packed, refs: seq<string>, d: DemoInput, name: Option<string>, t: FileType)
    requires Lockstep(p, refs)
    ensures var (q, path) := TakeFile(p, d, name, t); Lockstep(q, refs + Listed(path))
    ensures var (q, path) := TakeFile(p, d, name, t);
            path.Some? ==>
                path.value == Path(d.journey, name.value) && q.files[..|p.files|] == p.files
                && q.media[..|p.media|] == p.media
    ensures TakeFile(p, d, name, t).1.None? ==> TakeFile(p, d, name, t).0 == p
  {
    var (q, path) := TakeFile(p, d, name, t);
    if path.Some? {
      assert q.files[..|p.files|] == p.files && q.media[..|p.media|] == p.media;
      assert Paths(q.files) == Paths(p.files) + [path.value];
      assert Copies(q.media) == Copies(p.media) + [path.value];
    } else {
      assert refs + Listed(path) == refs;
    }
  }

  /** A screenshot of journey `j`. */
  ghost predicate ShotOf(j: string, path: string) {
    exists name :: path == Path(j, name) && ShotName(name)
  }

  lemma StepLists(p: Packed, refs: seq<string>, d: DemoInput, s: StepInput, textOk: TextRule)
    requires Lockstep(p, refs)
    ensures var (q, step) := PackStep(p, d, s, textOk);
            Lockstep(q, refs + Listed(step.screenshot)) && forall x <- Listed(step.screenshot) :: ShotOf(d.journey, x)
  {
    if s.screenshot.Some? && ShotName(s.screenshot.value) {
      TakeLists(p, refs, d, s.screenshot, Png);
    } else {
      assert refs + Listed(None) == refs;
    }
  }

  lemma StepRefsSnoc(steps: seq<DemoStep>, step: DemoStep, refs: seq<string>)
    ensures StepRefs(steps + [step]) == StepRefs(steps) + Listed(step.screenshot)
    ensures refs + StepRefs(steps + [step]) == refs + StepRefs(steps) + Listed(step.screenshot)
  {
    assert (steps + [step])[..|steps|] == steps;
  }

  lemma {:induction false} StepsList(p: Packed, refs: seq<string>, d: DemoInput, n: nat, textOk: TextRule)
    requires Lockstep(p, refs) && n <= |d.steps|
    ensures var (q, steps) := PackSteps(p, d, n, textOk);
            Lockstep(q, refs + StepRefs(steps)) && forall x <- StepRefs(steps) :: ShotOf(d.journey, x)
  {
    if n == 0 {
      assert refs + [] == refs;
    } else {
      StepsList(p, refs, d, n - 1, textOk);
      var (q, steps) := PackSteps(p, d, n - 1, textOk);
      StepLists(q, refs + StepRefs(steps), d, d.steps[n - 1], textOk);
      StepRefsSnoc(steps, PackStep(q, d, d.steps[n - 1], textOk).1, refs);
    }
  }

  // ---------- video and subtitles: both or neither ----------

  /** Splicing out what was just taken restores the state before it. */
  lemma UntakeRestores(p: Packed, q: Packed, path: string)
    requires |p.files| == |p.media|
    requires |q.files| == |p.files| + 1 && q.files[..|p.files|] == p.files && q.files[|p.files|].path == path
    requires |q.media| == |p.media| + 1 && q.media[..|p.media|] == p.media && q.media[|p.media|].path == path
    requires q.total == p.total + q.files[|p.files|].bytes
    requires path !in Paths(p.files) && path !in Copies(p.media)
    ensures Holds(q, path) && Untake(q, path) == p
  {
    var f, m := q.files[|p.files|], q.media[|p.media|];
    assert q.files == p.files + [f] && q.media == p.media + [m];
    assert forall i :: 0 <= i < |p.files| ==> Paths(p.files)[i] == p.files[i].path;
    assert forall i :: 0 <= i < |p.media| ==> Copies(p.media)[i] == p.media[i].path;
    IndexFound(FilePath, p.files, f);
    IndexFound(CopyPath, p.media, m);
    assert Without(q.files, |p.files|) == p.files && Without(q.media, |p.media|) == p.media;
  }

  ghost predicate OwnPath(j: string, path: Option<string>, name: Option<string>) {
    path.Some? ==> name.Some? && path.value == Path(j, name.value)
  }

  /** Either the video (and the subtitles it has) are listed, or the state is what it was before the video. */
  lemma ClipsList(p: Packed, refs: seq<string>, d: DemoInput)
    requires Lockstep(p, refs)
    requires d.video.Some? ==> Path(d.journey, d.video.value) !in refs
    ensures var c := PackClips(p, d);
            && Lockstep(c.packed, refs + Listed(c.video) + Listed(c.subtitles))
            && (c.video.None? ==> c.subtitles.None? && c.packed == p)
            && OwnPath(d.journey, c.video, d.video) && OwnPath(d.journey, c.subtitles, d.subtitles)
            && (c.video.Some? && d.subtitles.Some? ==> c.subtitles.Some?)
  {
    var c := PackClips(p, d);
    assert refs + [] + [] == refs;
    var v, t := Lookup(d, d.video), Lookup(d, d.subtitles);
    if !(v.None? || (d.subtitles.Some? && t.None?) || (t.Some? && t.value.bytes > SUBTITLES_BYTES)) {
      var (q, video) := TakeFile(p, d, d.video, Webm);
      TakeLists(p, refs, d, d.video, Webm);
      assert refs + Listed(video) + [] == refs + Listed(video);
      if video.Some? && t.Some? {
        var (z, subtitles) := TakeFile(q, d, d.subtitles, Vtt);
        TakeLists(q, refs + Listed(video), d, d.subtitles, Vtt);
        if subtitles.None? {
          UntakeRestores(p, q, video.value);
        }
      }
    }
  }

  // ---------- every reachable state ----------

  lemma DirsApart(a: string, b: string, x: string, y: string)
    requires '/' !in a && '/' !in b && (Dir(a) <= Dir(b) + y || Dir(a) + x == Dir(b) + y)
    ensures a == b
  {
    var t := Dir(b) + y;
    assert Dir(a) <= t;
    assert forall i :: 0 <= i < |a| ==> t[6 + i] == a[i];
    assert forall i :: 0 <= i < |b| ==> t[6 + i] == b[i];
    assert t[6 + |a|] == '/' && t[6 + |b|] == '/';
    assert forall i :: 0 <= i < |a| ==> a[i] != '/';
    assert forall i :: 0 <= i < |b| ==> b[i] != '/';
    assert |a| == |b|;
  }

  /** What the exported Journeys' ids and a demo's record guarantee. */
  ghost predicate Expected(sorted: seq<DemoInput>, byId: map<string, Exported>) {
    && (forall i, j :: 0 <= i < j < |sorted| ==> sorted[i].journey != sorted[j].journey)
    && (forall i :: 0 <= i < |sorted| ==> sorted[i].video.Some? ==> sorted[i].video.value == "demo.webm")
    && (forall id :: id in byId ==> '/' !in id)
  }

  ghost predicate Among(sorted: seq<DemoInput>, n: nat, journey: string)
    requires n <= |sorted|
  {
    exists k :: 0 <= k < n && sorted[k].journey == journey
  }

  lemma AmongMore(sorted: seq<DemoInput>, n: nat, journey: string)
    requires n < |sorted| && Among(sorted, n, journey)
    ensures Among(sorted, n + 1, journey)
  {
    var k :| 0 <= k < n && sorted[k].journey == journey;
  }

  lemma AmongOthers(sorted: seq<DemoInput>, n: nat, journey: string)
    requires n < |sorted| && Among(sorted, n, journey)
    requires forall k :: 0 <= k < n ==> sorted[k].journey != sorted[n].journey
    ensures journey != sorted[n].journey
  {
    var k :| 0 <= k < n && sorted[k].journey == journey;
  }

  /** The demos so far belong to the first `n` inputs, and refer only to files of their own. */
  ghost predicate OwnFiles(demos: seq<Demo>, sorted: seq<DemoInput>, n: nat)
    requires n <= |sorted|
  {
    && (forall i :: 0 <= i < |demos| ==> '/' !in demos[i].journey && Among(sorted, n, demos[i].journey))
    && (forall i, j :: 0 <= i < j < |demos| ==> demos[i].journey != demos[j].journey)
    && (forall i :: 0 <= i < |demos| ==> RefersToOwn(demos[i]))
    && (forall i :: 0 <= i < |demos| ==> demos[i].subtitles.Some? ==> demos[i].video.Some?)
  }

  ghost predicate RefersToOwn(d: Demo) {
    forall x <- DemoRefs(d) :: Dir(d.journey) <= x
  }

  lemma {:induction false} RefsOf(demos: seq<Demo>, x: string) returns (i: nat)
    requires x in Refs(demos)
    ensures i < |demos| && x in DemoRefs(demos[i])
  {
    var n := |demos| - 1;
    if x in DemoRefs(demos[n]) {
      i := n;
    } else {
      i := RefsOf(demos[..n], x);
    }
  }

  lemma InDir(x: string, j: string) returns (name: string)
    requires Dir(j) <= x
    ensures x == Path(j, name)
  {
    name := x[|Dir(j)|..];
  }

  lemma OtherDir(demos: seq<Demo>, j: string, name: string)
    requires '/' !in j
    requires forall i :: 0 <= i < |demos| ==> RefersToOwn(demos[i]) && '/' !in demos[i].journey && demos[i].journey != j
    ensures Path(j, name) !in Refs(demos)
  {
    var x := Path(j, name);
    if x in Refs(demos) {
      var i := RefsOf(demos, x);
      assert RefersToOwn(demos[i]);
      DirsApart(demos[i].journey, j, "", name);
    }
  }

  lemma NotYetListed(demos: seq<Demo>, sorted: seq<DemoInput>, n: nat, name: string)
    requires n < |sorted| && OwnFiles(demos, sorted, n) && '/' !in sorted[n].journey
    requires forall k :: 0 <= k < n ==> sorted[k].journey != sorted[n].journey
    ensures Path(sorted[n].journey, name) !in Refs(demos)
  {
    forall i | 0 <= i < |demos| ensures demos[i].journey != sorted[n].journey {
      AmongOthers(sorted, n, demos[i].journey);
    }
    OtherDir(demos, sorted[n].journey, name);
  }

  lemma VideoIsNoShot(j: string, x: string)
    requires ShotOf(j, x)
    ensures x != Path(j, "demo.webm") && Dir(j) <= x
  {
    var name :| x == Path(j, name) && ShotName(name);
    assert |x| == |Dir(j)| + |name| > |Path(j, "demo.webm")|;
  }

  lemma ShotsAreOwn(j: string, refs: seq<string>)
    requires forall x <- refs :: ShotOf(j, x)
    ensures Path(j, "demo.webm") !in refs
    ensures forall x <- refs :: Dir(j) <= x
  {
    forall x | x in refs ensures x != Path(j, "demo.webm") && Dir(j) <= x { VideoIsNoShot(j, x); }
  }

  lemma Regroup(refs: seq<string>, steps: seq<string>, video: seq<string>, subtitles: seq<string>)
    ensures refs + steps + video + subtitles == refs + (steps + video + subtitles)
    ensures forall x :: x in steps + video + subtitles <==> x in steps || x in video || x in subtitles
  {
  }

  lemma OwnRefs(demo: Demo, video: Option<string>, subtitles: Option<string>)
    requires forall x <- StepRefs(demo.steps) :: ShotOf(demo.journey, x)
    requires OwnPath(demo.journey, demo.video, video) && OwnPath(demo.journey, demo.subtitles, subtitles)
    ensures RefersToOwn(demo)
  {
    var shots := StepRefs(demo.steps);
    ShotsAreOwn(demo.journey, shots);
    Regroup([], shots, Listed(demo.video), Listed(demo.subtitles));
  }

  lemma DemoLists(p: Packed, refs: seq<string>, d: DemoInput, textOk: TextRule)
    requires Lockstep(p, refs)
    requires d.video.Some? ==> d.video.value == "demo.webm"
    requires Path(d.journey, "demo.webm") !in refs
    ensures var (q, demo) := PackDemo(p, d, textOk);
            && Lockstep(q, refs + DemoRefs(demo))
            && RefersToOwn(demo) && demo.journey == d.journey
            && (demo.subtitles.Some? ==> demo.video.Some?)
            && (demo.video.Some? && d.subtitles.Some? ==> demo.subtitles.Some?)
  {
    var (q, steps) := PackSteps(p, d, |d.steps|, textOk);
    var shots := StepRefs(steps);
    StepsList(p, refs, d, |d.steps|, textOk);
    ShotsAreOwn(d.journey, shots);
    ClipsList(q, refs + shots, d);
    var c := PackClips(q, d);
    Regroup(refs, shots, Listed(c.video), Listed(c.subtitles));
    OwnRefs(PackDemo(p, d, textOk).1, d.video, d.subtitles);
  }

  lemma OwnFilesExtend(demos: seq<Demo>, demo: Demo, sorted: seq<DemoInput>, n: nat)
    requires n < |sorted| && OwnFiles(demos, sorted, n) && demo.journey == sorted[n].journey && '/' !in demo.journey
    requires forall k :: 0 <= k < n ==> sorted[k].journey != sorted[n].journey
    requires RefersToOwn(demo) && (demo.subtitles.Some? ==> demo.video.Some?)
    ensures OwnFiles(demos + [demo], sorted, n + 1)
    ensures OwnFiles(demos, sorted, n + 1)
    ensures Refs(demos + [demo]) == Refs(demos) + DemoRefs(demo)
  {
    assert (demos + [demo])[..|demos|] == demos;
    OwnFilesLater(demos, sorted, n);
    assert Among(sorted, n + 1, demo.journey);
    forall i | 0 <= i < |demos| ensures demos[i].journey != demo.journey { AmongOthers(sorted, n, demos[i].journey); }
  }

  lemma OwnFilesLater(demos: seq<Demo>, sorted: seq<DemoInput>, n: nat)
    requires n < |sorted| && OwnFiles(demos, sorted, n)
    ensures OwnFiles(demos, sorted, n + 1)
  {
    forall i | 0 <= i < |demos| ensures Among(sorted, n + 1, demos[i].journey) {
      AmongMore(sorted, n, demos[i].journey);
    }
  }

  lemma NextState(sorted: seq<DemoInput>, n: nat, byId: map<string, Exported>, textOk: TextRule, p: Packed,
      demos: seq<Demo>)
    requires n < |sorted| && Expected(sorted, byId) && Exports(sorted[n], byId, textOk)
    requires Lockstep(p, Refs(demos)) && OwnFiles(demos, sorted, n)
    ensures var (q, demo) := PackDemo(p, sorted[n], textOk);
            Lockstep(q, Refs(demos + [demo])) && OwnFiles(demos + [demo], sorted, n + 1)
  {
    NotYetListed(demos, sorted, n, "demo.webm");
    DemoLists(p, Refs(demos), sorted[n], textOk);
    OwnFilesExtend(demos, PackDemo(p, sorted[n], textOk).1, sorted, n);
  }

  ghost predicate Sound(state: (Packed, seq<Demo>), sorted: seq<DemoInput>, n: nat)
    requires n <= |sorted|
  {
    Lockstep(state.0, Refs(state.1)) && OwnFiles(state.1, sorted, n)
  }

  lemma StateStep(sorted: seq<DemoInput>, n: nat, byId: map<string, Exported>, textOk: TextRule,
      state: (Packed, seq<Demo>))
    requires n < |sorted| && Expected(sorted, byId) && Sound(state, sorted, n)
    ensures Sound(PackNext(state, sorted[n], byId, textOk), sorted, n + 1)
  {
    if Exports(sorted[n], byId, textOk) {
      NextState(sorted, n, byId, textOk, state.0, state.1);
    } else {
      OwnFilesLater(state.1, sorted, n);
    }
  }

  lemma NothingListed(sorted: seq<DemoInput>)
    ensures Sound((NOTHING, []), sorted, 0)
  {
    assert Paths([]) == [] && Copies([]) == [];
  }

  type Invariant = ((Packed, seq<Demo>), nat) -> bool

  /** What the empty packer has and every demo keeps, every state has. */
  lemma {:induction false} PackAllKeeps(inv: Invariant, sorted: seq<DemoInput>, n: nat, byId: map<string, Exported>,
      textOk: TextRule)
    requires n <= |sorted| && inv((NOTHING, []), 0)
    requires forall s, k :: 0 <= k < |sorted| && inv(s, k) ==> inv(PackNext(s, sorted[k], byId, textOk), k + 1)
    ensures inv(PackAll(sorted, n, byId, textOk), n)
  {
    if n > 0 {
      PackAllKeeps(inv, sorted, n - 1, byId, textOk);
      assert inv(PackAll(sorted, n - 1, byId, textOk), n - 1);
    }
  }

  /** In every state the loop reaches, the listing is exactly what the exported demos refer to, in order. */
  lemma EveryStateLists(sorted: seq<DemoInput>, n: nat, byId: map<string, Exported>, textOk: TextRule)
    requires n <= |sorted| && Expected(sorted, byId)
    ensures Sound(PackAll(sorted, n, byId, textOk), sorted, n)
  {
    var inv: Invariant := (s, k) => 0 <= k <= |sorted| && Sound(s, sorted, k);
    NothingListed(sorted);
    forall s, k | 0 <= k < |sorted| && inv(s, k) ensures inv(PackNext(s, sorted[k], byId, textOk), k + 1) {
      StateStep(sorted, k, byId, textOk, s);
    }
    PackAllKeeps(inv, sorted, n, byId, textOk);
  }

  // ---------- truncation to the demo limit ----------

  function KeepPaths(keep: string -> bool, paths: seq<string>): seq<string> {
    if paths == [] then []
    else
      var front := KeepPaths(keep, paths[..|paths| - 1]);
      if keep(paths[|paths| - 1]) then front + [paths[|paths| - 1]] else front
  }

  lemma PathsSnoc(files: seq<BundleFile>, f: BundleFile)
    ensures Paths(files + [f]) == Paths(files) + [f.path]
  {
  }

  lemma BytesSnoc(files: seq<BundleFile>, f: BundleFile)
    ensures Bytes(files + [f]) == Bytes(files) + f.bytes
  {
    assert (files + [f])[..|files|] == files;
  }

  lemma KeepFilesSnoc(keep: string -> bool, files: seq<BundleFile>, f: BundleFile)
    ensures KeepBy(FilePath, keep, files + [f]) == if keep(f.path) then KeepBy(FilePath, keep, files) + [f]
          else KeepBy(FilePath, keep, files)
  {
    assert (files + [f])[..|files|] == files;
  }

  lemma KeepPathsSnoc(keep: string -> bool, paths: seq<string>, x: string)
    ensures KeepPaths(keep, paths + [x]) == KeepPaths(keep, paths) + if keep(x) then [x] else []
  {
    assert (paths + [x])[..|paths|] == paths;
  }

  lemma KeepFilesPathsStep(keep: string -> bool, files: seq<BundleFile>, f: BundleFile)
    requires Paths(KeepBy(FilePath, keep, files)) == KeepPaths(keep, Paths(files))
    ensures Paths(KeepBy(FilePath, keep, files + [f])) == KeepPaths(keep, Paths(files + [f]))
  {
    var k := KeepBy(FilePath, keep, files);
    KeepFilesSnoc(keep, files, f);
    PathsSnoc(files, f);
    PathsSnoc(k, f);
    KeepPathsSnoc(keep, Paths(files), f.path);
    assert KeepPaths(keep, Paths(files)) + [] == KeepPaths(keep, Paths(files));
  }

  lemma {:induction false} KeepFilesPaths(keep: string -> bool, files: seq<BundleFile>)
    ensures Paths(KeepBy(FilePath, keep, files)) == KeepPaths(keep, Paths(files))
  {
    if files == [] {
      assert Paths([]) == [];
    } else {
      var n := |files| - 1;
      KeepFilesPaths(keep, files[..n]);
      KeepFilesPathsStep(keep, files[..n], files[n]);
      assert files == files[..n] + [files[n]];
    }
  }

  lemma KeepFilesFitStep(keep: string -> bool, files: seq<BundleFile>, f: BundleFile)
    requires |KeepBy(FilePath, keep, files)| <= |files| && Bytes(KeepBy(FilePath, keep, files)) <= Bytes(files)
    requires WithinLimits(files + [f]) && WithinLimits(KeepBy(FilePath, keep, files))
    ensures |KeepBy(FilePath, keep, files + [f])| <= |files| + 1
    ensures Bytes(KeepBy(FilePath, keep, files + [f])) <= Bytes(files + [f])
    ensures WithinLimits(KeepBy(FilePath, keep, files + [f]))
  {
    KeepFilesSnoc(keep, files, f);
    BytesSnoc(files, f);
    BytesSnoc(KeepBy(FilePath, keep, files), f);
    assert (files + [f])[|files|] == f;
  }

  lemma {:induction false} KeepFilesFit(keep: string -> bool, files: seq<BundleFile>)
    requires WithinLimits(files)
    ensures |KeepBy(FilePath, keep, files)| <= |files| && Bytes(KeepBy(FilePath, keep, files)) <= Bytes(files)
    ensures WithinLimits(KeepBy(FilePath, keep, files))
  {
    if files != [] {
      var n := |files| - 1;
      assert files == files[..n] + [files[n]];
      KeepFilesFit(keep, files[..n]);
      KeepFilesFitStep(keep, files[..n], files[n]);
    }
  }

  lemma {:induction false} KeepMediaPaths(keep: string -> bool, media: seq<MediaCopy>)
    ensures Copies(KeepBy(CopyPath, keep, media)) == KeepPaths(keep, Copies(media))
  {
    if media != [] {
      var front, last := media[..|media| - 1], media[|media| - 1];
      KeepMediaPaths(keep, front);
      assert Copies(media) == Copies(front) + [last.path];
      KeepPathsSnoc(keep, Copies(front), last.path);
      var k := KeepBy(CopyPath, keep, front);
      assert Copies(k + [last]) == Copies(k) + [last.path];
    }
  }

  lemma {:induction false} KeepConcat(keep: string -> bool, a: seq<string>, b: seq<string>)
    ensures KeepPaths(keep, a + b) == KeepPaths(keep, a) + KeepPaths(keep, b)
    decreases |b|
  {
    if b == [] {
      assert a + b == a;
    } else {
      assert (a + b)[..|a + b| - 1] == a + b[..|b| - 1];
      KeepConcat(keep, a, b[..|b| - 1]);
    }
  }

  lemma {:induction false} KeepAll(keep: string -> bool, paths: seq<string>, kept: bool)
    requires forall i :: 0 <= i < |paths| ==> keep(paths[i]) == kept
    ensures KeepPaths(keep, paths) == if kept then paths else []
  {
    if paths != [] {
      KeepAll(keep, paths[..|paths| - 1], kept);
      assert paths == paths[..|paths| - 1] + [paths[|paths| - 1]];
    }
  }

  /** A path is kept exactly when it belongs to one of the first `m` demos. */
  lemma KeptByIndex(demos: seq<Demo>, sorted: seq<DemoInput>, m: nat, i: nat, x: string)
    requires m <= |demos| && i < |demos| && OwnFiles(demos, sorted, |sorted|) && x in DemoRefs(demos[i])
    ensures Kept(demos[..m], x) == (i < m)
  {
    assert RefersToOwn(demos[i]);
    if i < m {
      assert demos[..m][i] == demos[i];
    } else if Kept(demos[..m], x) {
      var k :| 0 <= k < m && Dir(demos[..m][k].journey) <= x;
      var name := InDir(x, demos[i].journey);
      DirsApart(demos[k].journey, demos[i].journey, "", name);
    }
  }

  ghost predicate KeepsDemo(keep: string -> bool, demos: seq<Demo>, m: nat, i: nat)
    requires m <= |demos| && i < |demos|
  {
    KeepPaths(keep, DemoRefs(demos[i])) == if i < m then DemoRefs(demos[i]) else []
  }

  lemma KeepDemo(keep: string -> bool, demos: seq<Demo>, sorted: seq<DemoInput>, m: nat, i: nat)
    requires m <= |demos| && i < |demos| && OwnFiles(demos, sorted, |sorted|)
    requires forall x :: keep(x) == Kept(demos[..m], x)
    ensures KeepsDemo(keep, demos, m, i)
  {
    var refs := DemoRefs(demos[i]);
    forall k | 0 <= k < |refs| ensures keep(refs[k]) == (i < m) {
      KeptByIndex(demos, sorted, m, i, refs[k]);
    }
    KeepAll(keep, refs, i < m);
  }

  /** The first `n` parts, joined. */
  function Join(parts: seq<seq<string>>, n: nat): seq<string>
    requires n <= |parts|
  {
    if n == 0 then [] else Join(parts, n - 1) + parts[n - 1]
  }

  function Parts(demos: seq<Demo>): seq<seq<string>> {
    seq(|demos|, i requires 0 <= i < |demos| => DemoRefs(demos[i]))
  }

  lemma RefsSnoc(demos: seq<Demo>, n: nat)
    requires n < |demos|
    ensures Refs(demos[..n + 1]) == Refs(demos[..n]) + DemoRefs(demos[n])
  {
    assert demos[..n + 1][..n] == demos[..n];
  }

  lemma {:induction false} JoinIsRefs(demos: seq<Demo>, n: nat)
    requires n <= |demos|
    ensures Join(Parts(demos), n) == Refs(demos[..n])
  {
    if n > 0 {
      JoinIsRefs(demos, n - 1);
      RefsSnoc(demos, n - 1);
    }
  }

  lemma KeepBoth(keep: string -> bool, a: seq<string>, b: seq<string>, ka: seq<string>, kb: seq<string>)
    requires KeepPaths(keep, a) == ka && KeepPaths(keep, b) == kb
    ensures KeepPaths(keep, a + b) == ka + kb
  {
    KeepConcat(keep, a, b);
  }

  lemma {:induction false} KeepWhole(keep: string -> bool, parts: seq<seq<string>>, n: nat)
    requires n <= |parts| && forall i :: 0 <= i < n ==> KeepPaths(keep, parts[i]) == parts[i]
    ensures KeepPaths(keep, Join(parts, n)) == Join(parts, n)
  {
    if n > 0 {
      KeepWhole(keep, parts, n - 1);
      KeepBoth(keep, Join(parts, n - 1), parts[n - 1], Join(parts, n - 1), parts[n - 1]);
    }
  }

  lemma {:induction false} KeepFirst(keep: string -> bool, parts: seq<seq<string>>, m: nat, n: nat)
    requires m <= n <= |parts|
    requires forall i :: 0 <= i < m ==> KeepPaths(keep, parts[i]) == parts[i]
    requires forall i :: m <= i < n ==> KeepPaths(keep, parts[i]) == []
    ensures KeepPaths(keep, Join(parts, n)) == Join(parts, m)
    decreases n
  {
    if n == m {
      KeepWhole(keep, parts, n);
    } else {
      KeepFirst(keep, parts, m, n - 1);
      KeepBoth(keep, Join(parts, n - 1), parts[n - 1], Join(parts, m), []);
    }
  }

  /** The same of a finished bundle. */
  ghost predicate ListsExactly(b: Bundled) {
    && Lockstep(Packed(b.files, b.media, Bytes(b.files)), Refs(b.demos))
    && |b.demos| <= MAX_DEMOS
    && forall i :: 0 <= i < |b.demos| ==> b.demos[i].subtitles.Some? ==> b.demos[i].video.Some?
  }

  lemma KeepJoined(keep: string -> bool, demos: seq<Demo>, m: nat)
    requires m <= |demos| && forall i :: 0 <= i < |demos| ==> KeepsDemo(keep, demos, m, i)
    ensures KeepPaths(keep, Join(Parts(demos), |demos|)) == Join(Parts(demos), m)
  {
    var parts := Parts(demos);
    forall i | 0 <= i < |demos| ensures KeepPaths(keep, parts[i]) == if i < m then parts[i] else [] {
      assert KeepsDemo(keep, demos, m, i);
    }
    KeepFirst(keep, parts, m, |demos|);
  }

  lemma KeepExported(keep: string -> bool, demos: seq<Demo>, sorted: seq<DemoInput>, m: nat)
    requires m <= |demos| && OwnFiles(demos, sorted, |sorted|)
    requires forall x :: keep(x) == Kept(demos[..m], x)
    ensures KeepPaths(keep, Refs(demos)) == Refs(demos[..m])
  {
    forall i | 0 <= i < |demos| ensures KeepsDemo(keep, demos, m, i) {
      KeepDemo(keep, demos, sorted, m, i);
    }
    KeepJoined(keep, demos, m);
    JoinIsRefs(demos, |demos|);
    JoinIsRefs(demos, m);
    assert demos[..|demos|] == demos;
  }

  lemma TruncateLists(p: Packed, demos: seq<Demo>, sorted: seq<DemoInput>)
    requires Lockstep(p, Refs(demos)) && OwnFiles(demos, sorted, |sorted|)
    ensures ListsExactly(Truncate(p, demos))
  {
    if |demos| > MAX_DEMOS {
      var keep := path => Kept(demos[..MAX_DEMOS], path);
      KeepExported(keep, demos, sorted, MAX_DEMOS);
      KeepFilesPaths(keep, p.files);
      KeepFilesFit(keep, p.files);
      KeepMediaPaths(keep, p.media);
    }
  }

  // ---------- sorting keeps the inputs ----------

  function JourneyOf(d: DemoInput): string { d.journey }

  ghost predicate OnePerJourney(ds: seq<DemoInput>) { DistinctBy(JourneyOf, ds) }

  lemma {:induction false} InsertDemoKeeps(d: DemoInput, ds: seq<DemoInput>)
    requires OnePerJourney(ds) && forall x <- ds :: x.journey != d.journey
    ensures forall x :: x in InsertDemo(d, ds) <==> x == d || x in ds
    ensures OnePerJourney(InsertDemo(d, ds))
  {
    if ds != [] && CanonicalJson.KeyLess(ds[0].journey, d.journey) {
      InsertDemoKeeps(d, ds[1..]);
      var rest := InsertDemo(d, ds[1..]);
      forall j | 0 <= j < |rest| ensures rest[j].journey != ds[0].journey {
        assert rest[j] in rest;
      }
      assert ds == [ds[0]] + ds[1..];
    }
  }

  lemma {:induction false} SortDemosKeeps(ds: seq<DemoInput>)
    requires OnePerJourney(ds)
    ensures forall x :: x in SortDemos(ds) <==> x in ds
    ensures OnePerJourney(SortDemos(ds))
  {
    if ds != [] {
      SortDemosKeeps(ds[1..]);
      forall x | x in SortDemos(ds[1..]) ensures x.journey != ds[0].journey {
        var i :| 0 <= i < |ds[1..]| && ds[1..][i] == x;
        assert ds[i + 1] == x;
      }
      InsertDemoKeeps(ds[0], SortDemos(ds[1..]));
      assert ds == [ds[0]] + ds[1..];
    }
  }

  /**
   * The finished bundle lists exactly the files its demos refer to, each copied under the same path,
   * within every limit, also after truncation; no demo has subtitles without a video.
   */
  lemma BundleListsExactly(demos: seq<DemoInput>, byId: map<string, Exported>, textOk: TextRule)
    requires OnePerJourney(demos)
    requires forall d <- demos :: d.video.Some? ==> d.video.value == "demo.webm"
    requires forall id :: id in byId ==> '/' !in id
    ensures ListsExactly(Bundle(demos, byId, textOk))
  {
    var sorted := SortDemos(demos);
    SortDemosKeeps(demos);
    assert forall i :: 0 <= i < |sorted| ==> sorted[i] in demos;
    EveryStateLists(sorted, |sorted|, byId, textOk);
    var (p, out) := PackAll(sorted, |sorted|, byId, textOk);
    TruncateLists(p, out, sorted);
  }

  // ---------- no file is listed twice ----------

  /** A demo's steps name different screenshots. */
  ghost predicate DistinctShots(d: DemoInput) {
    forall i, j :: 0 <= i < j < |d.steps| && d.steps[i].screenshot.Some? ==>
        d.steps[i].screenshot != d.steps[j].screenshot
  }

  /** The screenshots listed for the first `n` steps are named by them. */
  ghost predicate NamedBy(refs: seq<string>, d: DemoInput, n: nat)
    requires n <= |d.steps|
  {
    forall i :: 0 <= i < |refs| ==> HasShot(d, n, refs[i])
  }

  ghost predicate HasShot(d: DemoInput, n: nat, path: string)
    requires n <= |d.steps|
  {
    exists k :: 0 <= k < n && IsShot(d, k, path)
  }

  ghost predicate IsShot(d: DemoInput, k: nat, path: string)
    requires k < |d.steps|
  {
    d.steps[k].screenshot.Some? && path == Path(d.journey, d.steps[k].screenshot.value)
  }

  lemma SamePathSameName(j: string, a: string, b: string)
    ensures Path(j, a) == Path(j, b) <==> a == b
  {
    assert Path(j, a)[|Dir(j)|..] == a && Path(j, b)[|Dir(j)|..] == b;
  }

  lemma DistinctAppend(a: seq<string>, b: seq<string>)
    requires Distinct(a) && Distinct(b) && forall j :: 0 <= j < |b| ==> b[j] !in a
    ensures Distinct(a + b)
  {
    var s := a + b;
    forall i, j | 0 <= i < j < |s| ensures s[i] != s[j] {
      if j < |a| {
        assert a[i] != a[j];
      } else if i < |a| {
        assert s[i] == a[i] && b[j - |a|] !in a;
      } else {
        assert b[i - |a|] != b[j - |a|];
      }
    }
  }

  lemma NamedByMore(refs: seq<string>, d: DemoInput, n: nat)
    requires n < |d.steps| && NamedBy(refs, d, n)
    ensures NamedBy(refs, d, n + 1)
  {
    forall i | 0 <= i < |refs| ensures HasShot(d, n + 1, refs[i]) {
      assert HasShot(d, n, refs[i]);
      var k :| 0 <= k < n && IsShot(d, k, refs[i]);
    }
  }

  lemma ShotIsNew(refs: seq<string>, d: DemoInput, n: nat, path: string)
    requires n < |d.steps| && DistinctShots(d) && NamedBy(refs, d, n) && IsShot(d, n, path)
    ensures path !in refs && NamedBy(refs + [path], d, n + 1)
  {
    NamedByMore(refs, d, n);
    assert HasShot(d, n + 1, path);
    forall i | 0 <= i < |refs| ensures refs[i] != path {
      assert HasShot(d, n, refs[i]);
      var k :| 0 <= k < n && IsShot(d, k, refs[i]);
      SamePathSameName(d.journey, d.steps[k].screenshot.value, d.steps[n].screenshot.value);
    }
  }

  lemma NextListsOnce(refs: seq<string>, d: DemoInput, n: nat, shot: Option<string>)
    requires n < |d.steps| && DistinctShots(d) && Distinct(refs) && NamedBy(refs, d, n)
    requires shot.Some? ==> IsShot(d, n, shot.value)
    ensures Distinct(refs + Listed(shot)) && NamedBy(refs + Listed(shot), d, n + 1)
  {
    if shot.Some? {
      ShotIsNew(refs, d, n, shot.value);
      DistinctAppend(refs, [shot.value]);
    } else {
      NamedByMore(refs, d, n);
      assert refs + [] == refs;
    }
  }

  lemma {:induction false} StepsListOnce(p: Packed, d: DemoInput, n: nat, textOk: TextRule)
    requires n <= |d.steps| && DistinctShots(d)
    ensures var refs := StepRefs(PackSteps(p, d, n, textOk).1);
            Distinct(refs) && NamedBy(refs, d, n)
  {
    if n > 0 {
      StepsListOnce(p, d, n - 1, textOk);
      var (q, steps) := PackSteps(p, d, n - 1, textOk);
      var (z, step) := PackStep(q, d, d.steps[n - 1], textOk);
      var refs, shot := StepRefs(steps), step.screenshot;
      StepRefsSnoc(steps, step, []);
      NextListsOnce(refs, d, n - 1, shot);
      assert PackSteps(p, d, n, textOk).1 == steps + [step];
    }
  }

  lemma ClipsApart(j: string, shots: seq<string>)
    requires forall x <- shots :: ShotOf(j, x)
    ensures Path(j, "demo.vtt") !in shots && Path(j, "demo.webm") != Path(j, "demo.vtt")
  {
    SamePathSameName(j, "demo.webm", "demo.vtt");
    forall x | x in shots ensures x != Path(j, "demo.vtt") {
      var name :| x == Path(j, name) && ShotName(name);
      assert |x| > |Path(j, "demo.vtt")|;
    }
  }

  /** The clip names every record uses. */
  predicate RecordNames(d: DemoInput) {
    (d.video.Some? ==> d.video.value == "demo.webm") && (d.subtitles.Some? ==> d.subtitles.value == "demo.vtt")
  }

  lemma DemoListsOnce(p: Packed, refs: seq<string>, d: DemoInput, textOk: TextRule)
    requires DistinctShots(d) && RecordNames(d) && Lockstep(p, refs) && Path(d.journey, "demo.webm") !in refs
    ensures Distinct(DemoRefs(PackDemo(p, d, textOk).1))
  {
    var (q, steps) := PackSteps(p, d, |d.steps|, textOk);
    var shots := StepRefs(steps);
    StepsListOnce(p, d, |d.steps|, textOk);
    StepsList(p, refs, d, |d.steps|, textOk);
    ShotsAreOwn(d.journey, shots);
    ClipsApart(d.journey, shots);
    ClipsList(q, refs + shots, d);
    var c := PackClips(q, d);
    DistinctAppend(shots, Listed(c.video));
    DistinctAppend(shots + Listed(c.video), Listed(c.subtitles));
  }

  lemma DemosApart(demos: seq<Demo>, demo: Demo)
    requires RefersToOwn(demo) && '/' !in demo.journey
    requires forall i :: 0 <= i < |demos| ==>
          RefersToOwn(demos[i]) && '/' !in demos[i].journey && demos[i].journey != demo.journey
    ensures forall j :: 0 <= j < |DemoRefs(demo)| ==> DemoRefs(demo)[j] !in Refs(demos)
  {
    forall j | 0 <= j < |DemoRefs(demo)| ensures DemoRefs(demo)[j] !in Refs(demos) {
      assert DemoRefs(demo)[j] in DemoRefs(demo);
      var name := InDir(DemoRefs(demo)[j], demo.journey);
      OtherDir(demos, demo.journey, name);
    }
  }

  lemma NextListedOnce(p: Packed, demos: seq<Demo>, sorted: seq<DemoInput>, n: nat, textOk: TextRule)
    requires n < |sorted| && OwnFiles(demos, sorted, n) && Lockstep(p, Refs(demos)) && Distinct(Refs(demos))
    requires '/' !in sorted[n].journey && forall k :: 0 <= k < n ==> sorted[k].journey != sorted[n].journey
    requires DistinctShots(sorted[n]) && RecordNames(sorted[n])
    ensures Distinct(Refs(demos + [PackDemo(p, sorted[n], textOk).1]))
  {
    var d := sorted[n];
    var demo := PackDemo(p, d, textOk).1;
    NotYetListed(demos, sorted, n, "demo.webm");
    DemoLists(p, Refs(demos), d, textOk);
    DemoListsOnce(p, Refs(demos), d, textOk);
    OwnFilesExtend(demos, demo, sorted, n);
    assert forall i :: 0 <= i < |demos| ==> (demos + [demo])[i] == demos[i];
    DemosApart(demos, demo);
    DistinctAppend(Refs(demos), DemoRefs(demo));
  }

  ghost predicate AllNamedApart(sorted: seq<DemoInput>) {
    forall i :: 0 <= i < |sorted| ==> DistinctShots(sorted[i]) && RecordNames(sorted[i])
  }

  lemma OnceStep(sorted: seq<DemoInput>, n: nat, byId: map<string, Exported>, textOk: TextRule,
      state: (Packed, seq<Demo>))
    requires n < |sorted| && Expected(sorted, byId) && AllNamedApart(sorted)
    requires Sound(state, sorted, n) && Distinct(Refs(state.1))
    ensures Distinct(Refs(PackNext(state, sorted[n], byId, textOk).1))
  {
    if Exports(sorted[n], byId, textOk) {
      NextListedOnce(state.0, state.1, sorted, n, textOk);
    }
  }

  /** When every demo's screenshots have names of their own, no file is listed twice. */
  lemma ListedOnce(sorted: seq<DemoInput>, n: nat, byId: map<string, Exported>, textOk: TextRule)
    requires n <= |sorted| && Expected(sorted, byId) && AllNamedApart(sorted)
    ensures Distinct(Refs(PackAll(sorted, n, byId, textOk).1))
  {
    var inv: Invariant := (s, k) => 0 <= k <= |sorted| && Sound(s, sorted, k) && Distinct(Refs(s.1));
    NothingListed(sorted);
    forall s, k | 0 <= k < |sorted| && inv(s, k) ensures inv(PackNext(s, sorted[k], byId, textOk), k + 1) {
      StateStep(sorted, k, byId, textOk, s);
      OnceStep(sorted, k, byId, textOk, s);
    }
    PackAllKeeps(inv, sorted, n, byId, textOk);
  }
}
