/**
 * `bundleDemos` (catalog-bundle.ts): which demos a bundle exports, and the packing of their media
 * under a per-file, a count and a total limit. `textOk` is the contract's rule for producer text.
 */
module MediaPacker {
  import opened Wrappers
  import opened Json
  import CanonicalJson

  // ---------- what goes in ----------

  datatype MediaFile = MediaFile(source: string, sha256: string, bytes: nat)

  datatype StepInput = StepInput(number: int, caption: string, expected: Option<string>, screenshot: Option<string>)

  /** The attestation a demo carries: the mask, the kind of data, how it was masked, and how many regions. */
  datatype Privacy = Privacy(mask: string, data: string, means: string, regions: nat)

  datatype DemoInput = DemoInput(
    journey: string, renderedFrom: string, title: Option<string>, steps: seq<StepInput>,
    video: Option<string>, subtitles: Option<string>, privacy: Privacy, media: map<string, MediaFile>)

  /** An exported Journey: its approved content hash, if any, and whether it changed since. */
  datatype Exported = Exported(approved: Option<string>, changedSinceApproval: bool)

  type TextRule = (string, nat) -> bool

  // ---------- what comes out ----------

  datatype FileType = Png | Webm | Vtt

  datatype BundleFile = BundleFile(path: string, sha256: string, bytes: nat, ftype: FileType)
  datatype MediaCopy = MediaCopy(path: string, source: string)
  datatype DemoStep = DemoStep(number: int, caption: string, expected: Option<string>, screenshot: Option<string>)
  datatype Demo = Demo(
    journey: string, renderedFrom: string, title: Option<string>, steps: seq<DemoStep>,
    video: Option<string>, subtitles: Option<string>, privacy: Privacy)

  const SCREENSHOT_BYTES := 2 * 1024 * 1024
  const VIDEO_BYTES := 50 * 1024 * 1024
  const SUBTITLES_BYTES := 256 * 1024
  const TOTAL_BYTES := 512 * 1024 * 1024
  const MAX_FILES := 4000
  const DEMO_STEPS := 200
  const MAX_DEMOS := 1000

  function LimitOf(t: FileType): nat {
    match t
    case Png => SCREENSHOT_BYTES
    case Webm => VIDEO_BYTES
    case Vtt => SUBTITLES_BYTES
  }

  // ---------- packing, as functions of the packed state ----------

  datatype Packed = Packed(files: seq<BundleFile>, media: seq<MediaCopy>, total: int)

  const NOTHING := Packed([], [], 0)

  function Dir(journey: string): string { "media/" + journey + "/" }

  function Path(journey: string, name: string): string { Dir(journey) + name }

  /** The inner `take`: the file's path in the bundle, when it is there and fits. */
  function TakeFile(p: Packed, d: DemoInput, name: Option<string>, t: FileType): (Packed, Option<string>) {
    if name.None? || name.value !in d.media then (p, None)
    else
      var f := d.media[name.value];
      if f.bytes > LimitOf(t) || |p.files| + 1 > MAX_FILES || p.total + f.bytes > TOTAL_BYTES then (p, None)
      else
        var path := Path(d.journey, name.value);
        var file := BundleFile(path, f.sha256, f.bytes, t);
        (Packed(p.files + [file], p.media + [MediaCopy(path, f.source)], p.total + f.bytes), Some(path))
  }

  /** `step-NN.png` or `step-NNN.png`. */
  predicate ShotName(name: string) {
    var n := |name|;
    (n == 11 || n == 12) && name[..5] == "step-" && name[n - 4..] == ".png"
    && forall i :: 5 <= i < n - 4 ==> '0' <= name[i] <= '9'
  }

  function PackStep(p: Packed, d: DemoInput, s: StepInput, textOk: TextRule): (Packed, DemoStep) {
    var expected := if s.expected.Some? && textOk(s.expected.value, 500) then s.expected else None;
    var (q, shot) := if s.screenshot.Some? && ShotName(s.screenshot.value) then TakeFile(p, d, s.screenshot, Png)
        else (p, None);
    (q, DemoStep(s.number, s.caption, expected, shot))
  }

  /** The first `n` steps of a demo. */
  function PackSteps(p: Packed, d: DemoInput, n: nat, textOk: TextRule): (r: (Packed, seq<DemoStep>))
    requires n <= |d.steps|
    ensures |r.1| == n
  {
    if n == 0 then (p, [])
    else
      var (q, steps) := PackSteps(p, d, n - 1, textOk);
      var (z, step) := PackStep(q, d, d.steps[n - 1], textOk);
      (z, steps + [step])
  }

  function FilePath(f: BundleFile): string { f.path }

  function CopyPath(m: MediaCopy): string { m.path }

  /** The first element of that path, or the length. */
  function IndexBy<T>(pathOf: T -> string, xs: seq<T>, path: string): (i: nat)
    ensures i <= |xs| && (i < |xs| ==> pathOf(xs[i]) == path)
  {
    if xs == [] || pathOf(xs[0]) == path then 0 else 1 + IndexBy(pathOf, xs[1..], path)
  }

  function Without<T>(s: seq<T>, i: nat): seq<T>
    requires i < |s|
  {
    s[..i] + s[i + 1..]
  }

  predicate Holds(p: Packed, path: string) {
    IndexBy(FilePath, p.files, path) < |p.files| && IndexBy(CopyPath, p.media, path) < |p.media|
  }

  /** Splices a taken file out again. */
  function Untake(p: Packed, path: string): Packed
    requires Holds(p, path)
  {
    var at := IndexBy(FilePath, p.files, path);
    Packed(Without(p.files, at), Without(p.media, IndexBy(CopyPath, p.media, path)), p.total - p.files[at].bytes)
  }

  lemma {:induction false} TakenIsHeld(p: Packed, d: DemoInput, name: Option<string>, t: FileType)
    requires TakeFile(p, d, name, t).1.Some?
    ensures Holds(TakeFile(p, d, name, t).0, TakeFile(p, d, name, t).1.value)
  {
    IndexFound(FilePath, p.files, TakeFile(p, d, name, t).0.files[|p.files|]);
    IndexFound(CopyPath, p.media, TakeFile(p, d, name, t).0.media[|p.media|]);
  }

  lemma {:induction false} IndexFound<T>(pathOf: T -> string, xs: seq<T>, x: T)
    ensures IndexBy(pathOf, xs + [x], pathOf(x)) <= |xs|
    ensures (forall i :: 0 <= i < |xs| ==> pathOf(xs[i]) != pathOf(x)) ==> IndexBy(pathOf, xs + [x], pathOf(x)) == |xs|
  {
    if xs != [] {
      assert (xs + [x])[1..] == xs[1..] + [x];
      IndexFound(pathOf, xs[1..], x);
    }
  }

  datatype Clips = Clips(packed: Packed, video: Option<string>, subtitles: Option<string>)

  function Lookup(d: DemoInput, name: Option<string>): Option<MediaFile> {
    if name.Some? && name.value in d.media then Some(d.media[name.value]) else None
  }

  /** The video and its subtitles: both or neither. */
  function PackClips(p: Packed, d: DemoInput): Clips {
    var v, t := Lookup(d, d.video), Lookup(d, d.subtitles);
    if v.None? || (d.subtitles.Some? && t.None?) || (t.Some? && t.value.bytes > SUBTITLES_BYTES)
        then Clips(p, None, None)
    else
      var (q, video) := TakeFile(p, d, d.video, Webm);
      if video.None? || t.None? then Clips(q, video, None)
      else
        var (z, subtitles) := TakeFile(q, d, d.subtitles, Vtt);
        if subtitles.Some? then Clips(z, video, subtitles)
        else
          TakenIsHeld(p, d, d.video, Webm);
          Clips(Untake(z, video.value), None, None)
  }

  function TitleOf(d: DemoInput, textOk: TextRule): Option<string> {
    if d.title.Some? && textOk(d.title.value, 200) && !("DRAFT" <= d.title.value) then d.title else None
  }

  function PackDemo(p: Packed, d: DemoInput, textOk: TextRule): (Packed, Demo) {
    var (q, steps) := PackSteps(p, d, |d.steps|, textOk);
    var clips := PackClips(q, d);
    (clips.packed, Demo(d.journey, d.renderedFrom, TitleOf(d, textOk), steps, clips.video, clips.subtitles, d.privacy))
  }

  /** A demo is exported when its Journey is, as the approved version it was rendered from, with sound captions. */
  predicate Exports(d: DemoInput, byId: map<string, Exported>, textOk: TextRule) {
    && d.journey in byId
    && byId[d.journey].approved == Some(d.renderedFrom)
    && !byId[d.journey].changedSinceApproval
    && 1 <= |d.steps| <= DEMO_STEPS
    && forall i :: 0 <= i < |d.steps| ==> textOk(d.steps[i].caption, 200)
  }

  function PackNext(state: (Packed, seq<Demo>), d: DemoInput, byId: map<string, Exported>,
      textOk: TextRule): (Packed, seq<Demo>) {
    if !Exports(d, byId, textOk) then state
    else
      var (q, demo) := PackDemo(state.0, d, textOk);
      (q, state.1 + [demo])
  }

  /** The first `n` of the sorted demos. */
  function PackAll(sorted: seq<DemoInput>, n: nat, byId: map<string, Exported>, textOk: TextRule): (Packed, seq<Demo>)
    requires n <= |sorted|
  {
    if n == 0 then (NOTHING, []) else PackNext(PackAll(sorted, n - 1, byId, textOk), sorted[n - 1], byId, textOk)
  }

  predicate Kept(demos: seq<Demo>, path: string) {
    exists i :: 0 <= i < |demos| && Dir(demos[i].journey) <= path
  }

  function KeepBy<T>(pathOf: T -> string, keep: string -> bool, xs: seq<T>): seq<T> {
    if xs == [] then []
    else
      var front, last := KeepBy(pathOf, keep, xs[..|xs| - 1]), xs[|xs| - 1];
      if keep(pathOf(last)) then front + [last] else front
  }

  datatype Bundled = Bundled(demos: seq<Demo>, files: seq<BundleFile>, media: seq<MediaCopy>)

  /** The final truncation to the demo limit. */
  function Truncate(p: Packed, demos: seq<Demo>): Bundled {
    if |demos| <= MAX_DEMOS then Bundled(demos, p.files, p.media)
    else
      var kept := demos[..MAX_DEMOS];
      var keep := path => Kept(kept, path);
      Bundled(kept, KeepBy(FilePath, keep, p.files), KeepBy(CopyPath, keep, p.media))
  }

  function InsertDemo(d: DemoInput, ds: seq<DemoInput>): seq<DemoInput> {
    if ds == [] || !CanonicalJson.KeyLess(ds[0].journey, d.journey) then [d] + ds else [ds[0]] + InsertDemo(d, ds[1..])
  }

  function SortDemos(ds: seq<DemoInput>): seq<DemoInput> {
    if ds == [] then [] else InsertDemo(ds[0], SortDemos(ds[1..]))
  }

  // ---------- the packer ----------

  class Packer {
    var files: seq<BundleFile>
    var media: seq<MediaCopy>
    var total: int

    ghost function State(): Packed
      reads this
    {
      Packed(files, media, total)
    }

    constructor ()
      ensures State() == NOTHING
    {
      files, media, total := [], [], 0;
    }

    method Take(d: DemoInput, name: Option<string>, t: FileType) returns (path: Option<string>)
      modifies this
      ensures (State(), path) == TakeFile(old(State()), d, name, t)
    {
      if name.None? || name.value !in d.media { return None; }
      var f := d.media[name.value];
      if f.bytes > LimitOf(t) { return None; }
      if |files| + 1 > MAX_FILES || total + f.bytes > TOTAL_BYTES { return None; }
      var at := Path(d.journey, name.value);
      files := files + [BundleFile(at, f.sha256, f.bytes, t)];
      media := media + [MediaCopy(at, f.source)];
      total := total + f.bytes;
      return Some(at);
    }

    /** The video, then its subtitles; a subtitles file that does not fit takes the video out again. */
    method TakeClips(d: DemoInput) returns (video: Option<string>, subtitles: Option<string>)
      modifies this
      ensures Clips(State(), video, subtitles) == PackClips(old(State()), d)
    {
      video, subtitles := None, None;
      var v, t := Lookup(d, d.video), Lookup(d, d.subtitles);
      if v.None? || (d.subtitles.Some? && t.None?) || (t.Some? && t.value.bytes > SUBTITLES_BYTES) { return; }
      ghost var before := State();
      video := Take(d, d.video, Webm);
      if video.None? || t.None? { return; }
      TakenIsHeld(before, d, d.video, Webm);
      subtitles := Take(d, d.subtitles, Vtt);
      if subtitles.None? {
        var at := IndexBy(FilePath, files, video.value);
        total := total - files[at].bytes;
        files := Without(files, at);
        media := Without(media, IndexBy(CopyPath, media, video.value));
        video := None;
      }
    }

    method TakeSteps(d: DemoInput, textOk: TextRule) returns (steps: seq<DemoStep>)
      modifies this
      ensures (State(), steps) == PackSteps(old(State()), d, |d.steps|, textOk)
    {
      steps := [];
      for i := 0 to |d.steps|
        invariant (State(), steps) == PackSteps(old(State()), d, i, textOk)
      {
        var s := d.steps[i];
        var expected := if s.expected.Some? && textOk(s.expected.value, 500) then s.expected else None;
        var shot: Option<string> := None;
        if s.screenshot.Some? && ShotName(s.screenshot.value) {
          shot := Take(d, s.screenshot, Png);
        }
        steps := steps + [DemoStep(s.number, s.caption, expected, shot)];
      }
    }

    /** The loop over the sorted demos, from an empty packer. */
    method BundleDemos(demos: seq<DemoInput>, byId: map<string, Exported>, textOk: TextRule) returns (r: Bundled)
      requires State() == NOTHING
      modifies this
      ensures r == Bundle(demos, byId, textOk)
    {
      var sorted := SortDemos(demos);
      var out: seq<Demo> := [];
      for i := 0 to |sorted|
        invariant (State(), out) == PackAll(sorted, i, byId, textOk)
      {
        var d := sorted[i];
        if !Exports(d, byId, textOk) { continue; }
        var steps := TakeSteps(d, textOk);
        var video, subtitles := TakeClips(d);
        out := out + [Demo(d.journey, d.renderedFrom, TitleOf(d, textOk), steps, video, subtitles, d.privacy)];
      }
      r := Truncate(Packed(files, media, total), out);
    }
  }

  function Bundle(demos: seq<DemoInput>, byId: map<string, Exported>, textOk: TextRule): Bundled {
    var sorted := SortDemos(demos);
    var (p, out) := PackAll(sorted, |sorted|, byId, textOk);
    Truncate(p, out)
  }
}
