/** What the packer leaves out: nothing that is verified and within its own limit, while the bundle has room. */
module MediaPackerRoom {
  import opened Wrappers
  import opened MediaPacker
  import opened MediaPackerProofs

  /** The files a demo asks for: verified, properly named, and within their own limit. */
  function WantedStep(d: DemoInput, s: StepInput): seq<string> {
    if s.screenshot.Some? && ShotName(s.screenshot.value) && Fits(d, s.screenshot, SCREENSHOT_BYTES)
        then [s.screenshot.value] else []
  }

  predicate Fits(d: DemoInput, name: Option<string>, limit: nat) {
    name.Some? && name.value in d.media && d.media[name.value].bytes <= limit
  }

  function WantedSteps(d: DemoInput, n: nat): seq<string>
    requires n <= |d.steps|
  {
    if n == 0 then [] else WantedSteps(d, n - 1) + WantedStep(d, d.steps[n - 1])
  }

  /** A video that fits, and the subtitles it declares, which must fit too. */
  function WantedClips(d: DemoInput): seq<string> {
    if !Fits(d, d.video, VIDEO_BYTES) then []
    else if d.subtitles.None? then [d.video.value]
    else if Fits(d, d.subtitles, SUBTITLES_BYTES) then [d.video.value, d.subtitles.value]
    else []
  }

  function SizeOf(d: DemoInput, names: seq<string>): nat
    requires forall i :: 0 <= i < |names| ==> names[i] in d.media
  {
    if names == [] then 0 else SizeOf(d, names[..|names| - 1]) + d.media[names[|names| - 1]].bytes
  }

  function PathsOf(d: DemoInput, names: seq<string>): seq<string> {
    seq(|names|, i requires 0 <= i < |names| => Path(d.journey, names[i]))
  }

  ghost predicate Held(d: DemoInput, names: seq<string>) { forall i :: 0 <= i < |names| ==> names[i] in d.media }

  lemma {:induction false} WantedHeld(d: DemoInput, n: nat)
    requires n <= |d.steps|
    ensures Held(d, WantedSteps(d, n))
  {
    if n > 0 { WantedHeld(d, n - 1); }
  }

  lemma SizeSnoc(d: DemoInput, names: seq<string>, x: string)
    requires Held(d, names) && x in d.media
    ensures SizeOf(d, names + [x]) == SizeOf(d, names) + d.media[x].bytes
  {
    assert (names + [x])[..|names|] == names;
  }

  /** `q` is `p` with `count` files of `bytes` bytes more. */
  predicate Grown(p: Packed, q: Packed, count: nat, bytes: nat) {
    |q.files| == |p.files| + count && q.total == p.total + bytes
  }

  predicate Room(p: Packed, count: nat, bytes: nat) {
    |p.files| + count <= MAX_FILES && p.total + bytes <= TOTAL_BYTES
  }

  /** A wanted file is taken when there is room for it. */
  lemma TakenWithRoom(p: Packed, d: DemoInput, name: Option<string>, t: FileType)
    requires Fits(d, name, LimitOf(t)) && Room(p, 1, d.media[name.value].bytes)
    ensures var (q, path) := TakeFile(p, d, name, t);
            path == Some(Path(d.journey, name.value)) && Grown(p, q, 1, d.media[name.value].bytes)
  {
  }

  function StepBytes(d: DemoInput, s: StepInput): nat {
    if WantedStep(d, s) == [] then 0 else d.media[s.screenshot.value].bytes
  }

  lemma StepWithRoom(q: Packed, d: DemoInput, s: StepInput, textOk: TextRule)
    requires Room(q, |WantedStep(d, s)|, StepBytes(d, s))
    ensures var (z, step) := PackStep(q, d, s, textOk);
            Listed(step.screenshot) == PathsOf(d, WantedStep(d, s)) && Grown(q, z, |WantedStep(d, s)|, StepBytes(d, s))
  {
    if WantedStep(d, s) != [] { TakenWithRoom(q, d, s.screenshot, Png); }
  }

  lemma AppendWanted(d: DemoInput, names: seq<string>, s: StepInput)
    requires Held(d, names)
    ensures Held(d, names + WantedStep(d, s))
    ensures SizeOf(d, names + WantedStep(d, s)) == SizeOf(d, names) + StepBytes(d, s)
    ensures PathsOf(d, names + WantedStep(d, s)) == PathsOf(d, names) + PathsOf(d, WantedStep(d, s))
  {
    if WantedStep(d, s) == [] {
      assert names + [] == names;
    } else {
      SizeSnoc(d, names, s.screenshot.value);
    }
  }

  lemma OneMoreWanted(d: DemoInput, n: nat)
    requires 0 < n <= |d.steps|
    ensures Held(d, WantedSteps(d, n)) && Held(d, WantedSteps(d, n - 1))
    ensures |WantedSteps(d, n)| == |WantedSteps(d, n - 1)| + |WantedStep(d, d.steps[n - 1])|
    ensures SizeOf(d, WantedSteps(d, n)) == SizeOf(d, WantedSteps(d, n - 1)) + StepBytes(d, d.steps[n - 1])
    ensures PathsOf(d, WantedSteps(d, n)) == PathsOf(d, WantedSteps(d, n - 1))
          + PathsOf(d, WantedStep(d, d.steps[n - 1]))
  {
    WantedHeld(d, n - 1);
    AppendWanted(d, WantedSteps(d, n - 1), d.steps[n - 1]);
  }

  /** If the first `n` steps have room, all they want is taken. */
  ghost predicate StepsMeet(p: Packed, d: DemoInput, n: int, out: (Packed, seq<DemoStep>)) {
    && 0 <= n <= |d.steps| && Held(d, WantedSteps(d, n))
    && (Room(p, |WantedSteps(d, n)|, SizeOf(d, WantedSteps(d, n))) ==>
          StepRefs(out.1) == PathsOf(d, WantedSteps(d, n))
              && Grown(p, out.0, |WantedSteps(d, n)|, SizeOf(d, WantedSteps(d, n))))
  }

  function NextStep(out: (Packed, seq<DemoStep>), d: DemoInput, s: StepInput,
      textOk: TextRule): (Packed, seq<DemoStep>) {
    var (z, step) := PackStep(out.0, d, s, textOk);
    (z, out.1 + [step])
  }

  lemma {:induction false} StepsKeep(inv: ((Packed, seq<DemoStep>), int) -> bool, p: Packed, d: DemoInput, n: nat,
      textOk: TextRule)
    requires n <= |d.steps| && inv((p, []), 0)
    requires forall out, k :: 0 <= k < |d.steps| && inv(out, k) ==> inv(NextStep(out, d, d.steps[k], textOk), k + 1)
    ensures inv(PackSteps(p, d, n, textOk), n)
  {
    if n > 0 {
      StepsKeep(inv, p, d, n - 1, textOk);
      assert PackSteps(p, d, n, textOk) == NextStep(PackSteps(p, d, n - 1, textOk), d, d.steps[n - 1], textOk);
    }
  }

  lemma NextStepMeets(p: Packed, d: DemoInput, n: nat, textOk: TextRule, out: (Packed, seq<DemoStep>))
    requires n < |d.steps| && StepsMeet(p, d, n, out)
    ensures StepsMeet(p, d, n + 1, NextStep(out, d, d.steps[n], textOk))
  {
    OneMoreWanted(d, n + 1);
    if Room(p, |WantedSteps(d, n + 1)|, SizeOf(d, WantedSteps(d, n + 1))) {
      StepWithRoom(out.0, d, d.steps[n], textOk);
      StepRefsSnoc(out.1, PackStep(out.0, d, d.steps[n], textOk).1, []);
    }
  }

  lemma StepsWithRoom(p: Packed, d: DemoInput, n: nat, textOk: TextRule)
    requires n <= |d.steps|
    ensures StepsMeet(p, d, n, PackSteps(p, d, n, textOk))
  {
    var inv := (out: (Packed, seq<DemoStep>), k: int) => StepsMeet(p, d, k, out);
    assert PathsOf(d, []) == [] && WantedSteps(d, 0) == [];
    forall out, k | 0 <= k < |d.steps| && inv(out, k) ensures inv(NextStep(out, d, d.steps[k], textOk), k + 1) {
      NextStepMeets(p, d, k, textOk, out);
    }
    StepsKeep(inv, p, d, n, textOk);
  }

  ghost predicate ClipsTaken(p: Packed, d: DemoInput, c: Clips, names: seq<string>, bytes: nat) {
    Listed(c.video) + Listed(c.subtitles) == PathsOf(d, names) && Grown(p, c.packed, |names|, bytes)
  }

  lemma VideoWithRoom(p: Packed, d: DemoInput)
    requires Fits(d, d.video, VIDEO_BYTES) && d.subtitles.None? && Room(p, 1, d.media[d.video.value].bytes)
    ensures ClipsTaken(p, d, PackClips(p, d), [d.video.value], d.media[d.video.value].bytes)
  {
    TakenWithRoom(p, d, d.video, Webm);
  }

  lemma BothWithRoom(p: Packed, d: DemoInput, bytes: nat)
    requires Fits(d, d.video, VIDEO_BYTES) && Fits(d, d.subtitles, SUBTITLES_BYTES)
    requires bytes == d.media[d.video.value].bytes + d.media[d.subtitles.value].bytes && Room(p, 2, bytes)
    ensures ClipsTaken(p, d, PackClips(p, d), [d.video.value, d.subtitles.value], bytes)
  {
    TakenWithRoom(p, d, d.video, Webm);
    TakenWithRoom(TakeFile(p, d, d.video, Webm).0, d, d.subtitles, Vtt);
  }

  lemma NoClips(p: Packed, d: DemoInput)
    requires WantedClips(d) == []
    ensures PackClips(p, d) == Clips(p, None, None)
  {
  }

  lemma SizeOfOne(d: DemoInput, a: string)
    requires a in d.media
    ensures SizeOf(d, [a]) == d.media[a].bytes
  {
    SizeSnoc(d, [], a);
    assert [] + [a] == [a];
  }

  lemma SizeOfTwo(d: DemoInput, a: string, b: string)
    requires a in d.media && b in d.media
    ensures SizeOf(d, [a, b]) == d.media[a].bytes + d.media[b].bytes
  {
    SizeOfOne(d, a);
    SizeSnoc(d, [a], b);
    assert [a] + [b] == [a, b];
  }

  lemma ClipsWithRoom(p: Packed, d: DemoInput)
    requires Held(d, WantedClips(d)) && Room(p, |WantedClips(d)|, SizeOf(d, WantedClips(d)))
    ensures ClipsTaken(p, d, PackClips(p, d), WantedClips(d), SizeOf(d, WantedClips(d)))
  {
    if WantedClips(d) == [] {
      NoClips(p, d);
    } else if d.subtitles.None? {
      SizeOfOne(d, d.video.value);
      VideoWithRoom(p, d);
    } else {
      SizeOfTwo(d, d.video.value, d.subtitles.value);
      BothWithRoom(p, d, SizeOf(d, WantedClips(d)));
    }
  }

  lemma ClipsHeld(d: DemoInput)
    ensures Held(d, WantedClips(d))
  {
  }

  function WantedCount(d: DemoInput): nat { |WantedSteps(d, |d.steps|)| + |WantedClips(d)| }

  ghost function WantedBytes(d: DemoInput): nat {
    WantedHeld(d, |d.steps|);
    SizeOf(d, WantedSteps(d, |d.steps|)) + SizeOf(d, WantedClips(d))
  }

  function WantedPaths(d: DemoInput): seq<string> { PathsOf(d, WantedSteps(d, |d.steps|)) + PathsOf(d, WantedClips(d)) }

  lemma DemoWithRoom(p: Packed, d: DemoInput, textOk: TextRule)
    requires Room(p, WantedCount(d), WantedBytes(d))
    ensures var (q, demo) := PackDemo(p, d, textOk);
            DemoRefs(demo) == WantedPaths(d) && Grown(p, q, WantedCount(d), WantedBytes(d))
  {
    WantedHeld(d, |d.steps|);
    ClipsHeld(d);
    StepsWithRoom(p, d, |d.steps|, textOk);
    var (q, steps) := PackSteps(p, d, |d.steps|, textOk);
    ClipsWithRoom(q, d);
    var c := PackClips(q, d);
    assert StepRefs(steps) + Listed(c.video) + Listed(c.subtitles) == StepRefs(steps)
        + (Listed(c.video) + Listed(c.subtitles));
  }

  datatype Demand = Demand(count: nat, bytes: nat, paths: seq<string>)

  /** What the exportable ones of the first `n` demos ask for, in order. */
  ghost function DemandOf(sorted: seq<DemoInput>, n: nat, byId: map<string, Exported>, textOk: TextRule): Demand
    requires n <= |sorted|
  {
    if n == 0 then Demand(0, 0, [])
    else
      var (x, d) := (DemandOf(sorted, n - 1, byId, textOk), sorted[n - 1]);
      if Exports(d, byId, textOk)
          then Demand(x.count + WantedCount(d), x.bytes + WantedBytes(d), x.paths + WantedPaths(d)) else x
  }

  /** While the demand fits the bundle, it is exactly what is packed. */
  ghost predicate Meets(s: (Packed, seq<Demo>), x: Demand) {
    Room(NOTHING, x.count, x.bytes) ==> Grown(NOTHING, s.0, x.count, x.bytes) && Refs(s.1) == x.paths
  }

  lemma MeetsNext(s: (Packed, seq<Demo>), x: Demand, d: DemoInput, byId: map<string, Exported>, textOk: TextRule)
    requires Meets(s, x) && Exports(d, byId, textOk)
    ensures Meets(PackNext(s, d, byId, textOk),
          Demand(x.count + WantedCount(d), x.bytes + WantedBytes(d), x.paths + WantedPaths(d)))
  {
    if Room(NOTHING, x.count + WantedCount(d), x.bytes + WantedBytes(d)) {
      DemoWithRoom(s.0, d, textOk);
      var demo := PackDemo(s.0, d, textOk).1;
      assert (s.1 + [demo])[..|s.1|] == s.1;
    }
  }

  lemma MeetsStep(sorted: seq<DemoInput>, n: nat, byId: map<string, Exported>, textOk: TextRule, s: (Packed, seq<Demo>))
    requires n < |sorted| && Meets(s, DemandOf(sorted, n, byId, textOk))
    ensures Meets(PackNext(s, sorted[n], byId, textOk), DemandOf(sorted, n + 1, byId, textOk))
  {
    if Exports(sorted[n], byId, textOk) { MeetsNext(s, DemandOf(sorted, n, byId, textOk), sorted[n], byId, textOk); }
  }

  lemma MeetsNothing()
    ensures Meets((NOTHING, []), Demand(0, 0, []))
  {
    assert Refs([]) == [];
  }

  /** When everything asked for fits the bundle, everything asked for is exported, in order. */
  lemma NothingNeedlesslyLeftOut(sorted: seq<DemoInput>, n: nat, byId: map<string, Exported>, textOk: TextRule)
    requires n <= |sorted|
    ensures var x := DemandOf(sorted, n, byId, textOk);
            x.count <= MAX_FILES && x.bytes <= TOTAL_BYTES ==> Refs(PackAll(sorted, n, byId, textOk).1) == x.paths
  {
    var inv: Invariant := (s: (Packed, seq<Demo>), k: int) => 0 <= k <= |sorted|
        && Meets(s, DemandOf(sorted, k, byId, textOk));
    MeetsNothing();
    assert DemandOf(sorted, 0, byId, textOk) == Demand(0, 0, []);
    forall s, k | 0 <= k < |sorted| && inv(s, k) ensures inv(PackNext(s, sorted[k], byId, textOk), k + 1) {
      MeetsStep(sorted, k, byId, textOk, s);
    }
    PackAllKeeps(inv, sorted, n, byId, textOk);
  }
}
