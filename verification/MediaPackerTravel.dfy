/** Which demos a bundle exports. */
module MediaPackerTravel {
  import opened Wrappers
  import CanonicalJson
  import opened MediaPacker
  import opened MediaPackerProofs
  import opened MediaPackerContents

  /**
   * A demo may travel: its Journey is exported, approved as the version the demo was rendered from and unchanged
   * since, and the demo has 1 to 200 steps, each with a caption the text rule takes.
   */
  ghost predicate MayTravel(d: DemoInput, byId: map<string, Exported>, textOk: TextRule) {
    && d.journey in byId
    && byId[d.journey] == Exported(Some(d.renderedFrom), false)
    && 0 < |d.steps| < 201
    && forall s <- d.steps :: textOk(s.caption, 200)
  }

  lemma TravelMeans(d: DemoInput, byId: map<string, Exported>, textOk: TextRule)
    ensures Exports(d, byId, textOk) <==> MayTravel(d, byId, textOk)
  {
  }

  /** Those of the inputs that may travel, as they came. */
  ghost function Travelling(ds: seq<DemoInput>, byId: map<string, Exported>, textOk: TextRule): seq<DemoInput> {
    if ds == [] then [] else IfItMay(ds[0], byId, textOk) + Travelling(ds[1..], byId, textOk)
  }

  ghost function IfItMay(d: DemoInput, byId: map<string, Exported>, textOk: TextRule): seq<DemoInput> {
    if MayTravel(d, byId, textOk) then [d] else []
  }

  lemma {:induction false} TravellingConcat(
    a: seq<DemoInput>, b: seq<DemoInput>, byId: map<string, Exported>, textOk: TextRule)
    ensures Travelling(a + b, byId, textOk) == Travelling(a, byId, textOk) + Travelling(b, byId, textOk)
  {
    if a == [] {
      assert a + b == b;
    } else {
      assert (a + b)[1..] == a[1..] + b;
      TravellingConcat(a[1..], b, byId, textOk);
    }
  }

  lemma {:induction false} ExportableIsTravelling(
    sorted: seq<DemoInput>, n: nat, byId: map<string, Exported>, textOk: TextRule)
    requires n <= |sorted|
    ensures Exportable(sorted, n, byId, textOk) == Travelling(sorted[..n], byId, textOk)
  {
    if n > 0 {
      var d := sorted[n - 1];
      ExportableIsTravelling(sorted, n - 1, byId, textOk);
      TravelMeans(d, byId, textOk);
      assert sorted[..n] == sorted[..n - 1] + [d];
      TravellingConcat(sorted[..n - 1], [d], byId, textOk);
      assert Travelling([d], byId, textOk) == if MayTravel(d, byId, textOk) then [d] else [];
    }
  }

  lemma {:induction false} InsertTravels(
    d: DemoInput, ds: seq<DemoInput>, byId: map<string, Exported>, textOk: TextRule)
    ensures multiset(Travelling(InsertDemo(d, ds), byId, textOk))
         == multiset(IfItMay(d, byId, textOk)) + multiset(Travelling(ds, byId, textOk))
  {
    if ds != [] && CanonicalJson.KeyLess(ds[0].journey, d.journey) {
      var rest := InsertDemo(d, ds[1..]);
      InsertTravels(d, ds[1..], byId, textOk);
      assert InsertDemo(d, ds) == [ds[0]] + rest && ([ds[0]] + rest)[1..] == rest;
    } else {
      assert ([d] + ds)[1..] == ds;
    }
  }

  /** Sorting loses and adds none. */
  lemma {:induction false} SortTravels(ds: seq<DemoInput>, byId: map<string, Exported>, textOk: TextRule)
    ensures multiset(Travelling(SortDemos(ds), byId, textOk)) == multiset(Travelling(ds, byId, textOk))
  {
    if ds != [] {
      SortTravels(ds[1..], byId, textOk);
      InsertTravels(ds[0], SortDemos(ds[1..]), byId, textOk);
    }
  }

  lemma {:induction false} TravellingHolds(
    ds: seq<DemoInput>, byId: map<string, Exported>, textOk: TextRule, d: DemoInput)
    ensures d in Travelling(ds, byId, textOk) <==> d in ds && MayTravel(d, byId, textOk)
  {
    if ds != [] { TravellingHolds(ds[1..], byId, textOk, d); }
  }

  /** Bundle and input agree on a demo, whatever of its media found room. */
  ghost predicate Carries(b: Bundled, d: DemoInput, textOk: TextRule) {
    exists i :: 0 <= i < |b.demos| && SameDemo(b.demos[i], d, textOk)
  }

  /** One of the inputs that may travel, with its own text. */
  ghost predicate ComesFrom(
    out: Demo, demos: seq<DemoInput>, byId: map<string, Exported>, textOk: TextRule)
  {
    exists d :: d in demos && MayTravel(d, byId, textOk) && SameDemo(out, d, textOk)
  }

  lemma TruncatedDemos(demos: seq<DemoInput>, byId: map<string, Exported>, textOk: TextRule)
    ensures var sorted := SortDemos(demos);
            var all := Travelling(sorted, byId, textOk);
            AllSame(Bundle(demos, byId, textOk).demos, if |all| <= 1000 then all else all[..1000], textOk)
  {
    var sorted := SortDemos(demos);
    ExportsExactly(sorted, |sorted|, byId, textOk);
    ExportableIsTravelling(sorted, |sorted|, byId, textOk);
    assert sorted[..|sorted|] == sorted;
  }

  /**
   * Exactly the demos that may travel do, as long as there are no more than 1000; then 1000 of them do. Each
   * is exported with its own numbers, captions, expected results, title and privacy record.
   */
  lemma TravelsExactly(demos: seq<DemoInput>, byId: map<string, Exported>, textOk: TextRule)
    ensures var (b, n) := (Bundle(demos, byId, textOk), |Travelling(demos, byId, textOk)|);
            && |b.demos| == (if n <= 1000 then n else 1000)
            && (forall i :: 0 <= i < |b.demos| ==> ComesFrom(b.demos[i], demos, byId, textOk))
            && (n <= 1000 ==> forall d <- demos :: MayTravel(d, byId, textOk) ==> Carries(b, d, textOk))
  {
    var b, sorted := Bundle(demos, byId, textOk), SortDemos(demos);
    var all, input := Travelling(sorted, byId, textOk), Travelling(demos, byId, textOk);
    TruncatedDemos(demos, byId, textOk);
    SortTravels(demos, byId, textOk);
    assert |all| == |multiset(all)| && |input| == |multiset(input)|;
    forall i | 0 <= i < |b.demos| ensures ComesFrom(b.demos[i], demos, byId, textOk) {
      assert all[i] in multiset(all) && all[i] in input;
      TravellingHolds(demos, byId, textOk, all[i]);
      assert SameDemo(b.demos[i], all[i], textOk);
    }
    if |input| <= 1000 {
      forall d | d in demos && MayTravel(d, byId, textOk) ensures Carries(b, d, textOk) {
        TravellingHolds(demos, byId, textOk, d);
        assert d in multiset(input) && d in all;
        var i :| 0 <= i < |all| && all[i] == d;
        assert SameDemo(b.demos[i], d, textOk);
      }
    }
  }
  // ---------- which media travel ----------

  /** The largest file of each type: 2 MiB, 50 MiB and 256 KiB. */
  function Largest(t: FileType): nat {
    match t
    case Png => 2_097_152
    case Webm => 52_428_800
    case Vtt => 262_144
  }

  /** The file is verified, not too large, and leaves the bundle at most 4000 files and 512 MiB of media. */
  ghost predicate HasRoom(p: Packed, d: DemoInput, name: Option<string>, t: FileType) {
    && name.Some? && name.value in d.media
    && var f := d.media[name.value];
    && f.bytes <= Largest(t) && |p.files| < 4000 && p.total + f.bytes <= 536_870_912
  }

  /** A file is taken exactly when it has room; it then comes last, under its demo's directory, as it was verified. */
  lemma TakeExactly(p: Packed, d: DemoInput, name: Option<string>, t: FileType)
    ensures var (q, path) := TakeFile(p, d, name, t);
            && (path.Some? <==> HasRoom(p, d, name, t))
            && (path.None? ==> q == p)
            && (path.Some? ==>
                var f := d.media[name.value];
                && path.value == "media/" + d.journey + "/" + name.value
                && q.files == p.files + [BundleFile(path.value, f.sha256, f.bytes, t)]
                && q.media == p.media + [MediaCopy(path.value, f.source)]
                && q.total == p.total + f.bytes)
  {
  }

  /** `step-` and two or three digits and `.png`. */
  ghost predicate NumberedShot(name: string) {
    exists digits: string :: 2 <= |digits| <= 3 && name == "step-" + digits + ".png" && Decimal(digits)
  }

  ghost predicate Decimal(digits: string) { forall i :: 0 <= i < |digits| ==> digits[i] in "0123456789" }

  lemma DigitsAre(c: char)
    ensures c in "0123456789" <==> '0' <= c <= '9'
  {
    var all := "0123456789";
    if '0' <= c <= '9' { assert all[c as int - 48] == c; }
  }

  lemma ShotExactly(name: string)
    ensures ShotName(name) <==> NumberedShot(name)
  {
    forall c: char ensures c in "0123456789" <==> '0' <= c <= '9' { DigitsAre(c); }
    if ShotName(name) {
      var digits := name[5..|name| - 4];
      assert name == "step-" + digits + ".png";
    }
    if digits: string :| 2 <= |digits| <= 3 && name == "step-" + digits + ".png" && Decimal(digits) {
      var n := |name|;
      assert name[..5] == "step-" && name[n - 4..] == ".png";
      assert forall i :: 5 <= i < n - 4 ==> name[i] == digits[i - 5];
    }
  }

  /** A step's screenshot travels exactly when it is a numbered one with room. */
  lemma StepExactly(p: Packed, d: DemoInput, s: StepInput, textOk: TextRule)
    ensures var (q, step) := PackStep(p, d, s, textOk);
            && (step.screenshot.Some? <==>
                s.screenshot.Some? && NumberedShot(s.screenshot.value) && HasRoom(p, d, s.screenshot, Png))
            && (step.screenshot.None? ==> q == p)
            && (step.screenshot.Some? ==> (q, step.screenshot) == TakeFile(p, d, s.screenshot, Png))
  {
    if s.screenshot.Some? { ShotExactly(s.screenshot.value); }
  }

  /** The demo names subtitles, and they are verified. */
  ghost predicate Subtitled(d: DemoInput) { d.subtitles.Some? && d.subtitles.value in d.media }

  /**
   * A video travels exactly when it has room and, if the demo names subtitles, they are verified and have room
   * after it; then they travel too, and with no video none do.
   */
  lemma ClipsExactly(p: Packed, d: DemoInput)
    ensures var (c, q) := (PackClips(p, d), TakeFile(p, d, d.video, Webm).0);
            && (c.video.Some? <==>
                HasRoom(p, d, d.video, Webm) && (d.subtitles.Some? ==> Subtitled(d) && HasRoom(q, d, d.subtitles, Vtt)))
            && (c.subtitles.Some? <==> c.video.Some? && d.subtitles.Some?)
            && (c.video.Some? && c.subtitles.None? ==> c.packed == q)
            && (c.subtitles.Some? ==> c.packed == TakeFile(q, d, d.subtitles, Vtt).0)
  {
  }
}
