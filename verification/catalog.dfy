/**
 * The format catalog: the video quality options offered for a video (one per target
 * height, highest first) and the fixed audio quality options.
 */
module Catalog {
  import opened Wrappers
  import opened Text
  import opened Metadata

  /** One video quality choice shown to the user. */
  datatype VideoOption = VideoOption(resolution: string, formatId: string, height: int, note: string)

  /** One audio quality choice shown to the user. */
  datatype AudioOption = AudioOption(quality: string, bitrate: string)

  const TargetHeights: set<int> := {4320, 2160, 1440, 1080, 720}

  /** The target heights in the order the finished catalog lists them. */
  const TargetsHighestFirst: seq<int> := [4320, 2160, 1440, 1080, 720]

  const ResolutionLabels: map<int, string> :=
    map[4320 := "8K", 2160 := "4K", 1440 := "2K", 1080 := "FHD", 720 := "HD"]

  /** `"{h}p ({label})"`, or `"{h}p"` for a height without a label. */
  function DisplayResolution(h: int): (r: string)
    ensures h in TargetHeights ==> r == IntToString(h) + "p (" + ResolutionLabels[h] + ")"
    ensures h !in ResolutionLabels ==> r == IntToString(h) + "p"
  {
    var tag := if h in ResolutionLabels then ResolutionLabels[h] else "";
    if tag != "" then IntToString(h) + "p (" + tag + ")" else IntToString(h) + "p"
  }

  /** A video-only MP4 stream: video present, audio absent, MP4 container. */
  predicate IsVideoOnlyMp4(f: Format) {
    f.vcodec != Some("none") && f.acodec == Some("none") && f.ext == Some("mp4")
  }

  /** `f` is a video-only MP4 stream of height `h`. */
  predicate MatchesAt(f: Format, h: int) {
    f.height == Some(h) && IsVideoOnlyMp4(f)
  }

  /** An option at a target height, shown as `"{h}p ({label})"` and noted "MP4". */
  predicate Labelled(x: VideoOption) {
    && x.height in TargetHeights
    && x.resolution == IntToString(x.height) + "p (" + ResolutionLabels[x.height] + ")"
    && x.note == "MP4"
  }

  function OptionFor(f: Format, h: int): VideoOption {
    VideoOption(DisplayResolution(h), f.formatId, h, "MP4")
  }

  function FormatsOf(info: VideoInfo): seq<Format> {
    info.formats.GetOr([])
  }

  // ---------------------------------------------------------------------------
  // The source's algorithm: one pass with a set of heights already emitted,
  // then a sort by descending height.
  // ---------------------------------------------------------------------------

  /** Whether the pass emits an option for `f`, given the heights emitted so far. */
  predicate Emits(f: Format, seen: set<int>) {
    f.height.Some? && f.height.value in TargetHeights && f.height.value !in seen && IsVideoOnlyMp4(f)
  }

  /** The options the pass appends, in input order, when `seen` is already emitted. */
  function Emitted(fs: seq<Format>, seen: set<int>): (r: seq<VideoOption>)
    ensures forall i :: 0 <= i < |r| ==> r[i].height in TargetHeights && r[i].height !in seen
    ensures |r| <= |fs|
    decreases |fs|
  {
    if fs == [] then []
    else if Emits(fs[0], seen) then
      [OptionFor(fs[0], fs[0].height.value)] + Emitted(fs[1..], seen + {fs[0].height.value})
    else Emitted(fs[1..], seen)
  }

  predicate HighestFirst(s: seq<VideoOption>) {
    forall i, j :: 0 <= i < j < |s| ==> s[i].height >= s[j].height
  }

  predicate StrictlyHighestFirst(s: seq<VideoOption>) {
    forall i, j :: 0 <= i < j < |s| ==> s[i].height > s[j].height
  }

  predicate DistinctHeights(s: seq<VideoOption>) {
    forall i, j :: 0 <= i < j < |s| ==> s[i].height != s[j].height
  }

  /** Places `x` before the first element not higher than it (stable). */
  function InsertByHeight(x: VideoOption, s: seq<VideoOption>): seq<VideoOption>
    decreases |s|
  {
    if s == [] || x.height >= s[0].height then [x] + s
    else [s[0]] + InsertByHeight(x, s[1..])
  }

  /** Python's `list.sort(key=lambda o: -o["height"])`: a stable sort, highest first. */
  function SortByHeight(s: seq<VideoOption>): (r: seq<VideoOption>)
    ensures multiset(r) == multiset(s)
    ensures HighestFirst(r)
    ensures DistinctHeights(s) ==> StrictlyHighestFirst(r)
    decreases |s|
  {
    if s == [] then []
    else
      var rest := SortByHeight(s[1..]);
      InsertPermutes(s[0], rest);
      InsertKeepsOrder(s[0], rest);
      assert s == [s[0]] + s[1..];
      InsertDistinct(s, rest);
      InsertByHeight(s[0], rest)
  }

  /** Every element of `s` is at most `h` high. */
  predicate AtMost(s: seq<VideoOption>, h: int) {
    forall i :: 0 <= i < |s| ==> s[i].height <= h
  }

  lemma {:induction false} InsertAtMost(x: VideoOption, s: seq<VideoOption>, h: int)
    requires AtMost(s, h) && x.height <= h
    ensures AtMost(InsertByHeight(x, s), h)
    decreases |s|
  {
    if s != [] && x.height < s[0].height {
      InsertAtMost(x, s[1..], h);
      assert InsertByHeight(x, s) == [s[0]] + InsertByHeight(x, s[1..]);
    }
  }

  lemma {:induction false} InsertPermutes(x: VideoOption, s: seq<VideoOption>)
    ensures multiset(InsertByHeight(x, s)) == multiset(s) + multiset{x}
    decreases |s|
  {
    if s != [] && x.height < s[0].height {
      InsertPermutes(x, s[1..]);
      assert s == [s[0]] + s[1..];
    }
  }

  lemma {:induction false} InsertKeepsOrder(x: VideoOption, s: seq<VideoOption>)
    requires HighestFirst(s)
    ensures HighestFirst(InsertByHeight(x, s))
    decreases |s|
  {
    if s != [] && x.height < s[0].height {
      var tail := s[1..];
      assert forall i :: 0 <= i < |tail| ==> tail[i] == s[i + 1];
      InsertKeepsOrder(x, tail);
      InsertAtMost(x, tail, s[0].height);
      var rest := InsertByHeight(x, tail);
      var r := [s[0]] + rest;
      assert InsertByHeight(x, s) == r;
      forall i, j | 0 <= i < j < |r| ensures r[i].height >= r[j].height {
        assert r[j] == rest[j - 1];
        if i > 0 {
          assert r[i] == rest[i - 1];
        }
      }
    }
  }

  /** The step of `SortByHeight` that keeps distinct heights strictly ordered. */
  lemma InsertDistinct(s: seq<VideoOption>, rest: seq<VideoOption>)
    requires s != [] && multiset(rest) == multiset(s[1..])
    requires DistinctHeights(s[1..]) ==> StrictlyHighestFirst(rest)
    ensures DistinctHeights(s) ==> StrictlyHighestFirst(InsertByHeight(s[0], rest))
  {
    if DistinctHeights(s) {
      forall y | y in rest ensures y.height != s[0].height {
        assert y in multiset(s[1..]);
      }
      InsertKeepsStrictOrder(s[0], rest);
    }
  }

  lemma {:induction false} InsertKeepsStrictOrder(x: VideoOption, s: seq<VideoOption>)
    requires StrictlyHighestFirst(s)
    requires forall y :: y in s ==> y.height != x.height
    ensures StrictlyHighestFirst(InsertByHeight(x, s))
    decreases |s|
  {
    if s != [] && x.height < s[0].height {
      var tail := s[1..];
      assert forall i :: 0 <= i < |tail| ==> tail[i] == s[i + 1];
      assert forall y :: y in tail ==> y in s;
      InsertKeepsStrictOrder(x, tail);
      InsertAtMost(x, tail, s[0].height - 1);
      var rest := InsertByHeight(x, tail);
      var r := [s[0]] + rest;
      assert InsertByHeight(x, s) == r;
      forall i, j | 0 <= i < j < |r| ensures r[i].height > r[j].height {
        assert r[j] == rest[j - 1];
        if i > 0 {
          assert r[i] == rest[i - 1];
        }
      }
    }
  }

  // ---------------------------------------------------------------------------
  // Reference definition: for each target height, highest first, the option built
  // from the first video-only MP4 record at that height.
  // ---------------------------------------------------------------------------

  /** Index of the first video-only MP4 record of height `h`. */
  function FirstMatchIndex(fs: seq<Format>, h: int): (r: Option<nat>)
    ensures r.Some? ==> r.value < |fs| && MatchesAt(fs[r.value], h)
    ensures r.Some? ==> forall j :: 0 <= j < r.value ==> !MatchesAt(fs[j], h)
    ensures r.None? ==> forall j :: 0 <= j < |fs| ==> !MatchesAt(fs[j], h)
    decreases |fs|
  {
    if fs == [] then None
    else if MatchesAt(fs[0], h) then Some(0)
    else
      match FirstMatchIndex(fs[1..], h)
      case None => None
      case Some(i) => Some(i + 1)
  }

  /** `x` is the option the catalog should hold for its height, whichever height that is. */
  predicate ChosenAt(fs: seq<Format>, x: VideoOption) {
    match FirstMatchIndex(fs, x.height)
    case Some(i) => x == OptionFor(fs[i], x.height)
    case None => false
  }

  /** `x` is the option the catalog should hold for its height, and that height is a target. */
  predicate Chosen(fs: seq<Format>, x: VideoOption) {
    x.height in TargetHeights && ChosenAt(fs, x)
  }

  function OptionsAt(fs: seq<Format>, hs: seq<int>): seq<VideoOption> {
    if hs == [] then []
    else
      var head := match FirstMatchIndex(fs, hs[0])
        case Some(i) => [OptionFor(fs[i], hs[0])]
        case None => [];
      head + OptionsAt(fs, hs[1..])
  }

  function ExpectedCatalog(fs: seq<Format>): seq<VideoOption> {
    OptionsAt(fs, TargetsHighestFirst)
  }

  // ---------------------------------------------------------------------------
  // The operation
  // ---------------------------------------------------------------------------

  /** `process_video_formats`: the video quality options offered for `info`. */
  function ProcessVideoFormats(info: VideoInfo): (r: seq<VideoOption>)
    ensures r == ExpectedCatalog(FormatsOf(info))
    ensures StrictlyHighestFirst(r)
    ensures forall x :: x in r <==> Chosen(FormatsOf(info), x)
    ensures forall i :: 0 <= i < |r| ==> Labelled(r[i])
    ensures info.formats.None? ==> r == []
  {
    var fs := FormatsOf(info);
    CatalogMatchesReference(fs);
    ExpectedMembers(fs);
    ChosenShape(fs);
    SortByHeight(Emitted(fs, {}))
  }

  /** The bitrate is a decimal numeral and the quality text starts with `"{bitrate} kbps"`. */
  predicate ShowsBitrate(a: AudioOption) {
    && IsNumeral(a.bitrate)
    && |a.bitrate| + 5 <= |a.quality|
    && a.quality[..|a.bitrate| + 5] == a.bitrate + " kbps"
  }

  /** `get_audio_formats`: the fixed audio choices, highest bitrate first. */
  function AudioFormats(): (r: seq<AudioOption>)
    ensures |r| == 2
    ensures r[0].bitrate == "320" && r[1].bitrate == "192"
    ensures forall i :: 0 <= i < |r| ==> ShowsBitrate(r[i])
    ensures DigitsValue(r[0].bitrate) > DigitsValue(r[1].bitrate)
  {
    var hi, lo := AudioOption("320 kbps (Highest)", "320"), AudioOption("192 kbps (Standard)", "192");
    assert ShowsBitrate(hi) && ShowsBitrate(lo);
    ThreeDigitsValue(hi.bitrate);
    ThreeDigitsValue(lo.bitrate);
    [hi, lo]
  }

  // ---------------------------------------------------------------------------
  // Lemmas
  // ---------------------------------------------------------------------------

  /** Every chosen option carries its height's label and the note "MP4". */
  lemma ChosenShape(fs: seq<Format>)
    ensures forall x :: Chosen(fs, x) ==> Labelled(x)
  {
    forall x | Chosen(fs, x) ensures Labelled(x) {
      var i := FirstMatchIndex(fs, x.height).value;
      assert x == OptionFor(fs[i], x.height);
    }
  }

  /** A record that is not a match at `x`'s height does not change the choice for `x`. */
  lemma ChosenAtSkip(f: Format, fs: seq<Format>, x: VideoOption)
    requires !MatchesAt(f, x.height)
    ensures ChosenAt([f] + fs, x) <==> ChosenAt(fs, x)
  {
    assert ([f] + fs)[1..] == fs;
  }

  /** The pass emits exactly the chosen options at target heights not yet seen. */
  lemma {:induction false} EmittedMembers(fs: seq<Format>, seen: set<int>, x: VideoOption)
    ensures x in Emitted(fs, seen) <==> Chosen(fs, x) && x.height !in seen
    decreases |fs|
  {
    if fs == [] {
    } else {
      var f, rest := fs[0], fs[1..];
      assert fs == [f] + rest;
      if Emits(f, seen) {
        var h := f.height.value;
        EmittedMembers(rest, seen + {h}, x);
        if x.height != h {
          ChosenAtSkip(f, rest, x);
        }
      } else {
        EmittedMembers(rest, seen, x);
        if !MatchesAt(f, x.height) {
          ChosenAtSkip(f, rest, x);
        }
      }
    }
  }

  /** The pass never emits two options of one height, nor one of a height already seen. */
  lemma {:induction false} EmittedDistinct(fs: seq<Format>, seen: set<int>)
    ensures DistinctHeights(Emitted(fs, seen))
    ensures forall x :: x in Emitted(fs, seen) ==> x.height !in seen
    decreases |fs|
  {
    if fs != [] {
      var f, rest := fs[0], fs[1..];
      if Emits(f, seen) {
        var h := f.height.value;
        EmittedDistinct(rest, seen + {h});
        var e := Emitted(fs, seen);
        assert e == [OptionFor(f, h)] + Emitted(rest, seen + {h});
        forall i, j | 0 <= i < j < |e| ensures e[i].height != e[j].height {
          if i == 0 {
            assert e[j] in Emitted(rest, seen + {h});
          }
        }
      } else {
        EmittedDistinct(rest, seen);
      }
    }
  }

  /** The reference holds exactly the chosen options at the heights of `hs`. */
  lemma {:induction false} OptionsAtMembers(fs: seq<Format>, hs: seq<int>, x: VideoOption)
    ensures x in OptionsAt(fs, hs) <==> x.height in hs && ChosenAt(fs, x)
    decreases |hs|
  {
    if hs != [] {
      OptionsAtMembers(fs, hs[1..], x);
      assert x.height in hs <==> x.height == hs[0] || x.height in hs[1..];
      var head := match FirstMatchIndex(fs, hs[0])
        case Some(i) => [OptionFor(fs[i], hs[0])]
        case None => [];
      assert OptionsAt(fs, hs) == head + OptionsAt(fs, hs[1..]);
      assert x in head <==> x.height == hs[0] && ChosenAt(fs, x);
    }
  }

  /** Listing heights highest first lists the reference highest first. */
  lemma {:induction false} OptionsAtOrdered(fs: seq<Format>, hs: seq<int>)
    requires forall i, j :: 0 <= i < j < |hs| ==> hs[i] > hs[j]
    ensures StrictlyHighestFirst(OptionsAt(fs, hs))
    decreases |hs|
  {
    if hs != [] {
      OptionsAtOrdered(fs, hs[1..]);
      var rest := OptionsAt(fs, hs[1..]);
      forall y | y in rest ensures y.height < hs[0] {
        OptionsAtMembers(fs, hs[1..], y);
      }
    }
  }

  lemma ExpectedMembers(fs: seq<Format>)
    ensures StrictlyHighestFirst(ExpectedCatalog(fs))
    ensures forall x :: x in ExpectedCatalog(fs) <==> Chosen(fs, x)
  {
    OptionsAtOrdered(fs, TargetsHighestFirst);
    forall x ensures x in ExpectedCatalog(fs) <==> Chosen(fs, x) {
      OptionsAtMembers(fs, TargetsHighestFirst, x);
    }
  }

  /** Two strictly ordered sequences with the same elements are equal. */
  lemma {:induction false} StrictlyOrderedUnique(a: seq<VideoOption>, b: seq<VideoOption>)
    requires StrictlyHighestFirst(a) && StrictlyHighestFirst(b)
    requires forall x :: x in a <==> x in b
    ensures a == b
    decreases |a|
  {
    assert a != [] ==> a[0] in b;
    assert b != [] ==> b[0] in a;
    if a != [] && b != [] {
      assert a[0] == b[0];
      forall x ensures x in a[1..] <==> x in b[1..] {
        assert x in a[1..] <==> x in a && x != a[0];
        assert x in b[1..] <==> x in b && x != b[0];
      }
      StrictlyOrderedUnique(a[1..], b[1..]);
      assert a == [a[0]] + a[1..];
      assert b == [b[0]] + b[1..];
    }
  }

  /** The one-pass-then-sort algorithm computes the reference catalog. */
  lemma CatalogMatchesReference(fs: seq<Format>)
    ensures SortByHeight(Emitted(fs, {})) == ExpectedCatalog(fs)
  {
    var e := Emitted(fs, {});
    var sorted := SortByHeight(e);
    EmittedDistinct(fs, {});
    ExpectedMembers(fs);
    forall x ensures x in sorted <==> x in ExpectedCatalog(fs) {
      assert x in sorted <==> x in multiset(e);
      EmittedMembers(fs, {}, x);
    }
    StrictlyOrderedUnique(sorted, ExpectedCatalog(fs));
  }

  /**
   * A record that is no video-only MP4 stream at any target height changes nothing,
   * wherever it sits among the others.
   */
  lemma NonMatchingRecordIgnored(info: VideoInfo, a: seq<Format>, f: Format, b: seq<Format>)
    requires FormatsOf(info) == a + b
    requires forall h :: h in TargetHeights ==> !MatchesAt(f, h)
    ensures ProcessVideoFormats(info.(formats := Some(a + [f] + b))) == ProcessVideoFormats(info)
  {
    var e := a + [f] + b;
    var with := info.(formats := Some(e));
    assert FormatsOf(with) == e;
    forall x ensures Chosen(e, x) <==> Chosen(a + b, x) {
      if x.height in TargetHeights {
        FirstMatchSkip(a, f, b, x.height);
      }
    }
    StrictlyOrderedUnique(ProcessVideoFormats(with), ProcessVideoFormats(info));
  }

  /** A record that does not match at `h` leaves the record chosen at `h` unchanged. */
  lemma FirstMatchSkip(a: seq<Format>, f: Format, b: seq<Format>, h: int)
    requires !MatchesAt(f, h)
    ensures FirstMatchIndex(a + [f] + b, h).None? <==> FirstMatchIndex(a + b, h).None?
    ensures FirstMatchIndex(a + b, h).Some? ==>
      (a + [f] + b)[FirstMatchIndex(a + [f] + b, h).value] == (a + b)[FirstMatchIndex(a + b, h).value]
  {
    var e, g := a + [f] + b, a + b;
    assert forall j :: 0 <= j < |a| ==> e[j] == g[j];
    assert e[|a|] == f;
    match FirstMatchIndex(g, h)
    case None =>
      forall k | 0 <= k < |e| ensures !MatchesAt(e[k], h) {
        if k > |a| {
          assert e[k] == g[k - 1];
        }
      }
    case Some(i) =>
      var i' := if i < |a| then i else i + 1;
      assert e[i'] == g[i];
      forall k | 0 <= k < i' ensures !MatchesAt(e[k], h) {
        if k > |a| {
          assert e[k] == g[k - 1];
        }
      }
      FirstMatchIsLeast(e, h, i');
  }

  /** A matching record with no match before it is the first match. */
  lemma FirstMatchIsLeast(fs: seq<Format>, h: int, i: nat)
    requires i < |fs| && MatchesAt(fs[i], h)
    requires forall k :: 0 <= k < i ==> !MatchesAt(fs[k], h)
    ensures FirstMatchIndex(fs, h) == Some(i)
  {
  }

  /** Adding a record does not change the choice at a height that already has a match. */
  lemma FirstMatchAppend(fs: seq<Format>, g: Format, h: int)
    requires FirstMatchIndex(fs, h).Some? || !MatchesAt(g, h)
    ensures FirstMatchIndex(fs + [g], h) == FirstMatchIndex(fs, h)
  {
    var e := fs + [g];
    assert forall j :: 0 <= j < |fs| ==> e[j] == fs[j];
  }

  /** First seen wins: a later record at a height already offered changes nothing. */
  lemma LaterRecordIgnored(info: VideoInfo, g: Format)
    requires g.height.Some? && FirstMatchIndex(FormatsOf(info), g.height.value).Some?
    ensures ProcessVideoFormats(info.(formats := Some(FormatsOf(info) + [g]))) == ProcessVideoFormats(info)
  {
    var fs := FormatsOf(info);
    var with := info.(formats := Some(fs + [g]));
    assert FormatsOf(with) == fs + [g];
    forall x ensures Chosen(fs + [g], x) <==> Chosen(fs, x) {
      FirstMatchAppend(fs, g, x.height);
      var e := fs + [g];
      if FirstMatchIndex(fs, x.height).Some? {
        assert e[FirstMatchIndex(fs, x.height).value] == fs[FirstMatchIndex(fs, x.height).value];
      }
    }
    StrictlyOrderedUnique(ProcessVideoFormats(with), ProcessVideoFormats(info));
  }

  /** The first video-only MP4 record at a target height is the one offered for it. */
  lemma FirstRecordWins(info: VideoInfo, g: Format)
    requires g.height.Some? && g.height.value in TargetHeights && IsVideoOnlyMp4(g)
    ensures OptionFor(g, g.height.value) in ProcessVideoFormats(info.(formats := Some([g] + FormatsOf(info))))
  {
  }
}
