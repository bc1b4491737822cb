/**
 * The pure part of a download request: the title is sanitized, the options are built,
 * and the output path that results names the title and the chosen quality.
 */
module Download {
  import opened Wrappers
  import opened Text
  import opened Metadata
  import opened Sanitize
  import opened Catalog
  import opened DownloadOptions

  /** The title a download is saved under: the metadata's title, or "video" when it has none, sanitized. */
  function SafeTitle(info: VideoInfo): (t: string)
    ensures forall i :: 0 <= i < |t| ==> IsAllowed(t[i])
    ensures IsSubsequence(t, info.title.GetOr("video"))
    ensures info.title.Some? ==> t == SanitizeFilename(info.title.value)
    ensures info.title.None? ==> t == "video"
  {
    KeepAllowedOfAllowed("video");
    SanitizeFilename(info.title.GetOr("video"))
  }

  /** The options of a download request for the video `info` describes. The title never causes a failure. */
  function DownloadRequestOptions(cfg: AppConfig, info: VideoInfo, downloadType: string, selection: string)
    : (r: Result<EngineOptions, OptionsError>)
    ensures r.Failure? <==>
      || (downloadType != "audio" && downloadType != "video")
      || (downloadType == "video" && '_' !in selection)
    ensures r.Success? ==> HasBaseSettings(r.value, cfg)
    ensures r.Success? && downloadType == "audio" ==>
      r.value.outtmpl == Some(JoinPath(cfg.downloadFolder, AudioFileName(SafeTitle(info), selection)))
    ensures r.Success? && downloadType == "video" ==>
      r.value.outtmpl == Some(JoinPath(cfg.downloadFolder, VideoFileName(SafeTitle(info), HeightPart(selection))))
  {
    var t := SafeTitle(info);
    if downloadType == "video" && '_' in selection then
      VideoOutputPath(cfg, selection, t);
      BuildDownloadOptions(cfg, downloadType, selection, t)
    else
      BuildDownloadOptions(cfg, downloadType, selection, t)
  }

  /** The part of a video selection after its first underscore: the height it names. */
  function HeightPart(selection: string): string
    requires '_' in selection
  {
    SplitFirst(selection, '_').value.1
  }

  /** The output path of a video download names the height part of its selection. */
  lemma VideoOutputPath(cfg: AppConfig, selection: string, safeTitle: string)
    requires '_' in selection
    ensures BuildDownloadOptions(cfg, "video", selection, safeTitle).Success?
    ensures BuildDownloadOptions(cfg, "video", selection, safeTitle).value.outtmpl
         == Some(JoinPath(cfg.downloadFolder, VideoFileName(safeTitle, HeightPart(selection))))
  {
  }

  lemma OutputNameIsRelative(t: string, x: string, suffix: string)
    requires forall i :: 0 <= i < |t| ==> IsAllowed(t[i])
    ensures var n := t + " [" + x + suffix; n != [] && n[0] != '/'
  {
  }

  /** Within one folder, a sanitized title and a height determine the video output path and vice versa. */
  lemma VideoPathInjective(folder: string, t1: string, r1: string, t2: string, r2: string)
    requires forall i :: 0 <= i < |t1| ==> IsAllowed(t1[i])
    requires forall i :: 0 <= i < |t2| ==> IsAllowed(t2[i])
    requires JoinPath(folder, VideoFileName(t1, r1)) == JoinPath(folder, VideoFileName(t2, r2))
    ensures t1 == t2 && r1 == r2
  {
    OutputNameIsRelative(t1, r1, "p].%(ext)s");
    OutputNameIsRelative(t2, r2, "p].%(ext)s");
    JoinPathInjective(folder, VideoFileName(t1, r1), VideoFileName(t2, r2));
    BracketedNameInjective(t1, r1, t2, r2, "p].%(ext)s");
  }

  /** Within one folder, a sanitized title and a bitrate determine the audio output path and vice versa. */
  lemma AudioPathInjective(folder: string, t1: string, b1: string, t2: string, b2: string)
    requires forall i :: 0 <= i < |t1| ==> IsAllowed(t1[i])
    requires forall i :: 0 <= i < |t2| ==> IsAllowed(t2[i])
    requires JoinPath(folder, AudioFileName(t1, b1)) == JoinPath(folder, AudioFileName(t2, b2))
    ensures t1 == t2 && b1 == b2
  {
    OutputNameIsRelative(t1, b1, "kbps].%(ext)s");
    OutputNameIsRelative(t2, b2, "kbps].%(ext)s");
    JoinPathInjective(folder, AudioFileName(t1, b1), AudioFileName(t2, b2));
    BracketedNameInjective(t1, b1, t2, b2, "kbps].%(ext)s");
  }

  /**
   * Two video downloads land on the same path exactly when their sanitized titles and their
   * heights are the same: the path collision is exactly the identical-request case.
   */
  lemma VideoPathsCollideOnlyWhenSame(cfg: AppConfig, info1: VideoInfo, sel1: string, info2: VideoInfo, sel2: string)
    requires '_' in sel1 && '_' in sel2
    ensures DownloadRequestOptions(cfg, info1, "video", sel1).value.outtmpl
         == DownloadRequestOptions(cfg, info2, "video", sel2).value.outtmpl
        <==> SafeTitle(info1) == SafeTitle(info2) && HeightPart(sel1) == HeightPart(sel2)
  {
    var t1, t2 := SafeTitle(info1), SafeTitle(info2);
    VideoOutputPath(cfg, sel1, t1);
    VideoOutputPath(cfg, sel2, t2);
    var p1 := JoinPath(cfg.downloadFolder, VideoFileName(t1, HeightPart(sel1)));
    var p2 := JoinPath(cfg.downloadFolder, VideoFileName(t2, HeightPart(sel2)));
    if p1 == p2 {
      VideoPathInjective(cfg.downloadFolder, t1, HeightPart(sel1), t2, HeightPart(sel2));
    }
  }

  /** Two audio downloads land on the same path exactly when their sanitized titles and bitrates are the same. */
  lemma AudioPathsCollideOnlyWhenSame(cfg: AppConfig, info1: VideoInfo, sel1: string, info2: VideoInfo, sel2: string)
    ensures DownloadRequestOptions(cfg, info1, "audio", sel1).value.outtmpl
         == DownloadRequestOptions(cfg, info2, "audio", sel2).value.outtmpl
        <==> SafeTitle(info1) == SafeTitle(info2) && sel1 == sel2
  {
    var t1, t2 := SafeTitle(info1), SafeTitle(info2);
    if JoinPath(cfg.downloadFolder, AudioFileName(t1, sel1)) == JoinPath(cfg.downloadFolder, AudioFileName(t2, sel2)) {
      AudioPathInjective(cfg.downloadFolder, t1, sel1, t2, sel2);
    }
  }

  /** An audio download and a video download never share a path. */
  lemma AudioAndVideoPathsDiffer(cfg: AppConfig, info1: VideoInfo, sel1: string, info2: VideoInfo, sel2: string)
    requires '_' in sel2
    ensures DownloadRequestOptions(cfg, info1, "audio", sel1).value.outtmpl
         != DownloadRequestOptions(cfg, info2, "video", sel2).value.outtmpl
  {
    var t1, t2 := SafeTitle(info1), SafeTitle(info2);
    var r2 := HeightPart(sel2);
    VideoOutputPath(cfg, sel2, t2);
    OutputNameIsRelative(t1, sel1, "kbps].%(ext)s");
    OutputNameIsRelative(t2, r2, "p].%(ext)s");
    AudioAndVideoNamesDiffer(t1, sel1, t2, r2);
    if JoinPath(cfg.downloadFolder, AudioFileName(t1, sel1)) == JoinPath(cfg.downloadFolder, VideoFileName(t2, r2)) {
      JoinPathInjective(cfg.downloadFolder, AudioFileName(t1, sel1), VideoFileName(t2, r2));
    }
  }

  /**
   * Every offered video option, sent back as `"{format_id}_{height}"`, downloads the offered
   * format at the offered height, provided its format id holds no underscore.
   */
  lemma VideoChoiceDownloads(cfg: AppConfig, info: VideoInfo, o: VideoOption, safeTitle: string)
    requires o in ProcessVideoFormats(info) && '_' !in o.formatId
    ensures var r := BuildDownloadOptions(cfg, "video", o.formatId + "_" + IntToString(o.height), safeTitle);
      && r.Success?
      && r.value.format == Some(VideoFormatSelector(o.formatId, IntToString(o.height)))
      && r.value.outtmpl == Some(JoinPath(cfg.downloadFolder, VideoFileName(safeTitle, IntToString(o.height))))
  {
    VideoSelectionRoundTrip(cfg, o.formatId, IntToString(o.height), safeTitle);
  }

  /** Every offered audio option is accepted and converts at its own bitrate. */
  lemma AudioChoiceDownloads(cfg: AppConfig, a: AudioOption, safeTitle: string)
    requires a in AudioFormats()
    ensures var r := BuildDownloadOptions(cfg, "audio", a.bitrate, safeTitle);
      && r.Success?
      && r.value.postprocessors == Some([PostProcessor("FFmpegExtractAudio", "mp3", a.bitrate)])
      && r.value.outtmpl == Some(JoinPath(cfg.downloadFolder, AudioFileName(safeTitle, a.bitrate)))
  {
  }
}
