/**
 * The option records handed to the extraction engine: the shared base options and the
 * per-download options built from the user's choice of type and quality.
 */
module DownloadOptions {
  import opened Wrappers
  import opened Text

  /** Process configuration, read once at start-up and passed in explicitly. */
  datatype AppConfig = AppConfig(downloadFolder: string, proxyUrl: Option<string>)

  /** The folder the application is configured with. */
  const DefaultDownloadFolder: string := "downloads"

  const UserAgent: string :=
    "Mozilla/5.0 (Windows NT 10.0; Win64; x64) AppleWebKit/537.36 (KHTML, like Gecko) Chrome/115.0.0.0 Safari/537.36"
  const AcceptLanguage: string := "en-US,en;q=0.5"

  datatype HttpHeaders = HttpHeaders(userAgent: string, acceptLanguage: string)

  datatype PostProcessor = PostProcessor(key: string, preferredCodec: string, preferredQuality: string)

  /** The engine's options dictionary; a key that is not set is `None`. */
  datatype EngineOptions = EngineOptions(
    quiet: bool,
    noPlaylist: bool,
    ignoreErrors: bool,
    noCheckCertificate: bool,
    httpHeaders: HttpHeaders,
    proxy: Option<string>,
    dumpSingleJson: Option<bool>,
    format: Option<string>,
    postprocessors: Option<seq<PostProcessor>>,
    outtmpl: Option<string>,
    mergeOutputFormat: Option<string>)

  datatype OptionsError =
    | InvalidVideoSelection
    | InvalidDownloadType(downloadType: string)

  /** A proxy is in use when the configured URL is set and non-empty (Python truthiness). */
  predicate ProxyConfigured(cfg: AppConfig) {
    cfg.proxyUrl.Some? && cfg.proxyUrl.value != ""
  }

  /** The settings every engine invocation shares. */
  predicate HasBaseSettings(o: EngineOptions, cfg: AppConfig) {
    && o.quiet && o.noPlaylist && o.ignoreErrors && o.noCheckCertificate
    && o.httpHeaders == HttpHeaders(UserAgent, AcceptLanguage)
    && (o.proxy.Some? <==> ProxyConfigured(cfg))
    && (o.proxy.Some? ==> o.proxy == cfg.proxyUrl)
  }

  /** `get_base_ydl_opts` */
  function BaseOptions(cfg: AppConfig): (o: EngineOptions)
    ensures HasBaseSettings(o, cfg)
    ensures o.dumpSingleJson.None? && o.format.None? && o.postprocessors.None?
    ensures o.outtmpl.None? && o.mergeOutputFormat.None?
  {
    EngineOptions(
      quiet := true,
      noPlaylist := true,
      ignoreErrors := true,
      noCheckCertificate := true,
      httpHeaders := HttpHeaders(UserAgent, AcceptLanguage),
      proxy := if ProxyConfigured(cfg) then cfg.proxyUrl else None,
      dumpSingleJson := None,
      format := None,
      postprocessors := None,
      outtmpl := None,
      mergeOutputFormat := None)
  }

  /** The options of the metadata fetch: the base options asking for the metadata as one JSON record. */
  function MetadataOptions(cfg: AppConfig): (o: EngineOptions)
    ensures HasBaseSettings(o, cfg)
    ensures o.dumpSingleJson == Some(true)
    ensures o.format.None? && o.outtmpl.None? && o.postprocessors.None? && o.mergeOutputFormat.None?
  {
    BaseOptions(cfg).(dumpSingleJson := Some(true))
  }

  /** `os.path.join(folder, name)` with POSIX rules. */
  function JoinPath(folder: string, name: string): (path: string)
    ensures |name| <= |path| && path[|path| - |name|..] == name
    ensures (name == [] || name[0] != '/') ==> folder <= path
    ensures name != [] && name[0] == '/' ==> path == name
    ensures (name == [] || name[0] != '/') && folder != [] && folder[|folder| - 1] != '/' ==>
      path == folder + "/" + name
    ensures (name == [] || name[0] != '/') && (folder == [] || folder[|folder| - 1] == '/') ==>
      path == folder + name
  {
    if name != [] && name[0] == '/' then name
    else if folder == [] || folder[|folder| - 1] == '/' then folder + name
    else folder + "/" + name
  }

  /** The output name of an audio download; the engine fills in `%(ext)s`. */
  function AudioFileName(title: string, bitrate: string): string {
    title + " [" + bitrate + "kbps].%(ext)s"
  }

  /** The output name of a video download; the engine fills in `%(ext)s`. */
  function VideoFileName(title: string, res: string): string {
    title + " [" + res + "p].%(ext)s"
  }

  /** The chosen format merged with the best audio, else the best video of that height, else the best. */
  function VideoFormatSelector(formatId: string, res: string): string {
    formatId + "+bestaudio/bestvideo[height=" + res + "]+bestaudio/best"
  }

  /** Extends base options `o` with the options of an audio download. */
  function WithAudio(o: EngineOptions, cfg: AppConfig, selection: string, safeTitle: string): EngineOptions {
    o.(format := Some("bestaudio/best"),
       postprocessors := Some([PostProcessor("FFmpegExtractAudio", "mp3", selection)]),
       outtmpl := Some(JoinPath(cfg.downloadFolder, AudioFileName(safeTitle, selection))))
  }

  /** Extends base options `o` with the options of a video download. */
  function WithVideo(o: EngineOptions, cfg: AppConfig, formatId: string, res: string, safeTitle: string): EngineOptions {
    o.(format := Some(VideoFormatSelector(formatId, res)),
       outtmpl := Some(JoinPath(cfg.downloadFolder, VideoFileName(safeTitle, res))),
       mergeOutputFormat := Some("mp4"))
  }

  /**
   * `build_download_options`: an audio selection is a bitrate, passed on unchecked; a video
   * selection is `"{format_id}_{height}"`, split at its first underscore.
   */
  function BuildDownloadOptions(cfg: AppConfig, downloadType: string, selection: string, safeTitle: string)
    : (r: Result<EngineOptions, OptionsError>)
    ensures r.Failure? <==>
      || (downloadType != "audio" && downloadType != "video")
      || (downloadType == "video" && '_' !in selection)
    ensures r.Failure? && downloadType == "video" ==> r.error == InvalidVideoSelection
    ensures r.Failure? && downloadType != "video" ==> r.error == InvalidDownloadType(downloadType)
    ensures r.Success? ==> HasBaseSettings(r.value, cfg) && r.value.dumpSingleJson.None?
    ensures r.Success? && downloadType == "audio" ==>
      && r.value.format == Some("bestaudio/best")
      && r.value.postprocessors == Some([PostProcessor("FFmpegExtractAudio", "mp3", selection)])
      && r.value.outtmpl == Some(JoinPath(cfg.downloadFolder, AudioFileName(safeTitle, selection)))
      && r.value.mergeOutputFormat.None?
    ensures r.Success? && downloadType == "video" ==>
      exists k :: 0 <= k < |selection| && selection[k] == '_' && '_' !in selection[..k]
        && r.value.format == Some(VideoFormatSelector(selection[..k], selection[k + 1..]))
        && r.value.outtmpl == Some(JoinPath(cfg.downloadFolder, VideoFileName(safeTitle, selection[k + 1..])))
        && r.value.mergeOutputFormat == Some("mp4")
        && r.value.postprocessors.None?
  {
    var base := BaseOptions(cfg);
    if downloadType == "audio" then
      Success(WithAudio(base, cfg, selection, safeTitle))
    else if downloadType == "video" then
      match SplitFirst(selection, '_')
      case None => Failure(InvalidVideoSelection)
      case Some(parts) =>
        var formatId, res := parts.0, parts.1;
        var k := |formatId|;
        assert selection[..k] == formatId && selection[k + 1..] == res by {
          assert selection == formatId + ['_'] + res;
        }
        Success(WithVideo(base, cfg, formatId, res, safeTitle))
    else
      Failure(InvalidDownloadType(downloadType))
  }

  /** A video selection composed as `"{format_id}_{height}"` is taken apart into the same two parts. */
  lemma VideoSelectionRoundTrip(cfg: AppConfig, formatId: string, res: string, safeTitle: string)
    requires '_' !in formatId
    ensures var r := BuildDownloadOptions(cfg, "video", formatId + "_" + res, safeTitle);
      && r.Success?
      && r.value.format == Some(VideoFormatSelector(formatId, res))
      && r.value.outtmpl == Some(JoinPath(cfg.downloadFolder, VideoFileName(safeTitle, res)))
  {
    assert formatId + "_" + res == formatId + ['_'] + res;
    SplitFirstOfJoin(formatId, '_', res);
  }

  /**
   * Output names are unambiguous: two names with the same suffix after the bracketed
   * part, built from titles without `[`, agree only when titles and bracketed parts agree.
   */
  lemma {:induction false} BracketedNameInjective(t1: string, x1: string, t2: string, x2: string, suffix: string)
    requires '[' !in t1 && '[' !in t2
    requires t1 + " [" + x1 + suffix == t2 + " [" + x2 + suffix
    ensures t1 == t2 && x1 == x2
  {
    var s := t1 + " [" + x1 + suffix;
    assert s == t2 + " [" + x2 + suffix;
    assert s[|t1| + 1] == '[';
    assert s[|t2| + 1] == '[';
    assert |t1| == |t2|;
    assert t1 == s[..|t1|] == t2;
    var tail1 := s[|t1| + 2..];
    assert tail1 == x1 + suffix && tail1 == x2 + suffix;
    assert x1 == tail1[..|x1|] == x2;
  }

  /** An audio output name and a video output name never coincide. */
  lemma AudioAndVideoNamesDiffer(t1: string, bitrate: string, t2: string, res: string)
    ensures AudioFileName(t1, bitrate) != VideoFileName(t2, res)
  {
    var a, v := AudioFileName(t1, bitrate), VideoFileName(t2, res);
    assert a[|a| - 10] == 's';
    assert v[|v| - 10] == 'p';
  }

  /** Joining onto one folder keeps names apart: equal paths mean equal names. */
  lemma JoinPathInjective(folder: string, n1: string, n2: string)
    requires n1 != [] && n1[0] != '/' && n2 != [] && n2[0] != '/'
    requires JoinPath(folder, n1) == JoinPath(folder, n2)
    ensures n1 == n2
  {
  }

  /** Under the configured `downloads` folder, a relative output name lands directly inside it. */
  lemma DefaultFolderPath(proxyUrl: Option<string>, name: string)
    requires name == [] || name[0] != '/'
    ensures JoinPath(AppConfig(DefaultDownloadFolder, proxyUrl).downloadFolder, name) == "downloads/" + name
  {
  }
}
